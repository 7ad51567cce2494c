/** The article record the home page and the user dashboard list, and their shared text test. */
module Articles {
  import opened Text

  datatype Article = Article(
    id: string,
    title: string,
    excerpt: string,
    category: string,
    image: string,
    date: string,
    views: nat,
    likes: nat)

  /** The lower-cased query occurs in the lower-cased title or in the lower-cased excerpt. */
  predicate MatchesQuery(a: Article, query: string)
  {
    Includes(Lower(a.title), Lower(query)) || Includes(Lower(a.excerpt), Lower(query))
  }

  /** The callback handed to `filter` for a text query. */
  function QueryMatcher(query: string): Article -> bool
  {
    (a: Article) => MatchesQuery(a, query)
  }

  /** The match, stated without the helper functions: a substring test after lower-casing. */
  lemma MatchesQueryMeaning(a: Article, query: string)
    ensures MatchesQuery(a, query) <==> Occurs(Lower(a.title), Lower(query)) || Occurs(Lower(a.excerpt), Lower(query))
  {
  }

  /** Queries that differ only in letter case match the same articles. */
  lemma MatchIgnoresCase(a: Article, q1: string, q2: string)
    requires SameIgnoringCase(q1, q2)
    ensures MatchesQuery(a, q1) <==> MatchesQuery(a, q2)
  {
    LowerIgnoresCase(q1, q2);
  }

  /** The empty query matches every article. */
  lemma EmptyQueryMatches(a: Article)
    ensures MatchesQuery(a, "")
  {
    assert Lower("") == "";
    assert Lower(a.title)[..0] == "";
  }
}
