/**
 * The home page search: on each search the list shown is recomputed from
 * the fixed demo list. A query that trims to nothing shows every article;
 * any other query is matched as typed, surrounding spaces included.
 */
module HomePage {
  import opened Sequences
  import opened Text
  import opened Articles

  const HomeArticles: seq<Article> := [
    Article("1", "Zohran Momdani Recent Election Win",
      "Socialist candidate secures historic victory in municipal elections with groundswell of grassroots support",
      "Politics", "/election-victory-celebration.jpg", "2025-11-24", 15420, 3200),
    Article("2", "AI Breakthroughs in Medical Imaging",
      "New deep learning model achieves 99.2% accuracy in detecting rare diseases early",
      "Technology", "/medical-imaging-technology-ai.jpg", "2025-11-23", 8900, 2100),
    Article("3", "Climate Summit Reaches Historic Agreement",
      "Nations pledge to cut carbon emissions by 50% within the next decade",
      "Environment", "/climate-change-earth-planet.jpg", "2025-11-22", 12300, 2800),
    Article("4", "Space Agency Announces Mars Colony Timeline",
      "First crewed mission planned for 2030 with permanent settlement by 2035",
      "Science", "/mars-colony-space-mission.jpg", "2025-11-21", 24500, 5600)
  ]

  /** The page state: the text in the search box and the list on screen. */
  datatype HomeState = HomeState(searchQuery: string, filteredArticles: seq<Article>)

  const InitialHome: HomeState := HomeState("", HomeArticles)

  /** The list `handleSearch` computes from `source` for `query`. */
  function Search(source: seq<Article>, query: string): (r: seq<Article>)
    ensures IsBlank(query) ==> r == source
    ensures IsSubsequence(r, source)
    ensures !IsBlank(query) ==>
      forall a :: multiset(r)[a] == if MatchesQuery(a, query) then multiset(source)[a] else 0
  {
    TrimEmptyIffBlank(query);
    if Trim(query) != "" then Filter(source, QueryMatcher(query))
    else
      SubsequenceOfItself(source);
      source
  }

  /** `handleSearch`: replaces the list on screen; the query is left as typed. */
  function HandleSearch(st: HomeState): (r: HomeState)
    ensures r.searchQuery == st.searchQuery
    ensures IsBlank(st.searchQuery) ==> r.filteredArticles == HomeArticles
    ensures IsSubsequence(r.filteredArticles, HomeArticles)
    ensures forall a :: a in r.filteredArticles <==> a in HomeArticles && (IsBlank(st.searchQuery) || MatchesQuery(a, st.searchQuery))
  {
    var found := Search(HomeArticles, st.searchQuery);
    assert forall a :: a in found <==> a in multiset(found);
    st.(filteredArticles := found)
  }

  /** The list shown after a search depends on the query alone, never on what was shown before. */
  lemma SearchForgetsEarlierResults(s1: HomeState, s2: HomeState)
    requires s1.searchQuery == s2.searchQuery
    ensures HandleSearch(s1) == HandleSearch(s2)
  {
  }

  /** Searching twice in a row shows the same list as searching once. */
  lemma SearchTwiceIsSearchOnce(st: HomeState)
    ensures HandleSearch(HandleSearch(st)) == HandleSearch(st)
  {
  }

  /** Queries that differ only in letter case show the same list. */
  lemma SearchIgnoresCase(source: seq<Article>, q1: string, q2: string)
    requires SameIgnoringCase(q1, q2)
    ensures Search(source, q1) == Search(source, q2)
  {
    CaseKeepsBlankness(q1, q2);
    forall a
      ensures QueryMatcher(q1)(a) == QueryMatcher(q2)(a)
    {
      MatchIgnoresCase(a, q1, q2);
    }
    TrimEmptyIffBlank(q1);
    TrimEmptyIffBlank(q2);
    if !IsBlank(q1) {
      FilterAgreeingPredicates(source, QueryMatcher(q1), QueryMatcher(q2));
      assert Search(source, q1) == Filter(source, QueryMatcher(q1));
      assert Search(source, q2) == Filter(source, QueryMatcher(q2));
    }
  }

  /**
   * The trim only decides whether to filter: the filter itself uses the
   * untrimmed query, so " ab" does not find a title "ab" that "ab" finds.
   */
  lemma UntrimmedQueryIsMatched()
    ensures var a := Article("1", "ab", "", "Science", "/a.jpg", "2025-11-21", 0, 0);
      && Search([a], " ab") == []
      && Search([a], "ab") == [a]
  {
    var a := Article("1", "ab", "", "Science", "/a.jpg", "2025-11-21", 0, 0);
    assert !IsBlank(" ab") by {
      assert !IsWhiteSpace(" ab"[1]);
    }
    assert !IsBlank("ab") by {
      assert !IsWhiteSpace("ab"[0]);
    }
    assert Lower("ab") == "ab";
    assert !MatchesQuery(a, " ab");
    assert MatchesQuery(a, "ab");
    var miss := Search([a], " ab");
    assert multiset(miss)[a] == 0;
    var hit := Search([a], "ab");
    assert multiset(hit)[a] == 1;
    assert |hit| == |multiset(hit)|;
    assert forall b :: b != a ==> multiset(hit)[b] == 0;
    assert multiset(hit) == multiset{a};
    assert hit[0] in multiset(hit);
  }

  /** The page opens with an empty query showing every article, which a search leaves as it is. */
  lemma InitialHomeIsSettled()
    ensures InitialHome.filteredArticles == HomeArticles
    ensures HandleSearch(InitialHome) == InitialHome
  {
  }
}
