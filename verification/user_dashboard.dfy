/**
 * The user dashboard's article feed: a category filter, a text filter and
 * one of four orderings, recomputed from the fixed demo list whenever the
 * category, the query or the sort option changes.
 */
module UserDashboard {
  import opened Sequences
  import opened Text
  import opened Dates
  import opened Articles
  import opened ArticleSort

  const DemoArticles: seq<Article> := [
    Article("1", "Zohran Momdani Recent Election Win",
      "Socialist candidate secures historic victory in municipal elections with groundswell of grassroots support",
      "Politics", "/election-victory.png", "2025-11-24", 15420, 3200),
    Article("2", "AI Breakthroughs in Medical Imaging",
      "New deep learning model achieves 99.2% accuracy in detecting rare diseases early",
      "Technology", "/medical-imaging.png", "2025-11-23", 8900, 2100),
    Article("3", "Climate Summit Reaches Historic Agreement",
      "Nations pledge to cut carbon emissions by 50% within the next decade",
      "Environment", "/climate-change-impacts.png", "2025-11-22", 12300, 2800),
    Article("4", "Space Agency Announces Mars Colony Timeline",
      "First crewed mission planned for 2030 with permanent settlement by 2035",
      "Science", "/mars-colony.png", "2025-11-21", 24500, 5600),
    Article("5", "Quantum Computing Reaches New Milestone",
      "Researchers achieve quantum advantage in practical real-world applications",
      "Technology", "/quantum-computing-concept.png", "2025-11-20", 10200, 2400),
    Article("6", "Revolutionary Cancer Treatment Shows Promise",
      "New immunotherapy approach demonstrates 85% success rate in clinical trials",
      "Health", "/medical-research-lab.png", "2025-11-19", 18700, 4100)
  ]

  /** The category buttons; "All" is the one that filters nothing. */
  const Categories: seq<string> := ["All", "Politics", "Technology", "Science", "Environment", "Health"]

  const SortOptions: seq<string> := ["Latest", "Trending", "Most Liked", "Most Viewed"]

  const AllCategories: string := "All"

  function InCategory(category: string): Article -> bool
  {
    (a: Article) => a.category == category
  }

  /** The ordering each sort option selects; any unknown option sorts by date. */
  function OrderFor(sortBy: string): (r: SortOrder)
    ensures r == ByViews <==> sortBy == SortOptions[1] || sortBy == SortOptions[3]
    ensures r == ByLikes <==> sortBy == SortOptions[2]
    ensures r == ByDate <==> sortBy !in SortOptions[1..]
  {
    if sortBy == "Trending" then ByViews
    else if sortBy == "Most Liked" then ByLikes
    else if sortBy == "Most Viewed" then ByViews
    else ByDate
  }

  /** The article survives both filters. The query is matched as typed: no trimming. */
  predicate Selected(a: Article, category: string, query: string)
  {
    && (category == AllCategories || a.category == category)
    && (query == "" || MatchesQuery(a, query))
  }

  /** The two filters, applied one after the other, before any sorting. */
  function Selection(articles: seq<Article>, category: string, query: string): (r: seq<Article>)
    ensures IsSubsequence(r, articles)
    ensures forall a :: multiset(r)[a] == if Selected(a, category, query) then multiset(articles)[a] else 0
  {
    var byCategory := if category != AllCategories then Filter(articles, InCategory(category)) else articles;
    var byText := if query != "" then Filter(byCategory, QueryMatcher(query)) else byCategory;
    if category != AllCategories && query != "" then
      SubsequenceTransitive(byText, byCategory, articles);
      byText
    else if category == AllCategories && query == "" then
      SubsequenceOfItself(articles);
      byText
    else byText
  }

  /**
   * The `filteredArticles` memo: the selected articles, sorted stably into
   * descending order of the chosen key. Nothing is invented or duplicated.
   */
  function FilteredArticles(articles: seq<Article>, category: string, query: string, sortBy: string): (r: seq<Article>)
    ensures forall a :: multiset(r)[a] == if Selected(a, category, query) then multiset(articles)[a] else 0
    ensures forall a :: a in r ==> a in articles
    ensures category != AllCategories ==> forall a :: a in r ==> a.category == category
    ensures query != "" ==> forall a :: a in r ==> MatchesQuery(a, query)
    ensures forall a :: a in articles && Selected(a, category, query) ==> a in r
    ensures SortedDesc(KeyOf(OrderFor(sortBy)), r)
    ensures StableFor(KeyOf(OrderFor(sortBy)), r, Selection(articles, category, query))
  {
    var s := Selection(articles, category, query);
    var r := Sort(KeyOf(OrderFor(sortBy)), s);
    SelectionMembers(articles, category, query, r);
    r
  }

  /** A rearrangement of the selection holds exactly the selected articles, each as often as the input does. */
  lemma SelectionMembers(articles: seq<Article>, category: string, query: string, r: seq<Article>)
    requires multiset(r) == multiset(Selection(articles, category, query))
    ensures forall a :: multiset(r)[a] == if Selected(a, category, query) then multiset(articles)[a] else 0
    ensures forall a :: a in r <==> a in articles && Selected(a, category, query)
  {
    forall a
      ensures a in r <==> a in articles && Selected(a, category, query)
    {
      assert a in r <==> multiset(r)[a] > 0;
      assert a in articles <==> multiset(articles)[a] > 0;
    }
  }

  /** Selecting from a list whose every article is already selected returns the list itself. */
  lemma SelectionKeepsAll(r: seq<Article>, category: string, query: string)
    requires forall a :: a in r ==> Selected(a, category, query)
    ensures Selection(r, category, query) == r
  {
    var s := Selection(r, category, query);
    forall a
      ensures multiset(s)[a] == multiset(r)[a]
    {
      if multiset(r)[a] > 0 {
        assert a in r;
      }
    }
    assert multiset(s) == multiset(r);
    assert |s| == |multiset(s)| == |multiset(r)| == |r|;
    SubsequenceOfSameLength(s, r);
  }

  /** "All" applies no category filter and the empty query no text filter: the feed is the whole list, reordered. */
  lemma NoFiltersKeepEverything(articles: seq<Article>, sortBy: string)
    ensures multiset(FilteredArticles(articles, AllCategories, "", sortBy)) == multiset(articles)
  {
    var r := FilteredArticles(articles, AllCategories, "", sortBy);
    forall a
      ensures multiset(r)[a] == multiset(articles)[a]
    {
      assert Selected(a, AllCategories, "");
    }
  }

  /** "Trending" and "Most Viewed" give the same feed. */
  lemma TrendingIsMostViewed(articles: seq<Article>, category: string, query: string)
    ensures FilteredArticles(articles, category, query, "Trending") == FilteredArticles(articles, category, query, "Most Viewed")
    ensures SortedDesc(KeyOf(ByViews), FilteredArticles(articles, category, query, "Trending"))
  {
  }

  /** "Most Liked" orders by non-increasing likes. */
  lemma MostLikedOrdersByLikes(articles: seq<Article>, category: string, query: string)
    ensures var r := FilteredArticles(articles, category, query, "Most Liked");
      forall i, j :: 0 <= i < j < |r| ==> r[i].likes >= r[j].likes
  {
    var r := FilteredArticles(articles, category, query, "Most Liked");
    assert SortedDesc(KeyOf(ByLikes), r);
    forall i, j | 0 <= i < j < |r|
      ensures r[i].likes >= r[j].likes
    {
      assert KeyOf(ByLikes)(r[i]) >= KeyOf(ByLikes)(r[j]);
    }
  }

  /**
   * "Latest" and every unknown option order by date, newest first; for
   * well-formed dates no later entry has a lexicographically greater date.
   */
  lemma LatestIsNewestFirst(articles: seq<Article>, category: string, query: string, sortBy: string)
    requires sortBy !in SortOptions[1..]
    requires forall a :: a in articles ==> WellFormedDate(a.date)
    ensures var r := FilteredArticles(articles, category, query, sortBy);
      forall i, j :: 0 <= i < j < |r| ==> !LexLess(r[i].date, r[j].date)
  {
    var r := FilteredArticles(articles, category, query, sortBy);
    assert OrderFor(sortBy) == ByDate;
    forall i, j | 0 <= i < j < |r|
      ensures !LexLess(r[i].date, r[j].date)
    {
      assert r[i] in r && r[j] in r;
      assert KeyOf(ByDate)(r[i]) >= KeyOf(ByDate)(r[j]);
      DateOrderIsLexicographic(r[i].date, r[j].date);
    }
  }

  /** The feed is what any stable sort of the selection would produce. */
  lemma FeedIsTheStableSort(articles: seq<Article>, category: string, query: string, sortBy: string, r: seq<Article>)
    requires SortedDesc(KeyOf(OrderFor(sortBy)), r)
    requires StableFor(KeyOf(OrderFor(sortBy)), r, Selection(articles, category, query))
    ensures r == FilteredArticles(articles, category, query, sortBy)
  {
    AnyStableSortAgrees(KeyOf(OrderFor(sortBy)), Selection(articles, category, query), r);
  }

  /** Applying the same category, query and sort option to the feed again changes nothing. */
  lemma RequeryIsIdempotent(articles: seq<Article>, category: string, query: string, sortBy: string)
    ensures var r := FilteredArticles(articles, category, query, sortBy);
      FilteredArticles(r, category, query, sortBy) == r
  {
    var r := FilteredArticles(articles, category, query, sortBy);
    SelectionKeepsAll(r, category, query);
    SortOfSorted(KeyOf(OrderFor(sortBy)), r);
  }

  /** A query of spaces is not blank to the dashboard: it searches for the spaces themselves. */
  lemma SpacesQueryIsAFilter()
    ensures var a := Article("1", "x", "", "Politics", "/x.png", "2025-11-24", 1, 1);
      && FilteredArticles([a], AllCategories, "   ", "Latest") == []
      && FilteredArticles([a], AllCategories, "", "Latest") == [a]
  {
    var a := Article("1", "x", "", "Politics", "/x.png", "2025-11-24", 1, 1);
    assert !MatchesQuery(a, "   ");
    var r := FilteredArticles([a], AllCategories, "   ", "Latest");
    assert multiset(r)[a] == 0;
    var all := FilteredArticles([a], AllCategories, "", "Latest");
    assert Selected(a, AllCategories, "");
    assert multiset(all)[a] == 1;
    assert |all| == |multiset(all)|;
    assert forall b :: b != a ==> multiset(all)[b] == 0;
    assert multiset(all) == multiset{a};
    assert all[0] in multiset(all);
  }

  /** Of two dates that differ only in the last digit of the day, the later has the larger key. */
  lemma NextDayHasLargerKey(d1: string, d2: string)
    requires WellFormedDate(d1) && WellFormedDate(d2)
    requires d1[..9] == d2[..9] && d1[9] < d2[9]
    ensures DateKey(d1) < DateKey(d2)
  {
    LexLessAt(d1, d2, 9);
    DateOrderIsLexicographic(d1, d2);
  }

  /**
   * Three articles with distinct dates come out newest first under
   * "Latest", whichever of the six orders they arrive in.
   */
  lemma LatestOrdersThree(newest: Article, middle: Article, oldest: Article, s: seq<Article>)
    requires DateKey(oldest.date) < DateKey(middle.date) < DateKey(newest.date)
    requires s in {[newest, middle, oldest], [newest, oldest, middle], [middle, newest, oldest],
                   [middle, oldest, newest], [oldest, newest, middle], [oldest, middle, newest]}
    ensures FilteredArticles(s, AllCategories, "", "Latest") == [newest, middle, oldest]
  {
    var r := [newest, middle, oldest];
    assert Selection(s, AllCategories, "") == s;
    assert SortedDesc(KeyOf(ByDate), r);
    forall k
      ensures WithKey(KeyOf(ByDate), r, k) == WithKey(KeyOf(ByDate), s, k)
    {
      ThreeDistinctKeysTies(KeyOf(ByDate), newest, middle, oldest, s, k);
    }
    FeedIsTheStableSort(s, AllCategories, "", "Latest", r);
  }

  /** "Latest" on the dates 2025-11-24, 2025-11-22, 2025-11-23 lists them as 24, 23, 22. */
  lemma LatestExample(a: Article, b: Article, c: Article)
    requires a.date == "2025-11-24" && b.date == "2025-11-22" && c.date == "2025-11-23"
    ensures FilteredArticles([a, b, c], AllCategories, "", "Latest") == [a, c, b]
  {
    assert b.date[..9] == c.date[..9] == a.date[..9];
    assert WellFormedDate(a.date) && WellFormedDate(b.date) && WellFormedDate(c.date);
    NextDayHasLargerKey(b.date, c.date);
    NextDayHasLargerKey(c.date, a.date);
    LatestOrdersThree(a, c, b, [a, b, c]);
  }

  /** "All" is the first button, and every demo article has a button of its own category. */
  lemma DemoArticlesHaveButtons()
    ensures Categories[0] == AllCategories
    ensures forall a :: a in DemoArticles ==> a.category in Categories[1..]
  {
  }
}
