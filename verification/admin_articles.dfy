/**
 * The admin's article records and the statistics both admin dashboards
 * show above the article table.
 */
module AdminArticles {
  import opened Sequences

  datatype Status = Published | Draft

  datatype AdminArticle = AdminArticle(
    id: string,
    title: string,
    status: Status,
    views: nat,
    likes: nat,
    date: string,
    category: string)

  const InitialArticles: seq<AdminArticle> := [
    AdminArticle("1", "Zohran Momdani Recent Election Win", Published, 15420, 3200, "2025-11-24", "Politics"),
    AdminArticle("2", "AI Breakthroughs in Medical Imaging", Published, 8900, 2100, "2025-11-23", "Technology"),
    AdminArticle("3", "Climate Summit Reaches Historic Agreement", Draft, 0, 0, "2025-11-22", "Environment")
  ]

  function IdIs(id: string): AdminArticle -> bool
  {
    (a: AdminArticle) => a.id == id
  }

  function IdIsNot(id: string): AdminArticle -> bool
  {
    (a: AdminArticle) => a.id != id
  }

  function HasStatus(status: Status): AdminArticle -> bool
  {
    (a: AdminArticle) => a.status == status
  }

  function Views(a: AdminArticle): int
  {
    a.views
  }

  function Likes(a: AdminArticle): int
  {
    a.likes
  }

  /** The "Published" figure. */
  function PublishedCount(s: seq<AdminArticle>): nat
  {
    |Filter(s, HasStatus(Published))|
  }

  /** The "Drafts" figure. */
  function DraftCount(s: seq<AdminArticle>): nat
  {
    |Filter(s, HasStatus(Draft))|
  }

  /** The "Total Views" figure. */
  function TotalViews(s: seq<AdminArticle>): int
  {
    Sum(s, Views)
  }

  /** The "Total Likes" figure. */
  function TotalLikes(s: seq<AdminArticle>): int
  {
    Sum(s, Likes)
  }

  /**
   * Each count is at most the table's size, zero exactly when no row has
   * that status, and the full size exactly when every row has it.
   */
  lemma CountBounds(s: seq<AdminArticle>)
    ensures PublishedCount(s) <= |s| && DraftCount(s) <= |s|
    ensures PublishedCount(s) == 0 <==> forall a :: a in s ==> a.status != Published
    ensures PublishedCount(s) == |s| <==> forall a :: a in s ==> a.status == Published
    ensures DraftCount(s) == 0 <==> forall a :: a in s ==> a.status != Draft
    ensures DraftCount(s) == |s| <==> forall a :: a in s ==> a.status == Draft
  {
    FilterCountBounds(s, HasStatus(Published));
    FilterCountBounds(s, HasStatus(Draft));
  }

  /**
   * Each total is never negative, at least any one row's figure, and zero
   * exactly when every row's figure is zero.
   */
  lemma TotalBounds(s: seq<AdminArticle>)
    ensures TotalViews(s) >= 0 && TotalLikes(s) >= 0
    ensures forall a :: a in s ==> a.views <= TotalViews(s) && a.likes <= TotalLikes(s)
    ensures TotalViews(s) == 0 <==> forall a :: a in s ==> a.views == 0
    ensures TotalLikes(s) == 0 <==> forall a :: a in s ==> a.likes == 0
  {
    SumBounds(s, Views);
    SumBounds(s, Likes);
  }

  /** One more row adds one to its status's count and its views and likes to the totals. */
  lemma StatsOfAppend(s: seq<AdminArticle>, a: AdminArticle)
    ensures PublishedCount(s + [a]) == PublishedCount(s) + (if a.status == Published then 1 else 0)
    ensures DraftCount(s + [a]) == DraftCount(s) + (if a.status == Draft then 1 else 0)
    ensures TotalViews(s + [a]) == TotalViews(s) + a.views
    ensures TotalLikes(s + [a]) == TotalLikes(s) + a.likes
  {
    FilterAppend(s, [a], HasStatus(Published));
    FilterAppend(s, [a], HasStatus(Draft));
    SumAppend(s, [a], Views);
    SumAppend(s, [a], Likes);
  }

  /** Every article is published or a draft, so the two counts add up to the table's length. */
  lemma StatusCountsAddUp(s: seq<AdminArticle>)
    ensures PublishedCount(s) + DraftCount(s) == |s|
  {
    ComplementaryFiltersLength(s, HasStatus(Published), HasStatus(Draft));
  }
}
