/**
 * The admin dashboard component, a second copy of the page's handlers and
 * statistics. Here each is written as an explicit pass over the rows, and
 * each is proved to give the page's result for every input.
 */
module AdminDashboardComponent {
  import opened Sequences
  import opened ArticleForm
  import opened AdminArticles
  import AdminDashboardPage

  type DashboardState = AdminDashboardPage.DashboardState

  /** `handleDelete(id)`, keeping the rows whose id differs, one row at a time. */
  method HandleDelete(st: DashboardState, id: string, confirmed: bool) returns (r: DashboardState)
    ensures r == AdminDashboardPage.HandleDelete(st, id, confirmed)
  {
    if !confirmed {
      return st;
    }
    var rows := st.articles;
    var kept: seq<AdminArticle> := [];
    var i := 0;
    while i < |rows|
      invariant 0 <= i <= |rows|
      invariant kept == Filter(rows[..i], IdIsNot(id))
    {
      FilterAppend(rows[..i], [rows[i]], IdIsNot(id));
      assert rows[..i + 1] == rows[..i] + [rows[i]];
      if rows[i].id != id {
        kept := kept + [rows[i]];
      }
      i := i + 1;
    }
    assert rows[..i] == rows;
    r := st.(articles := kept);
  }

  /** `handleCreateArticle(formData)`. */
  method HandleCreateArticle(st: DashboardState, form: ArticleFormData, newId: string, today: string) returns (r: DashboardState)
    ensures r == AdminDashboardPage.HandleCreateArticle(st, form, newId, today)
  {
    var created := AdminArticle(newId, form.title, Published, 0, 0, today, form.category);
    r := AdminDashboardPage.DashboardState([created] + st.articles, false);
  }

  /** The four statistics, gathered in one pass over the rows. */
  method Stats(rows: seq<AdminArticle>) returns (published: nat, drafts: nat, views: int, likes: int)
    ensures published == PublishedCount(rows) && drafts == DraftCount(rows)
    ensures views == TotalViews(rows) && likes == TotalLikes(rows)
    ensures published + drafts == |rows|
  {
    published, drafts, views, likes := 0, 0, 0, 0;
    var i := 0;
    while i < |rows|
      invariant 0 <= i <= |rows|
      invariant published == PublishedCount(rows[..i]) && drafts == DraftCount(rows[..i])
      invariant views == TotalViews(rows[..i]) && likes == TotalLikes(rows[..i])
    {
      var a := rows[i];
      assert rows[..i + 1] == rows[..i] + [a];
      StatsOfAppend(rows[..i], a);
      if a.status == Published {
        published := published + 1;
      } else {
        drafts := drafts + 1;
      }
      views := views + a.views;
      likes := likes + a.likes;
      i := i + 1;
    }
    assert rows[..i] == rows;
    StatusCountsAddUp(rows);
  }
}
