/**
 * The admin dashboard page: the article table's state, deleting a row
 * (after the confirmation dialog) and creating an article from the form.
 */
module AdminDashboardPage {
  import opened Sequences
  import opened ArticleForm
  import opened AdminArticles

  /** The page state the handlers touch: the rows and whether the create dialog is open. */
  datatype DashboardState = DashboardState(articles: seq<AdminArticle>, showCreateModal: bool)

  const InitialDashboard: DashboardState := DashboardState(InitialArticles, false)

  /** `handleDelete(id)`; `confirmed` is the answer to the confirmation dialog. */
  function HandleDelete(st: DashboardState, id: string, confirmed: bool): (r: DashboardState)
    ensures !confirmed ==> r == st
    ensures r.showCreateModal == st.showCreateModal
    ensures IsSubsequence(r.articles, st.articles)
    ensures confirmed ==> forall a :: a in r.articles <==> a in st.articles && a.id != id
    ensures confirmed ==> forall a :: multiset(r.articles)[a] == if a.id != id then multiset(st.articles)[a] else 0
  {
    if confirmed then st.(articles := Filter(st.articles, IdIsNot(id)))
    else
      SubsequenceOfItself(st.articles);
      st
  }

  /** The row `handleCreateArticle` builds; `newId` and `today` stand for `Date.now()` and today's ISO date. */
  function NewArticle(form: ArticleFormData, newId: string, today: string): (a: AdminArticle)
    ensures HasStatus(Published)(a) && Views(a) == 0 && Likes(a) == 0
    ensures a.id == newId && a.title == form.title && a.category == form.category && a.date == today
  {
    AdminArticle(newId, form.title, Published, 0, 0, today, form.category)
  }

  /** `handleCreateArticle(formData)`: the new row goes first and the dialog closes. */
  function HandleCreateArticle(st: DashboardState, form: ArticleFormData, newId: string, today: string): (r: DashboardState)
    ensures |r.articles| == |st.articles| + 1
    ensures r.articles[1..] == st.articles
    ensures var a := r.articles[0];
      && a.id == newId && a.title == form.title && a.category == form.category && a.date == today
      && a.status == Published && a.views == 0 && a.likes == 0
    ensures !r.showCreateModal
  {
    DashboardState([NewArticle(form, newId, today)] + st.articles, false)
  }

  /** Deleting an id no row has changes nothing. */
  lemma DeleteAbsentIdIsNoOp(st: DashboardState, id: string)
    requires forall a :: a in st.articles ==> a.id != id
    ensures HandleDelete(st, id, true) == st
  {
    FilterKeepsAll(st.articles, IdIsNot(id));
  }

  /** Deleting a fresh article's id right after creating it restores the table. */
  lemma DeleteUndoesCreate(st: DashboardState, form: ArticleFormData, newId: string, today: string)
    requires forall a :: a in st.articles ==> a.id != newId
    ensures HandleDelete(HandleCreateArticle(st, form, newId, today), newId, true).articles == st.articles
  {
    var created := HandleCreateArticle(st, form, newId, today).articles;
    assert created == [NewArticle(form, newId, today)] + st.articles;
    FilterAppend([NewArticle(form, newId, today)], st.articles, IdIsNot(newId));
    FilterKeepsAll(st.articles, IdIsNot(newId));
  }

  /** Creating adds one published row with no views or likes: one more published, drafts and totals unchanged. */
  lemma CreateUpdatesStats(st: DashboardState, form: ArticleFormData, newId: string, today: string)
    ensures var after := HandleCreateArticle(st, form, newId, today).articles;
      && PublishedCount(after) == PublishedCount(st.articles) + 1
      && DraftCount(after) == DraftCount(st.articles)
      && TotalViews(after) == TotalViews(st.articles)
      && TotalLikes(after) == TotalLikes(st.articles)
  {
    var after := HandleCreateArticle(st, form, newId, today).articles;
    assert after[0] == NewArticle(form, newId, today) && after[1..] == st.articles;
  }

  /** Deleting lowers the totals by exactly the views and likes of the removed rows. */
  lemma DeleteUpdatesStats(st: DashboardState, id: string)
    ensures var after := HandleDelete(st, id, true).articles;
      var removed := Filter(st.articles, IdIs(id));
      && TotalViews(after) == TotalViews(st.articles) - TotalViews(removed)
      && TotalLikes(after) == TotalLikes(st.articles) - TotalLikes(removed)
      && |after| == |st.articles| - |removed|
  {
    ComplementaryFiltersSum(st.articles, IdIsNot(id), IdIs(id), Views);
    ComplementaryFiltersSum(st.articles, IdIsNot(id), IdIs(id), Likes);
    ComplementaryFiltersLength(st.articles, IdIsNot(id), IdIs(id));
  }

  /** A complete form, submitted, becomes the first row with its title and category. */
  lemma SubmittedFormBecomesFirstRow(st: DashboardState, form: ArticleFormData, newId: string, today: string)
    requires Complete(form)
    ensures var sent := ArticleForm.HandleSubmit(form).sent;
      && sent.Some?
      && HandleCreateArticle(st, sent.value, newId, today).articles[0].title == form.title
      && HandleCreateArticle(st, sent.value, newId, today).articles[0].category == form.category
  {
  }

  /** The page opens on two published articles and one draft, 24320 views and 5300 likes, with the dialog closed. */
  lemma InitialStats()
    ensures PublishedCount(InitialDashboard.articles) == 2 && DraftCount(InitialDashboard.articles) == 1
    ensures TotalViews(InitialDashboard.articles) == 24320 && TotalLikes(InitialDashboard.articles) == 5300
    ensures !InitialDashboard.showCreateModal
  {
    var s := InitialDashboard.articles;
    assert Filter(s, HasStatus(Published)) == s[..2];
    assert Filter(s, HasStatus(Draft)) == s[2..];
  }
}
