/**
 * The create-article dialog's form: five text fields, a submit that
 * requires title, excerpt and content, and a reset to the defaults after a
 * successful submit.
 */
module ArticleForm {
  import opened Wrappers

  datatype ArticleFormData = ArticleFormData(title: string, excerpt: string, category: string, content: string, image: string)

  const DefaultCategory: string := "Technology"
  const DefaultImage: string := "/placeholder.svg"

  /** The form as first shown and as reset after a submit. */
  const InitialForm: ArticleFormData := ArticleFormData("", "", DefaultCategory, "", DefaultImage)

  datatype Field = Title | Excerpt | Category | Content | Image

  function Get(form: ArticleFormData, field: Field): string
  {
    match field
    case Title => form.title
    case Excerpt => form.excerpt
    case Category => form.category
    case Content => form.content
    case Image => form.image
  }

  /** An input's `onChange`: `setFormData({ ...formData, [field]: value })`. */
  function Edit(form: ArticleFormData, field: Field, value: string): (r: ArticleFormData)
    ensures Get(r, field) == value
    ensures forall f :: f != field ==> Get(r, f) == Get(form, f)
  {
    match field
    case Title => form.(title := value)
    case Excerpt => form.(excerpt := value)
    case Category => form.(category := value)
    case Content => form.(content := value)
    case Image => form.(image := value)
  }

  /** The fields that must be non-empty for a submit to go through; category and image are not checked. */
  predicate Complete(form: ArticleFormData)
  {
    form.title != "" && form.excerpt != "" && form.content != ""
  }

  /** One submit: the form afterwards, and the data passed to `onSubmit`, if it was called. */
  datatype SubmitResult = SubmitResult(form: ArticleFormData, sent: Option<ArticleFormData>)

  /** `handleSubmit` */
  function HandleSubmit(form: ArticleFormData): (r: SubmitResult)
    ensures r.sent.Some? <==> Get(form, Title) != "" && Get(form, Excerpt) != "" && Get(form, Content) != ""
    ensures r.sent.Some? ==> r.sent.value == form && r.form == InitialForm
    ensures r.sent.None? ==> r.form == form
  {
    if Complete(form) then SubmitResult(InitialForm, Some(form)) else SubmitResult(form, None)
  }

  /**
   * A second submit straight after the first never calls `onSubmit` and
   * leaves the form alone: after a success the form is reset and
   * incomplete, after a rejection it is still incomplete.
   */
  lemma NoDoubleSubmit(form: ArticleFormData)
    ensures var after := HandleSubmit(form).form;
      HandleSubmit(after) == SubmitResult(after, None)
  {
  }

  /** Filling in title, excerpt and content on the initial form is enough for a submit to go through. */
  lemma FilledFormSubmits(title: string, excerpt: string, content: string)
    requires title != "" && excerpt != "" && content != ""
    ensures var form := Edit(Edit(Edit(InitialForm, Title, title), Excerpt, excerpt), Content, content);
      HandleSubmit(form).sent == Some(ArticleFormData(title, excerpt, DefaultCategory, content, DefaultImage))
  {
  }
}
