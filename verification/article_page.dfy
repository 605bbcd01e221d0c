/** The article page (src/Pages/Article.tsx): loading the list, the local
    update after a delete, and the state changes of its buttons, the form
    and the delete dialog. Network I/O is the `Outcome` parameter and
    `alert` is the `alerted` field of the state. */
module ArticlePage {
  import opened Wrappers
  import opened Seqs
  import opened Records
  import opened Http

  /** The page's state. */
  datatype PageState = PageState(
    articles: seq<Article>,
    error: string,
    showForm: bool,
    showView: bool,
    showDelete: bool,
    selected: Option<Article>,
    isEditing: bool,
    alerted: Option<string>)

  const FetchTimeout := "Request timeout." + " Please check your connection."
  const FetchServerError := "Server error." + " Please try again later."
  const EndpointNotFound := "Articles endpoint not found."
  const FetchFailed := "Failed to load articles." + " Please try again."
  const DeleteFailedMessage := "Failed to delete article"

  // ---------------------------------------------------------------------
  // Loading

  /** The catch block of `fetchArticles`: the code is looked at first,
      whatever the response. */
  function FetchErrorMessage(e: Failure): string {
    if e.code == TimeoutCode then FetchTimeout
    else if e.response.Some? && e.response.value.status >= 500 then FetchServerError
    else if e.response.Some? && e.response.value.status == 404 then EndpointNotFound
    else FetchFailed
  }

  /** Each message has exactly one cause, in the order the checks run. */
  lemma FetchErrorClassification(e: Failure)
    ensures FetchErrorMessage(e) == FetchTimeout <==> e.code == TimeoutCode
    ensures FetchErrorMessage(e) == FetchServerError <==>
      e.code != TimeoutCode && e.response.Some? && e.response.value.status >= 500
    ensures FetchErrorMessage(e) == EndpointNotFound <==>
      e.code != TimeoutCode && e.response.Some? && e.response.value.status == 404
    ensures FetchErrorMessage(e) == FetchFailed <==>
      e.code != TimeoutCode && !(e.response.Some? && (e.response.value.status >= 500 || e.response.value.status == 404))
  {
    assert FetchTimeout[0] == 'R';
    assert FetchServerError[0] == 'S';
    assert EndpointNotFound[0] == 'A';
    assert FetchFailed[0] == 'F';
  }

  /** `fetchArticles()`: the body, or `[]` when there is none; on failure
      the list stays and the message is set. */
  function FetchArticles(s: PageState, outcome: Outcome<Option<seq<Article>>>): (r: PageState)
    ensures outcome.Resolved? ==> r.articles == outcome.data.GetOr([]) && r.error == []
    ensures outcome.Rejected? ==> r.articles == s.articles && r.error == FetchErrorMessage(outcome.failure)
    ensures r.(articles := s.articles, error := s.error) == s
  {
    match outcome
    case Resolved(_, body) => s.(articles := body.GetOr([]), error := [])
    case Rejected(e) => s.(error := FetchErrorMessage(e))
  }

  // ---------------------------------------------------------------------
  // Deleting

  /** What `deleteArticle` returns. */
  datatype DeleteResult = DeleteResult(success: bool, message: Option<string>)

  /** `article.id !== id` */
  function KeepsId(id: Option<int>): Article -> bool {
    (a: Article) => a.id != id
  }

  /** `deleteArticle(id)`: the new list and the result. The list loses the
      articles with that id only once the server has agreed; on failure
      the server's message, or a default, is returned. */
  function DeleteArticle<D>(articles: seq<Article>, id: Option<int>, outcome: Outcome<D>): (r: (seq<Article>, DeleteResult))
    ensures r.1.success <==> outcome.Resolved?
    ensures r.1.success ==> r.0 == Filter(articles, KeepsId(id))
    ensures !r.1.success ==> r.0 == articles && r.1.message.Some? && r.1.message.value != []
  {
    match outcome
    case Resolved(_, _) => (Filter(articles, KeepsId(id)), DeleteResult(true, None))
    case Rejected(e) =>
      var text := if e.response.Some? then e.response.value.message else [];
      (articles, DeleteResult(false, Some(OrText(text, DeleteFailedMessage))))
  }

  /** A successful delete removes exactly the articles with the id and keeps
      the others in order. */
  lemma DeleteRemovesExactly<D>(articles: seq<Article>, id: Option<int>, outcome: Outcome<D>)
    requires outcome.Resolved?
    ensures var rest := DeleteArticle(articles, id, outcome).0;
      && Subseq(rest, articles)
      && (forall a | a in rest :: a.id != id)
      && (forall a | a in articles && a.id != id :: a in rest)
      && KeepsExactly(rest, articles, KeepsId(id))
  {
    FilterIsSubseq(articles, KeepsId(id));
    FilterKeepsExactly(articles, KeepsId(id));
  }

  // ---------------------------------------------------------------------
  // Buttons, form and dialog

  /** `handleAddArticle()` */
  function HandleAdd(s: PageState): (r: PageState)
    ensures r.showForm && !r.isEditing && r.selected.None? && r.articles == s.articles
  {
    s.(selected := None, isEditing := false, showForm := true)
  }

  /** `handleEditArticle(article)` */
  function HandleEdit(s: PageState, a: Article): (r: PageState)
    ensures r.showForm && r.isEditing && r.selected == Some(a) && r.articles == s.articles
  {
    s.(selected := Some(a), isEditing := true, showForm := true)
  }

  /** `handleViewArticle(article)`: editing is left as it was. */
  function HandleView(s: PageState, a: Article): (r: PageState)
    ensures r.showView && r.selected == Some(a) && r.isEditing == s.isEditing && r.showForm == s.showForm
  {
    s.(selected := Some(a), showView := true)
  }

  /** `handleDeleteClick(article)` */
  function HandleDeleteClick(s: PageState, a: Article): (r: PageState)
    ensures r.showDelete && r.selected == Some(a) && r.articles == s.articles
  {
    s.(selected := Some(a), showDelete := true)
  }

  /** `article.id === selectedArticle.id` */
  function HasId(id: Option<int>): Article -> bool {
    (a: Article) => a.id == id
  }

  /** `handleFormSuccess(articleData)`: an edit replaces every article with
      the selected id, a creation appends; the form then closes. */
  function HandleFormSuccess(s: PageState, data: Article): (r: PageState)
    ensures !r.showForm && r.selected.None? && !r.isEditing
    ensures s.isEditing && s.selected.Some? ==> |r.articles| == |s.articles|
    ensures !(s.isEditing && s.selected.Some?) ==> r.articles == s.articles + [data]
  {
    var articles :=
      if s.isEditing && s.selected.Some? then Replace(s.articles, HasId(s.selected.value.id), data)
      else s.articles + [data];
    s.(articles := articles, showForm := false, selected := None, isEditing := false)
  }

  /** `handleFormCancel()` */
  function HandleFormCancel(s: PageState): (r: PageState)
    ensures !r.showForm && r.selected.None? && !r.isEditing && r.articles == s.articles
  {
    s.(showForm := false, selected := None, isEditing := false)
  }

  /** Editing then saving replaces exactly the articles that share the
      edited one's id and leaves the others where they were. */
  lemma EditThenSaveReplaces(s: PageState, a: Article, data: Article)
    ensures var r := HandleFormSuccess(HandleEdit(s, a), data);
      && |r.articles| == |s.articles|
      && (forall i | 0 <= i < |s.articles| && s.articles[i].id == a.id :: r.articles[i] == data)
      && (forall i | 0 <= i < |s.articles| && s.articles[i].id != a.id :: r.articles[i] == s.articles[i])
  {
  }

  /** Saving an edit that keeps the id leaves the other articles, in order. */
  lemma EditKeepingIdKeepsOthers(s: PageState, a: Article, data: Article)
    requires data.id == a.id
    ensures Filter(HandleFormSuccess(HandleEdit(s, a), data).articles, Not(HasId(a.id))) ==
      Filter(s.articles, Not(HasId(a.id)))
  {
    ReplaceKeepsOthers(s.articles, HasId(a.id), data);
  }

  /** Adding then saving appends; cancelling either leaves the list. */
  lemma AddThenSaveAppends(s: PageState, data: Article)
    ensures HandleFormSuccess(HandleAdd(s), data).articles == s.articles + [data]
    ensures HandleFormCancel(HandleAdd(s)).articles == s.articles
  {
  }

  /** `handleDeleteConfirm()`: nothing without a selection; otherwise the
      dialog closes only after a successful delete, and a failure alerts
      its message. */
  function HandleDeleteConfirm<D>(s: PageState, outcome: Outcome<D>): (r: PageState)
    ensures s.selected.None? ==> r == s
    ensures s.selected.Some? && outcome.Resolved? ==>
      r.articles == Filter(s.articles, KeepsId(s.selected.value.id)) && !r.showDelete && r.selected.None?
    ensures s.selected.Some? && outcome.Rejected? ==>
      r.articles == s.articles && r.showDelete == s.showDelete && r.selected == s.selected && r.alerted.Some?
  {
    match s.selected
    case None => s
    case Some(a) =>
      var (articles, result) := DeleteArticle(s.articles, a.id, outcome);
      if result.success then s.(articles := articles, showDelete := false, selected := None)
      else s.(articles := articles, alerted := Some(OrText(result.message.GetOr([]), DeleteFailedMessage)))
  }

  /** `handleDeleteCancel()` */
  function HandleDeleteCancel(s: PageState): (r: PageState)
    ensures !r.showDelete && r.selected.None? && r.articles == s.articles
  {
    s.(showDelete := false, selected := None)
  }

  /** Clicking delete then confirming removes the clicked article's id. */
  lemma DeleteClickThenConfirm<D>(s: PageState, a: Article, outcome: Outcome<D>)
    requires outcome.Resolved?
    ensures var r := HandleDeleteConfirm(HandleDeleteClick(s, a), outcome);
      && (forall b | b in r.articles :: b.id != a.id)
      && Subseq(r.articles, s.articles)
      && !r.showDelete
      && KeepsExactly(r.articles, s.articles, KeepsId(a.id))
  {
    FilterIsSubseq(s.articles, KeepsId(a.id));
    FilterKeepsExactly(s.articles, KeepsId(a.id));
  }
}
