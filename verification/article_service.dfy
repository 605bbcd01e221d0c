/** The article service (src/Components/Article/articleService.js): seven
    calls to the article API, each turning the outcome into a
    `{success, data, message}` record and never rethrowing, and the shared
    classifier of failures. The addresses, `encodeURIComponent` and the
    interceptors are not modelled: a call is its outcome. */
module ArticleService {
  import opened Wrappers
  import opened Records
  import opened Http
  import ArticleForm

  const RateLimitMessage := "Too many requests. Please try again later."

  const FetchAllFailed := "Failed to fetch articles"
  const FetchOneFailed := "Failed to fetch article"
  const CreateFailed := "Failed to create article"
  const UpdateFailed := "Failed to update article"
  const DeleteFailed := "Failed to delete article"
  const SearchFailed := "Failed to search articles"
  const LowStockFailed := "Failed to fetch low stock articles"

  const ServiceCreated := "Article created successfully"
  const ServiceUpdated := "Article updated successfully"
  const ServiceDeleted := "Article deleted successfully"

  /** What every service method returns. */
  datatype ServiceResult<D> = ServiceResult(success: bool, data: Option<D>, message: Option<string>)

  /** The message `handleApiError` chooses. The server's text falls back to
      the caller's default; only the four gateway statuses count as a
      server error. */
  function ApiErrorMessage(e: Failure, defaultMessage: string): string {
    match e.response
    case Some(r) =>
      var message := OrText(r.message, OrText(r.error, defaultMessage));
      if r.status == 400 then "Validation error: " + message
      else if r.status == 401 then AuthRequiredMessage
      else if r.status == 403 then AccessDeniedMessage
      else if r.status == 404 then NotFoundMessage
      else if r.status == 409 then DuplicateReferenceMessage
      else if r.status == 422 then "Invalid data: " + message
      else if r.status == 429 then RateLimitMessage
      else if r.status in {500, 502, 503, 504} then ServerErrorMessage
      else "Error: " + message
    case None =>
      if e.request then NetworkErrorMessage
      else if e.code == TimeoutCode then TimeoutMessage
      else OrText(defaultMessage, UnexpectedMessage)
  }

  /** `handleApiError(error, defaultMessage)`: always a failure, with no
      data. */
  function HandleApiError<D>(e: Failure, defaultMessage: string): (r: ServiceResult<D>)
    ensures !r.success && r.data.None?
    ensures r.message.Some? && r.message.value != []
  {
    ServiceResult(false, None, Some(ApiErrorMessage(e, defaultMessage)))
  }

  /** The statuses with a fixed answer, and the only ones that count as a
      server error: 501, for one, shows the server's text. */
  lemma ApiErrorStatuses(r: Reply, request: bool, code: string, message: string, defaultMessage: string)
    ensures var m := ApiErrorMessage(Failure(Some(r), request, code, message), defaultMessage);
      && (r.status == 404 ==> m == NotFoundMessage)
      && (r.status == 409 ==> m == DuplicateReferenceMessage)
      && (r.status == 429 ==> m == RateLimitMessage)
      && (m == ServerErrorMessage <==> r.status in {500, 502, 503, 504})
  {
    var m := ApiErrorMessage(Failure(Some(r), request, code, message), defaultMessage);
    if r.status !in {500, 502, 503, 504} {
      ServerTextDiffers(r, request, code, message, defaultMessage);
    }
  }

  lemma ServerTextDiffers(r: Reply, request: bool, code: string, message: string, defaultMessage: string)
    requires r.status !in {500, 502, 503, 504}
    ensures ApiErrorMessage(Failure(Some(r), request, code, message), defaultMessage) != ServerErrorMessage
  {
    var m := ApiErrorMessage(Failure(Some(r), request, code, message), defaultMessage);
    var text := OrText(r.message, OrText(r.error, defaultMessage));
    assert ServerErrorMessage[0] == 'S';
    if r.status == 400 {
      assert m == "Validation error: " + text && m[0] == 'V';
    } else if r.status == 422 {
      assert m == "Invalid data: " + text && m[0] == 'I';
    } else if r.status !in {401, 403, 404, 409, 429} {
      assert m == "Error: " + text && m[0] == 'E';
    }
  }

  /** The message the server sends wins over its error text, which wins over
      the caller's default. */
  lemma ApiErrorFallback(r: Reply, request: bool, code: string, message: string, defaultMessage: string)
    requires r.status == 400
    ensures var m := ApiErrorMessage(Failure(Some(r), request, code, message), defaultMessage);
      && (r.message != [] ==> m == "Validation error: " + r.message)
      && (r.message == [] && r.error != [] ==> m == "Validation error: " + r.error)
      && (r.message == [] && r.error == [] ==> m == "Validation error: " + defaultMessage)
  {
  }

  /** Without a response: a request that went out is a network error; the
      timeout message needs neither response nor request; anything else
      shows the caller's default. */
  lemma ApiErrorWithoutResponse(e: Failure, defaultMessage: string)
    requires e.response.None?
    ensures e.request ==> ApiErrorMessage(e, defaultMessage) == NetworkErrorMessage
    ensures !e.request && e.code == TimeoutCode ==> ApiErrorMessage(e, defaultMessage) == TimeoutMessage
    ensures !e.request && e.code != TimeoutCode && defaultMessage != [] ==> ApiErrorMessage(e, defaultMessage) == defaultMessage
  {
  }

  /** The service and the article form classify a failure alike for the
      fixed statuses, for 500 and for a lost connection, but not for 501:
      the form shows a server error where the service shows the server's
      text. */
  lemma ServiceAgreesWithForm(e: Failure, defaultMessage: string)
    ensures e.response.Some? && e.response.value.status in {401, 403, 404, 409, 500, 502, 503, 504} ==>
      ApiErrorMessage(e, defaultMessage) == ArticleForm.SaveErrorMessage(e)
    ensures e.response.None? && e.request ==> ApiErrorMessage(e, defaultMessage) == ArticleForm.SaveErrorMessage(e)
    ensures e.response.Some? && e.response.value.status == 501 ==>
      ApiErrorMessage(e, defaultMessage) != ArticleForm.SaveErrorMessage(e)
  {
    if e.response.Some? && e.response.value.status == 501 {
      var r := e.response.value;
      ServerTextDiffers(r, e.request, e.code, e.message, defaultMessage);
    }
  }

  // ---------------------------------------------------------------------
  // The service methods

  /** A list endpoint: the body, or `[]` when it is missing (`data || []`). */
  function ListCall(outcome: Outcome<Option<seq<Article>>>, defaultMessage: string): (r: ServiceResult<seq<Article>>)
    ensures r.success <==> outcome.Resolved?
    ensures r.success ==> r.data == Some(outcome.data.GetOr([])) && r.message.None?
    ensures outcome.Rejected? ==> r == HandleApiError(outcome.failure, defaultMessage)
  {
    match outcome
    case Resolved(_, body) => ServiceResult(true, Some(body.GetOr([])), None)
    case Rejected(e) => HandleApiError(e, defaultMessage)
  }

  /** An endpoint that returns the server's body as it is, with an optional
      success message. */
  function RecordCall<D>(outcome: Outcome<D>, done: Option<string>, defaultMessage: string): (r: ServiceResult<D>)
    ensures r.success <==> outcome.Resolved?
    ensures r.success ==> r.data == Some(outcome.data) && r.message == done
    ensures outcome.Rejected? ==> r == HandleApiError(outcome.failure, defaultMessage)
  {
    match outcome
    case Resolved(_, body) => ServiceResult(true, Some(body), done)
    case Rejected(e) => HandleApiError(e, defaultMessage)
  }

  /** `getAllArticles()` */
  function GetAllArticles(outcome: Outcome<Option<seq<Article>>>): (r: ServiceResult<seq<Article>>)
    ensures r.success <==> outcome.Resolved?
    ensures r.success ==> r.data.Some?
    ensures outcome.Rejected? ==> r.data.None? && r.message == Some(ApiErrorMessage(outcome.failure, FetchAllFailed))
  {
    ListCall(outcome, FetchAllFailed)
  }

  /** `getArticleById(id)` */
  function GetArticleById<D>(outcome: Outcome<D>): (r: ServiceResult<D>)
    ensures r.success <==> outcome.Resolved?
    ensures outcome.Rejected? ==> r.message == Some(ApiErrorMessage(outcome.failure, FetchOneFailed))
  {
    RecordCall(outcome, None, FetchOneFailed)
  }

  /** `createArticle(articleData)` */
  function CreateArticle<D>(outcome: Outcome<D>): (r: ServiceResult<D>)
    ensures r.success <==> outcome.Resolved?
    ensures r.success ==> r.data.Some? && r.message == Some(ServiceCreated)
    ensures outcome.Rejected? ==> r.message == Some(ApiErrorMessage(outcome.failure, CreateFailed))
  {
    RecordCall(outcome, Some(ServiceCreated), CreateFailed)
  }

  /** `updateArticle(id, articleData)` */
  function UpdateArticle<D>(outcome: Outcome<D>): (r: ServiceResult<D>)
    ensures r.success <==> outcome.Resolved?
    ensures r.success ==> r.data.Some? && r.message == Some(ServiceUpdated)
    ensures outcome.Rejected? ==> r.message == Some(ApiErrorMessage(outcome.failure, UpdateFailed))
  {
    RecordCall(outcome, Some(ServiceUpdated), UpdateFailed)
  }

  /** `deleteArticle(id)`: a success carries a message and no data. */
  function DeleteArticle<D>(outcome: Outcome<D>): (r: ServiceResult<D>)
    ensures r.data.None?
    ensures r.success <==> outcome.Resolved?
    ensures r.success ==> r.message == Some(ServiceDeleted)
    ensures outcome.Rejected? ==> r.message == Some(ApiErrorMessage(outcome.failure, DeleteFailed))
  {
    match outcome
    case Resolved(_, _) => ServiceResult(true, None, Some(ServiceDeleted))
    case Rejected(e) => HandleApiError(e, DeleteFailed)
  }

  /** `searchArticles(query)` */
  function SearchArticles(outcome: Outcome<Option<seq<Article>>>): (r: ServiceResult<seq<Article>>)
    ensures r.success <==> outcome.Resolved?
    ensures r.success ==> r.data.Some?
    ensures outcome.Rejected? ==> r.data.None? && r.message == Some(ApiErrorMessage(outcome.failure, SearchFailed))
  {
    ListCall(outcome, SearchFailed)
  }

  /** `getLowStockArticles()` */
  function GetLowStockArticles(outcome: Outcome<Option<seq<Article>>>): (r: ServiceResult<seq<Article>>)
    ensures r.success <==> outcome.Resolved?
    ensures r.success ==> r.data.Some?
    ensures outcome.Rejected? ==> r.data.None? && r.message == Some(ApiErrorMessage(outcome.failure, LowStockFailed))
  {
    ListCall(outcome, LowStockFailed)
  }

  /** A missing list body reads as the empty list, an empty one is kept. */
  lemma MissingListIsEmpty(status: int)
    ensures GetAllArticles(Resolved(status, None)) == ServiceResult(true, Some([]), None)
    ensures SearchArticles(Resolved(status, Some([]))) == ServiceResult(true, Some([]), None)
  {
  }

  /** Without a response or request and with another code, a call shows its
      own default message, never the generic one. */
  lemma DefaultMessageReachesCaller(e: Failure)
    requires e.response.None? && !e.request && e.code != TimeoutCode
    ensures GetAllArticles(Rejected(e)).message == Some(FetchAllFailed)
    ensures DeleteArticle<int>(Rejected(e)).message == Some(DeleteFailed)
  {
  }
}
