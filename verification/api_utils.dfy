/** The shared API helpers (src/utils/api.js): the request interceptor that
    adds the bearer token, and `apiUtils.handleError` / `formatError`. The
    token is an input (it comes from `localStorage`); the response
    interceptor's logout and redirect are not modelled. */
module ApiUtils {
  import opened Wrappers
  import opened Http
  import ArticleService

  // ---------------------------------------------------------------------
  // Request headers

  const AuthorizationHeader := "Authorization"
  const BearerPrefix := "Bearer "

  /** The headers every request starts with. */
  const DefaultHeaders: map<string, string> := map["Content-Type" := "application/json"]

  /** The request interceptor: `Authorization: Bearer <token>` is set when
      the stored token is truthy (present and not empty); otherwise the
      headers pass through. */
  function WithAuth(headers: map<string, string>, token: Option<string>): (r: map<string, string>)
    ensures token.Some? && token.value != [] ==>
      AuthorizationHeader in r && r[AuthorizationHeader] == BearerPrefix + token.value
    ensures token.Some? && token.value != [] ==> r.Keys == headers.Keys + {AuthorizationHeader}
    ensures forall h | h in headers && h != AuthorizationHeader :: h in r && r[h] == headers[h]
    ensures !(token.Some? && token.value != []) ==> r == headers
  {
    match token
    case Some(t) => if t != [] then headers[AuthorizationHeader := BearerPrefix + t] else headers
    case None => headers
  }

  /** The token a server reads back from an `Authorization` header. */
  function BearerToken(headers: map<string, string>): Option<string> {
    if AuthorizationHeader in headers && |BearerPrefix| <= |headers[AuthorizationHeader]|
       && headers[AuthorizationHeader][..|BearerPrefix|] == BearerPrefix
    then Some(headers[AuthorizationHeader][|BearerPrefix|..])
    else None
  }

  /** The header carries exactly the stored token. */
  lemma BearerRoundTrip(headers: map<string, string>, token: string)
    requires token != []
    ensures BearerToken(WithAuth(headers, Some(token))) == Some(token)
  {
    var v := BearerPrefix + token;
    assert v[..|BearerPrefix|] == BearerPrefix && v[|BearerPrefix|..] == token;
  }

  /** Running the interceptor twice with the same token is running it once. */
  lemma WithAuthIdempotent(headers: map<string, string>, token: Option<string>)
    ensures WithAuth(WithAuth(headers, token), token) == WithAuth(headers, token)
  {
  }

  /** Every request carries the JSON content type of the client's defaults,
      and an `Authorization` header exactly when the stored token is
      truthy. */
  lemma RequestHeaders(token: Option<string>)
    ensures var h := WithAuth(DefaultHeaders, token);
      && "Content-Type" in h && h["Content-Type"] == "application/json"
      && (AuthorizationHeader in h <==> token.Some? && token.value != [])
  {
    assert "Content-Type"[0] != AuthorizationHeader[0];
  }

  // ---------------------------------------------------------------------
  // Errors

  const NoResponseMessage := "No response from server"
  const InvalidRequestMessage := "Invalid request. Please check your data."
  const LoginRequiredMessage := "Authentication required. Please log in."
  const PermissionDeniedMessage := "Permission denied."
  const ResourceNotFoundMessage := "Resource not found."
  const UnableToConnectMessage := "Unable to connect to server." + " Please check your internet connection."
  const FallbackMessage := "An unexpected error occurred."

  /** What `handleError` returns. */
  datatype ErrorInfo = ErrorInfo(message: string, status: int)

  /** `apiUtils.handleError(error)`: the server's message (or the error's
      own) with the response status; status 0 for a request that got no
      answer; -1 for anything else. */
  function HandleError(e: Failure): (r: ErrorInfo)
    ensures e.response.Some? ==> r.status == e.response.value.status
    ensures e.response.Some? && e.response.value.message != [] ==> r.message == e.response.value.message
    ensures e.response.Some? && e.response.value.message == [] ==> r.message == e.message
    ensures e.response.None? && e.request ==> r == ErrorInfo(NoResponseMessage, 0)
    ensures e.response.None? && !e.request ==> r == ErrorInfo(e.message, -1)
  {
    match e.response
    case Some(reply) => ErrorInfo(OrText(reply.message, e.message), reply.status)
    case None => if e.request then ErrorInfo(NoResponseMessage, 0) else ErrorInfo(e.message, -1)
  }

  /** The statuses `formatError` answers with a fixed text. */
  const FixedStatuses: set<int> := {400, 401, 403, 404, 500, 0}

  /** `apiUtils.formatError(error)` */
  function FormatError(e: Failure): (r: string)
    ensures r != []
  {
    var info := HandleError(e);
    match info.status
    case 400 => InvalidRequestMessage
    case 401 => LoginRequiredMessage
    case 403 => PermissionDeniedMessage
    case 404 => ResourceNotFoundMessage
    case 500 => ServerErrorMessage
    case 0 => UnableToConnectMessage
    case _ => OrText(info.message, FallbackMessage)
  }

  /** Every other status, 409, 502 and -1 among them, shows the message
      itself, or the fallback when it is empty. */
  lemma FormatErrorPassesMessage(e: Failure)
    requires HandleError(e).status !in FixedStatuses
    ensures FormatError(e) == OrText(HandleError(e).message, FallbackMessage)
  {
  }

  /** A request that got no answer reads as a lost connection; an error
      that never became a request shows its own message. */
  lemma FormatErrorWithoutResponse(e: Failure)
    requires e.response.None?
    ensures e.request ==> FormatError(e) == UnableToConnectMessage
    ensures !e.request && e.message != [] ==> FormatError(e) == e.message
    ensures !e.request && e.message == [] ==> FormatError(e) == FallbackMessage
  {
  }

  /** On a 409 the server's text is shown as it is. */
  lemma FormatErrorConflict(e: Failure)
    requires e.response.Some? && e.response.value.status == 409 && e.response.value.message != []
    ensures FormatError(e) == e.response.value.message
  {
    FormatErrorPassesMessage(e);
  }

  /** This formatter and the article service agree on 500 but not on 502:
      the service calls every gateway status a server error, the formatter
      only 500. */
  lemma FormatterAndServiceOnServerErrors(e: Failure, defaultMessage: string)
    requires e.response.Some?
    ensures e.response.value.status == 500 ==> FormatError(e) == ArticleService.ApiErrorMessage(e, defaultMessage)
    ensures e.response.value.status == 502 && e.response.value.message != [] ==>
      FormatError(e) == e.response.value.message &&
      ArticleService.ApiErrorMessage(e, defaultMessage) == ServerErrorMessage
  {
  }
}
