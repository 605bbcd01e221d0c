/** The shape of a failed HTTP call as the error handlers inspect it, and the
    messages they share. Network I/O itself is not modelled: a call's outcome
    is an input. */
module Http {
  import opened Wrappers

  /** What arrived from the server: `error.response.status`, and
      `error.response.data?.message` / `data?.error` (empty when absent). */
  datatype Reply = Reply(status: int, message: string, error: string)

  /** An axios error: the response if one arrived, whether a request went
      out (`error.request`), `error.code` and `error.message` (empty when
      absent). */
  datatype Failure = Failure(response: Option<Reply>, request: bool, code: string, message: string)

  /** What an awaited axios call gives: a response (axios resolves on the
      2xx statuses; a form still checks for 200 or 201) or the error it
      rejects with. */
  datatype Outcome<D> = Resolved(status: int, data: D) | Rejected(failure: Failure)

  /** `a || b` on strings. */
  function OrText(a: string, b: string): (r: string)
    ensures a != [] ==> r == a
    ensures a == [] ==> r == b
  {
    if a != [] then a else b
  }

  const TimeoutCode := "ECONNABORTED"

  const ServerErrorMessage := "Server error. Please try again later."
  const NetworkErrorMessage := "Network error. Please check your connection and try again."
  const TimeoutMessage := "Request timeout. Please try again."
  const UnexpectedMessage := "An unexpected error occurred. Please try again."
  const AuthRequiredMessage := "Authentication required"
  const AccessDeniedMessage := "Access denied"
  const DuplicateReferenceMessage := "Article reference already exists"
  const NotFoundMessage := "Article not found"
}
