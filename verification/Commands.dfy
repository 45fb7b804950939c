/** What the pages know about the commands they send: a key, and why a request failed. */
module Commands {
  import opened Wrappers

  type Key = nat

  /** Why a request failed, as the client sees it. */
  datatype Cause = ApiError(code: string, statusCode: Option<int>) | OtherCause
}
