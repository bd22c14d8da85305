/** The uniform envelope every API answer is wrapped in, and its two factories. */
module ApiResponses {
  import opened Wrappers
  import opened Time

  /**
   * `data` is `None` for the type's default value; `errors` is `None` for a
   * null list.
   */
  datatype ApiResponse<T> = ApiResponse(
    success: bool,
    message: string,
    data: Option<T>,
    errors: Option<seq<string>>,
    timestamp: DateTime)

  /** A successful answer carrying `data`; the message defaults to "Success" and no error list is attached. */
  function SuccessResponse<T>(data: T, timestamp: DateTime, message: string := "Success"): (r: ApiResponse<T>)
    ensures r.success && r.data == Some(data) && r.message == message
    ensures r.errors.None?
  {
    ApiResponse(true, message, Some(data), None, timestamp)
  }

  /**
   * A failed answer with `message`. It carries no data, and its error list is
   * never null: a missing list becomes a new empty one, a given list is kept.
   */
  function ErrorResponse<T>(message: string, timestamp: DateTime, errors: Option<seq<string>> := None): (r: ApiResponse<T>)
    ensures !r.success && r.message == message && r.data.None?
    ensures r.errors.Some?
    ensures errors.Some? ==> r.errors == errors
    ensures errors.None? ==> r.errors == Some([])
  {
    ApiResponse(false, message, None, Some(errors.GetOr([])), timestamp)
  }
}
