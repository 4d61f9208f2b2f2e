/** Shared result wrappers and the JSON reply helpers of the controllers
    package (internal/controllers/common.go). */
module Common {

  datatype Option<+T> = None | Some(value: T)

  /** The error return of a foreign call (a store command, a transport):
      Pass is a nil error, Fail carries the error's text. */
  datatype Outcome = Pass | Fail(reason: string)

  /** A value-or-error return of a foreign call. */
  datatype Result<+T> = Ok(value: T) | Err(reason: string)

  /** The two JSON bodies: `JsonStruct` (a success, with a count) and
      `JsonStruct_bad` (an error, without one). */
  datatype Body<+D> =
    | Success(code: int, msg: string, data: D, count: int)
    | Bad(code: int, msg: string, data: D)

  /** What a handler writes: the HTTP status line and the JSON body. */
  datatype Reply<+D> = Reply(status: int, body: Body<D>)

  /** The HTTP status ReturnError picks for a JSON error code. */
  function ErrorStatus(code: int): (status: int)
    ensures status == (if code >= 400 then code else 200)
  {
    if code == 401 then 401
    else if code >= 400 then code
    else 200
  }

  /** JsonStruct.ReturnSuccess: always HTTP 200, the body carries the
      arguments unchanged. */
  function ReturnSuccess<D>(code: int, msg: string, data: D, count: int): (r: Reply<D>)
    ensures r.status == 200
    ensures r.body.Success? && r.body.code == code && r.body.msg == msg
    ensures r.body.data == data && r.body.count == count
  {
    Reply(200, Success(code, msg, data, count))
  }

  /** JsonStruct_bad.ReturnError: the body carries the arguments unchanged,
      the status follows ErrorStatus. */
  function ReturnError<D>(code: int, msg: string, data: D): (r: Reply<D>)
    ensures r.status == ErrorStatus(code)
    ensures r.body.Bad? && r.body.code == code && r.body.msg == msg && r.body.data == data
  {
    Reply(ErrorStatus(code), Bad(code, msg, data))
  }
}
