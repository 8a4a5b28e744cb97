/** What a gin handler writes back, and the pieces the handlers share: the
    `dto.Response` envelope, the `user_id` gate of authenticated routes,
    the text of `strconv.Atoi` errors and gin's `required` binding rule. */
module Http {
  import opened Wrappers
  import opened GoConv

  const StatusOK: int := 200
  const StatusCreated: int := 201
  const StatusNoContent: int := 204
  const StatusFound: int := 302
  const StatusBadRequest: int := 400
  const StatusUnauthorized: int := 401
  const StatusForbidden: int := 403
  const StatusNotFound: int := 404
  const StatusInternalServerError: int := 500

  /** The `data` member of a reply: JSON `null` (a nil value or nil slice),
      `[]` (the handlers' `[]any{}`), or a value. */
  datatype Data<+D> = Null | EmptyList | Payload(value: D)

  /** `dto.PaginationMeta`. */
  datatype PaginationMeta = PaginationMeta(page: int, totalPage: int)

  /** `dto.Response` with the status it is written with. `meta` is only
      ever set by the filtered movie listing. */
  datatype Reply<+D> = Reply(status: int, msg: string, success: bool, error: string, data: Data<D>, meta: Option<PaginationMeta>)

  /** What a handler does, seen from outside: the service call it makes,
      if it gets that far, and the reply it writes. */
  datatype Exchange<+C, +D> = Exchange(call: Option<C>, reply: Reply<D>)

  /** A handler's exchange together with the files it saved on disk. */
  datatype Upshot<+C, +D> = Upshot(files: seq<string>, exchange: Exchange<C, D>)

  function Failure<D>(status: int, msg: string, error: string, data: Data<D>): (r: Reply<D>)
    ensures !r.success && r.status == status && r.meta.None?
  {
    Reply(status, msg, false, error, data, None)
  }

  function Success<D>(status: int, msg: string, data: Data<D>): (r: Reply<D>)
    ensures r.success && r.status == status && r.error == "" && r.meta.None?
  {
    Reply(status, msg, true, "", data, None)
  }

  /** A slice the services build by appending to a `var s []T`: nil, so
      JSON `null`, when nothing was appended. */
  function SliceData<T>(s: seq<T>): (d: Data<seq<T>>)
    ensures d.Null? <==> |s| == 0
    ensures d.Payload? ==> d.value == s
  {
    if |s| == 0 then Null else Payload(s)
  }

  /** A request body after gin's binding: undecodable (with the decoder's
      message), or decoded, absent members holding Go's zero value. */
  datatype Body<+T> = Malformed(message: string) | Decoded(value: T)

  /** What `c.Get("user_id")` finds in the request context. */
  datatype CtxValue = Missing | IntValue(n: int) | OtherValue

  /** The check every authenticated user handler starts with. */
  datatype Gate<+D> = Pass(userId: int) | Stop(reply: Reply<D>)

  /** No `user_id` is a 401, one that is not an `int` is a 500; only an
      `int` passes, unchanged. */
  function UserGate<D>(v: CtxValue): (g: Gate<D>)
    ensures g.Pass? <==> v.IntValue?
    ensures g.Pass? ==> g.userId == v.n
    ensures v.Missing? ==> g == Stop(Failure(StatusUnauthorized, "Unauthorized", "User Id Not Found", Null))
    ensures v.OtherValue? ==> g == Stop(Failure(StatusInternalServerError, "Internal Server Error", "Invalid User Id", Null))
  {
    match v
    case Missing => Stop(Failure(StatusUnauthorized, "Unauthorized", "User Id Not Found", Null))
    case OtherValue => Stop(Failure(StatusInternalServerError, "Internal Server Error", "Invalid User Id", Null))
    case IntValue(n) => Pass(n)
  }

  /** The text of the error `strconv.Atoi(s)` returns (the input is shown
      between double quotes, without Go's escaping of special characters). */
  function AtoiErrorText(s: string): (t: string)
    requires !Atoi(s).Parsed?
  {
    "strconv.Atoi: parsing \"" + s + "\": " + (if Atoi(s).SyntaxError? then "invalid syntax" else "value out of range")
  }

  /** The text of one failed `binding:"required"` rule. */
  function RequiredError(structName: string, field: string): string {
    "Key: '" + structName + "." + field + "' Error:Field validation for '" + field + "' failed on the 'required' tag"
  }

  /** The validator's message for several failed fields: one line each. */
  function JoinLines(lines: seq<string>): string
    decreases |lines|
  {
    if |lines| == 0 then ""
    else if |lines| == 1 then lines[0]
    else lines[0] + "\n" + JoinLines(lines[1..])
  }
}
