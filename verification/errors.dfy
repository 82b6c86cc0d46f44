/**
  The structured error record of the library (errors.go): its closed set of
  codes, its string rendering, the generic constructor `New`, the cheap
  annotation `Wrap`, and the mapping of a code to an HTTP status.
 */
module Errors {
  import opened Wrappers

  // The closed set of application error codes (errors.go:17-32).
  const Conflict: string := "conflict"
  const Internal: string := "internal"
  const Invalid: string := "invalid"
  const NotFound: string := "not_found"
  const Unknown: string := "unknown"
  const MaximumAttempts: string := "maximum_attempts"
  const Expired: string := "expired"

  /** The fallback message when no error in a chain carries one. The source
      keeps it in a mutable package variable; here it is its initial value. */
  const GlobalError: string := "An error has occurred."

  // HTTP status codes, as defined by RFC 9110 (sections 15.5.1, 15.5.3,
  // 15.5.5, 15.5.10 and 15.6.1) and by section 4 of RFC 6585 for 429.
  const StatusBadRequest: int := 400
  const StatusPaymentRequired: int := 402
  const StatusNotFound: int := 404
  const StatusConflict: int := 409
  const StatusTooManyRequests: int := 429
  const StatusInternalServerError: int := 500

  /** A non-nil value of Go's `error` interface. `Structured` is a pointer to
      this library's record; `Foreign` is any other error (`fmt.Errorf`,
      `errors.New`, a driver's sentinel, ...). The resolvers only ever ask
      "is this a `*Error`?", so of a foreign error nothing but its text is
      observable. A nil `error` is `None` of `Option<ErrorValue>`. */
  datatype ErrorValue =
    | Foreign(text: string)
    | Structured(e: Error)

  /** The structured error record. `site` is the "file:line" captured at
      construction; it is opaque here and never read by any operation. The
      captured program counters are not modelled. */
  datatype Error = Error(
    code: string,
    message: string,
    operation: string,
    cause: Option<ErrorValue>,
    site: string)

  /** The prefix an operation contributes to a rendering: nothing when the
      operation is empty, otherwise the operation and ": ". */
  function OpPrefix(operation: string): (p: string)
    ensures p == "" <==> operation == ""
    ensures operation != "" ==> |p| == |operation| + 2 && p[..|operation|] == operation && p[|operation|..] == ": "
  {
    if operation == "" then "" else operation + ": "
  }

  /** The bracketed code a leaf contributes to a rendering: nothing when the
      code is empty, otherwise "<code> ". */
  function CodeTag(code: string): (t: string)
    ensures t == "" <==> code == ""
    ensures code != "" ==> |t| == |code| + 3 && t[0] == '<' && t[1..|code| + 1] == code && t[|code| + 1..] == "> "
  {
    if code == "" then "" else "<" + code + "> "
  }

  /** What a record without a cause shows after its operation prefix: the
      bracketed code, then the message. */
  function Leaf(e: Error): (r: string)
    ensures |e.message| <= |r| && r[|r| - |e.message|..] == e.message
    ensures e.code != "" ==> "<" + e.code + "> " <= r
  {
    CodeTag(e.code) + e.message
  }

  /** `(*Error).Error()`: the operation prefix, then either the cause's own
      rendering (the record's code and message are then ignored) or the
      bracketed code followed by the message.

      The rendering table in the repository's tests expects a different,
      richer layout (`<code> file:line - op: cause, message`); this is the
      layout the code actually produces. */
  function Render(e: Error): (r: string)
    decreases e, 1
    ensures e.operation != "" ==> e.operation + ": " <= r
    ensures e.cause.None? ==> |e.message| <= |r| && r[|r| - |e.message|..] == e.message
    ensures e.cause.None? && e.code != "" ==> "<" + e.code + "> " <= r[|OpPrefix(e.operation)|..]
  {
    OpPrefix(e.operation) +
    match e.cause
    case Some(c) => Text(c)
    case None => Leaf(e)
  }

  /** `err.Error()` for a non-nil error value. */
  function Text(v: ErrorValue): (r: string)
    decreases v, 0
    ensures v.Foreign? ==> r == v.text
    ensures v.Structured? ==> r == Render(v.e)
  {
    match v
    case Foreign(t) => t
    case Structured(e) => Render(e)
  }

  /** `New`: a structured error holding every argument verbatim. The code is
      not checked against the closed set. `site` stands for the call site the
      source captures with `runtime.Caller`. */
  function New(cause: Option<ErrorValue>, message: string, code: string, op: string, site: string): (r: ErrorValue)
    ensures r.Structured?
    ensures r.e.code == code && r.e.message == message && r.e.operation == op
    ensures r.e.cause == cause && r.e.site == site
  {
    Structured(Error(code, message, op, cause, site))
  }

  /** `Wrap`: nil stays nil; otherwise a record with only the cause and the
      message set, and no captured call site. */
  function Wrap(cause: Option<ErrorValue>, message: string): (r: Option<ErrorValue>)
    ensures r.None? <==> cause.None?
    ensures r.Some? ==> r.value.Structured? && r.value.e.cause == cause && r.value.e.message == message
    ensures r.Some? ==> r.value.e.code == "" && r.value.e.operation == "" && r.value.e.site == ""
  {
    match cause
    case None => None
    case Some(_) => Some(Structured(Error("", message, "", cause, "")))
  }

  /** True of the five codes that have their own HTTP status. */
  predicate HasOwnStatus(code: string) {
    code in {Conflict, Invalid, NotFound, Expired, MaximumAttempts}
  }

  /** `(*Error).HTTPStatusCode`: a closed lookup on the record's own code;
      the cause is never consulted. */
  function HTTPStatusCode(e: Error): (status: int)
    ensures status == StatusConflict <==> e.code == Conflict
    ensures status == StatusBadRequest <==> e.code == Invalid
    ensures status == StatusNotFound <==> e.code == NotFound
    ensures status == StatusPaymentRequired <==> e.code == Expired
    ensures status == StatusTooManyRequests <==> e.code == MaximumAttempts
    ensures status == StatusInternalServerError <==> !HasOwnStatus(e.code)
  {
    match e.code
    case "conflict" => StatusConflict
    case "invalid" => StatusBadRequest
    case "not_found" => StatusNotFound
    case "expired" => StatusPaymentRequired
    case "maximum_attempts" => StatusTooManyRequests
    case _ => StatusInternalServerError
  }
}
