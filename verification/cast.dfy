/**
  Resolution of a code and a message along a chain of wrapped errors, and
  coercion of an arbitrary value into a structured error (cast.go).
 */
module Cast {
  import opened Wrappers
  import opened Errors

  /** `Code`: nil has no code; a structured error's own non-empty code wins;
      an empty code defers to the cause when there is one; anything else
      resolves to the literal "internal" (not the configurable default). */
  function Code(err: Option<ErrorValue>): (r: string)
    ensures r == "" <==> err.None?
    ensures err.Some? && err.value.Structured? && err.value.e.code != "" ==> r == err.value.e.code
    ensures err.Some? && err.value.Foreign? ==> r == Internal
  {
    match err
    case None => ""
    case Some(Foreign(_)) => Internal
    case Some(Structured(e)) =>
      if e.code != "" then e.code
      else if e.cause.Some? then Code(e.cause)
      else Internal
  }

  /** `Message`: the same resolution as `Code` over the message field, with
      the fallback message in place of the default code. */
  function Message(err: Option<ErrorValue>): (r: string)
    ensures r == "" <==> err.None?
    ensures err.Some? && err.value.Structured? && err.value.e.message != "" ==> r == err.value.e.message
    ensures err.Some? && err.value.Foreign? ==> r == GlobalError
  {
    match err
    case None => ""
    case Some(Foreign(_)) => GlobalError
    case Some(Structured(e)) =>
      if e.message != "" then e.message
      else if e.cause.Some? then Message(e.cause)
      else GlobalError
  }

  /** The dynamic value handed to `ToError` (Go's `any`): nil, a value of the
      `error` interface (which may itself hold a `*Error`), an `Error` record
      passed by value, a string, or a value of any other type. */
  datatype AnyValue =
    | Nil
    | Interface(err: ErrorValue)
    | Record(e: Error)
    | Str(s: string)
    | Other

  /** A structured error whose only set field is its cause. */
  function Bare(cause: ErrorValue): (r: Error)
    ensures r.cause == Some(cause)
    ensures r.code == "" && r.message == "" && r.operation == "" && r.site == ""
  {
    Error("", "", "", Some(cause), "")
  }

  /** `ToError`: a `*Error` is returned as is and an `Error` value as a
      pointer to a copy; a foreign error or a string becomes a bare record
      around a fresh foreign error with the same text; nil and every other
      type give nil. The source builds the fresh error with `fmt.Errorf`,
      which would interpret `%` verbs in the text; here the text is copied
      verbatim. */
  function ToError(v: AnyValue): (r: Option<Error>)
    ensures r.None? <==> v.Nil? || v.Other?
    ensures v.Interface? && v.err.Structured? ==> r == Some(v.err.e)
    ensures v.Record? ==> r == Some(v.e)
    ensures v.Interface? && v.err.Foreign? ==> r == Some(Bare(Foreign(v.err.text)))
    ensures v.Str? ==> r == Some(Bare(Foreign(v.s)))
  {
    match v
    case Nil => None
    case Interface(Structured(e)) => Some(e)
    case Record(e) => Some(e)
    case Interface(Foreign(t)) => Some(Bare(Foreign(t)))
    case Str(s) => Some(Bare(Foreign(s)))
    case Other => None
  }
}
