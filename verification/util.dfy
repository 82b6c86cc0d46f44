/**
  The fixed-code convenience constructors (util.go). Each delegates to
  `NewError` with its code; `site` stands for the caller's call site, which
  the source captures with `runtime.Caller`.
 */
module Util {
  import opened Wrappers
  import opened Errors

  /** `newError`: a record holding every argument verbatim. */
  function NewError(cause: Option<ErrorValue>, message: string, code: string, op: string, site: string): (r: Error)
    ensures r.code == code && r.message == message && r.operation == op
    ensures r.cause == cause && r.site == site
  {
    Error(code, message, op, cause, site)
  }

  /** True when `r` carries `cause`, `message`, `op` and `site` unchanged. */
  predicate PassesThrough(r: Error, cause: Option<ErrorValue>, message: string, op: string, site: string) {
    r.cause == cause && r.message == message && r.operation == op && r.site == site
  }

  function NewInternal(cause: Option<ErrorValue>, message: string, op: string, site: string): (r: Error)
    ensures r.code == Internal && PassesThrough(r, cause, message, op, site)
  {
    NewError(cause, message, Internal, op, site)
  }

  function NewConflict(cause: Option<ErrorValue>, message: string, op: string, site: string): (r: Error)
    ensures r.code == Conflict && PassesThrough(r, cause, message, op, site)
  {
    NewError(cause, message, Conflict, op, site)
  }

  function NewInvalid(cause: Option<ErrorValue>, message: string, op: string, site: string): (r: Error)
    ensures r.code == Invalid && PassesThrough(r, cause, message, op, site)
  {
    NewError(cause, message, Invalid, op, site)
  }

  function NewNotFound(cause: Option<ErrorValue>, message: string, op: string, site: string): (r: Error)
    ensures r.code == NotFound && PassesThrough(r, cause, message, op, site)
  {
    NewError(cause, message, NotFound, op, site)
  }

  function NewUnknown(cause: Option<ErrorValue>, message: string, op: string, site: string): (r: Error)
    ensures r.code == Unknown && PassesThrough(r, cause, message, op, site)
  {
    NewError(cause, message, Unknown, op, site)
  }

  function NewMaximumAttempts(cause: Option<ErrorValue>, message: string, op: string, site: string): (r: Error)
    ensures r.code == MaximumAttempts && PassesThrough(r, cause, message, op, site)
  {
    NewError(cause, message, MaximumAttempts, op, site)
  }

  function NewExpired(cause: Option<ErrorValue>, message: string, op: string, site: string): (r: Error)
    ensures r.code == Expired && PassesThrough(r, cause, message, op, site)
  {
    NewError(cause, message, Expired, op, site)
  }
}
