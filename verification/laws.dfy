/**
  How the operations fit together: what `Wrap`, `New`, `ToError` and the
  fixed-code constructors mean for resolution, rendering and the HTTP
  status.
 */
module Laws {
  import opened Wrappers
  import opened Errors
  import opened Cast
  import opened Util

  /** Wrapping never changes the resolved code. */
  lemma WrapKeepsCode(cause: ErrorValue, message: string)
    ensures Code(Wrap(Some(cause), message)) == Code(Some(cause))
  {
  }

  /** Wrapping overrides the resolved message exactly when the new message
      is non-empty. */
  lemma WrapMessage(cause: ErrorValue, message: string)
    ensures message != "" ==> Message(Wrap(Some(cause), message)) == message
    ensures message == "" ==> Message(Wrap(Some(cause), message)) == Message(Some(cause))
  {
  }

  /** A wrapped error renders exactly as its cause: the added message is
      invisible in the rendering. */
  lemma WrapRendersAsCause(cause: ErrorValue, message: string)
    ensures Text(Wrap(Some(cause), message).value) == Text(cause)
  {
  }

  /** The status looks only at the record's own code, so a wrapper (whose
      own code is empty) is always a server error, whatever it wraps. */
  lemma WrapStatusIsDefault(cause: ErrorValue, message: string)
    ensures HTTPStatusCode(Wrap(Some(cause), message).value.e) == StatusInternalServerError
  {
  }

  /** `New` resolves to its own code when it is non-empty, and otherwise
      defers to the cause, or to "internal" without one. */
  lemma NewCode(cause: Option<ErrorValue>, message: string, code: string, op: string, site: string)
    ensures code != "" ==> Code(Some(New(cause, message, code, op, site))) == code
    ensures code == "" && cause.Some? ==> Code(Some(New(cause, message, code, op, site))) == Code(cause)
    ensures code == "" && cause.None? ==> Code(Some(New(cause, message, code, op, site))) == Internal
  {
  }

  /** Rendering of a record without a cause: the operation prefix, the
      bracketed code when there is one, then the message. With a cause:
      the operation prefix, then the cause's rendering. */
  lemma RenderLayout(e: Error)
    ensures e.cause.None? && e.code != "" ==> Render(e) == OpPrefix(e.operation) + "<" + e.code + "> " + e.message
    ensures e.cause.None? && e.code == "" ==> Render(e) == OpPrefix(e.operation) + e.message
    ensures e.cause.Some? ==> Render(e) == OpPrefix(e.operation) + Text(e.cause.value)
  {
    if e.cause.None? {
      if e.code != "" {
        TaggedLeafLayout(e);
      } else {
        UntaggedLeafLayout(e);
      }
    }
  }

  /** A cause-less record with a code: prefix, bracketed code, message. */
  lemma TaggedLeafLayout(e: Error)
    requires e.cause.None? && e.code != ""
    ensures Render(e) == OpPrefix(e.operation) + "<" + e.code + "> " + e.message
  {
    var p := OpPrefix(e.operation);
    calc {
      Render(e);
      p + Leaf(e);
      p + (CodeTag(e.code) + e.message);
      p + ("<" + e.code + "> " + e.message);
      p + "<" + e.code + "> " + e.message;
    }
  }

  /** A cause-less record without a code: prefix, then message. */
  lemma UntaggedLeafLayout(e: Error)
    requires e.cause.None? && e.code == ""
    ensures Render(e) == OpPrefix(e.operation) + e.message
  {
    assert Leaf(e) == e.message;
  }

  /** Coercing an error value keeps everything the library can observe of
      it: the resolved code, the resolved message and the rendering. */
  lemma ToErrorPreservesObservations(x: ErrorValue)
    ensures ToError(Interface(x)).Some?
    ensures Code(Some(Structured(ToError(Interface(x)).value))) == Code(Some(x))
    ensures Message(Some(Structured(ToError(Interface(x)).value))) == Message(Some(x))
    ensures Render(ToError(Interface(x)).value) == Text(x)
  {
  }

  /** A string becomes an error that renders as that string and resolves to
      the default code and the fallback message. */
  lemma ToErrorOfString(s: string)
    ensures ToError(Str(s)).Some?
    ensures Render(ToError(Str(s)).value) == s
    ensures Code(Some(Structured(ToError(Str(s)).value))) == Internal
    ensures Message(Some(Structured(ToError(Str(s)).value))) == GlobalError
  {
  }

  /** Each constructor's fixed code is non-empty, so it wins resolution
      whatever the cause. */
  lemma ConstructorCodes(cause: Option<ErrorValue>, message: string, op: string, site: string)
    ensures Code(Some(Structured(NewInternal(cause, message, op, site)))) == Internal
    ensures Code(Some(Structured(NewConflict(cause, message, op, site)))) == Conflict
    ensures Code(Some(Structured(NewInvalid(cause, message, op, site)))) == Invalid
    ensures Code(Some(Structured(NewNotFound(cause, message, op, site)))) == NotFound
    ensures Code(Some(Structured(NewUnknown(cause, message, op, site)))) == Unknown
    ensures Code(Some(Structured(NewMaximumAttempts(cause, message, op, site)))) == MaximumAttempts
    ensures Code(Some(Structured(NewExpired(cause, message, op, site)))) == Expired
  {
  }

  /** The HTTP status of each constructor's result. */
  lemma ConstructorStatuses(cause: Option<ErrorValue>, message: string, op: string, site: string)
    ensures HTTPStatusCode(NewConflict(cause, message, op, site)) == StatusConflict
    ensures HTTPStatusCode(NewInvalid(cause, message, op, site)) == StatusBadRequest
    ensures HTTPStatusCode(NewNotFound(cause, message, op, site)) == StatusNotFound
    ensures HTTPStatusCode(NewExpired(cause, message, op, site)) == StatusPaymentRequired
    ensures HTTPStatusCode(NewMaximumAttempts(cause, message, op, site)) == StatusTooManyRequests
    ensures HTTPStatusCode(NewInternal(cause, message, op, site)) == StatusInternalServerError
    ensures HTTPStatusCode(NewUnknown(cause, message, op, site)) == StatusInternalServerError
  {
  }

  /** Without a cause or an operation, a constructor's result renders as its
      bracketed code followed by the message. */
  lemma ConstructorRenderings(message: string, site: string)
    ensures Render(NewInternal(None, message, "", site)) == "<" + Internal + "> " + message
    ensures Render(NewConflict(None, message, "", site)) == "<" + Conflict + "> " + message
    ensures Render(NewInvalid(None, message, "", site)) == "<" + Invalid + "> " + message
    ensures Render(NewNotFound(None, message, "", site)) == "<" + NotFound + "> " + message
    ensures Render(NewUnknown(None, message, "", site)) == "<" + Unknown + "> " + message
    ensures Render(NewMaximumAttempts(None, message, "", site)) == "<" + MaximumAttempts + "> " + message
    ensures Render(NewExpired(None, message, "", site)) == "<" + Expired + "> " + message
  {
  }
}
