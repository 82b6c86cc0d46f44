# Structured errors, modelled in Dafny

A model of the core of a small Go error library. Its one entity is a
structured error record carrying a machine-readable `Code`, a human
`Message`, an `Operation` label and an optional wrapped cause `Err`. The
model covers:

- resolution of the code and the message along the chain of causes
  (`Code`, `Message`);
- coercion of an arbitrary value into a record (`ToError`);
- the record's string rendering (`Error()`);
- the generic constructor `New`, the cheap annotation `Wrap`, and the seven
  fixed-code constructors;
- the closed mapping from a code to an HTTP status. The statuses are those
  of RFC 9110 sections 15.5.1 (400), 15.5.3 (402), 15.5.5 (404), 15.5.10
  (409) and 15.6.1 (500), and of section 4 of RFC 6585 (429).

Go's `error` interface is `Option<ErrorValue>`: `None` is nil, and
`ErrorValue` is either `Structured(e)` (a `*Error`) or `Foreign(text)`
(every other error). The resolvers use a plain type assertion on `*Error`,
never `errors.As`. Of a foreign error, therefore, only its text is
observable. Go's `any` argument of `ToError` is the `AnyValue` datatype.

Files, one module each: `wrappers.dfy` (`Option`), `errors.dfy` (errors.go),
`cast.dfy` (cast.go), `util.dfy` (util.go), `chain.dfy` (closed-form
descriptions of resolution and rendering over the cause chain) and
`laws.dfy` (how the operations combine).

The tests' rendering table (errors_test.go:29-48) expects
`<code> file:line - op: cause, message`. The code at errors.go:55-75 renders
only the operation prefix followed by the cause, or the operation prefix
followed by the bracketed code and the message. The model follows the code.
`Errors.Render` records this in a comment. `Laws.RenderLayout` proves that
any record with a cause renders as its operation prefix followed by the
cause's rendering, so it never shows its own code or message, whereas that
table's last row expects `err, message`.

`Wrap`'s doc comment (errors.go:159-160) promises a stack trace at the point
of the call, but the code (errors.go:166-169) captures none. The model
follows the code: a wrapper's `site` is empty.

## Model

| member | source | states |
|---|---|---|
| Errors.OpPrefix | errors.go:59-61 | an operation contributes nothing exactly when it is empty, otherwise itself followed by ": " |
| Errors.CodeTag | errors.go:68-70 | a code contributes nothing exactly when it is empty, otherwise `<code> ` |
| Errors.Render | errors.go:55-75 | the rendering starts with `op: ` when the operation is set; without a cause it ends with the message, and the bracketed code follows the operation prefix when the code is set |
| Errors.Text | errors.go:66 | a foreign error renders as its own text; a structured one as its record |
| Errors.Leaf | errors.go:67-72 | a record without a cause shows text that ends with its message and, when the code is set, starts with `<code> ` |
| Errors.New | errors.go:78-90 | the result is a structured error holding code, message, operation and cause verbatim, with no validation of the code |
| Errors.Wrap | errors.go:162-170 | nil stays nil and non-nil stays non-nil; the result holds the cause and the message, with empty code and operation and no call site |
| Errors.HTTPStatusCode | errors.go:174-189 | conflict, invalid, not_found, expired and maximum_attempts map to 409, 400, 404, 402 and 429, each in both directions; every other code, the empty one included, maps to 500 |
| Cast.Code | cast.go:11-20 | the result is empty exactly for nil; an own non-empty code wins whatever the cause; a foreign error resolves to "internal" |
| Cast.Message | cast.go:25-34 | the result is empty exactly for nil; an own non-empty message wins; a foreign error resolves to the fallback message |
| Cast.Bare | cast.go:45-47 | the record built for a foreign error or a string: only the cause is set; code, message, operation and call site are empty |
| Cast.ToError | cast.go:38-51 | nil and unsupported types give nil and nothing else does; a `*Error` or an `Error` value comes back equal; a foreign error or a string becomes a record whose only set field is a foreign cause with the same text |
| Util.NewError | util.go:14-25 | the record holds every argument verbatim |
| Util.NewInternal | util.go:29-31 | code is "internal"; cause, message, operation and call site pass through |
| Util.NewConflict | util.go:34-36 | code is "conflict"; the other arguments pass through |
| Util.NewInvalid | util.go:39-41 | code is "invalid"; the other arguments pass through |
| Util.NewNotFound | util.go:44-46 | code is "not_found"; the other arguments pass through |
| Util.NewUnknown | util.go:49-51 | code is "unknown"; the other arguments pass through |
| Util.NewMaximumAttempts | util.go:54-56 | code is "maximum_attempts"; the other arguments pass through |
| Util.NewExpired | util.go:59-61 | code is "expired"; the other arguments pass through |
| Chain.Links | cast.go:16-17 | the walk starts at the error itself and each record's cause is the next one; it is empty exactly for nil or a foreign error |
| Chain.LinksComplete | cast.go:16-19 | the walk stops only where resolution stops: the last record has no cause, or a foreign one |
| Chain.Innermost | errors.go:65-72 | the result is a leaf: a foreign error, or a record without a cause |
| Chain.InnermostEndsLinks | errors.go:65-72 | the innermost error is the end of the same walk: a foreign error is its own end; otherwise it is the walk's last record, or the foreign error that record wraps |
| Chain.FirstSetIsUnique | cast.go:11-34 | the "first non-empty field, else fallback" description determines a single result |
| Chain.CodeIsFirstSetCode | cast.go:11-20 | `Code` of a non-nil error is the first non-empty code along its chain, or "internal" when every code is empty |
| Chain.MessageIsFirstSetMessage | cast.go:25-34 | `Message` of a non-nil error is the first non-empty message along its chain, or the fallback message when every message is empty |
| Chain.RenderClosedForm | errors.go:55-75 | a rendering is the operation prefixes of every record along the chain, outermost first, followed by the innermost error's text; outer codes and messages contribute nothing |
| Laws.WrapKeepsCode | errors.go:162-170 | `Code(Wrap(e, m)) == Code(e)` for every non-nil `e` |
| Laws.WrapMessage | errors.go:162-170 | `Message(Wrap(e, m))` is `m` when `m` is non-empty, otherwise `Message(e)` |
| Laws.WrapRendersAsCause | errors.go:65-66 | `Wrap(e, m)` renders exactly as `e` |
| Laws.WrapStatusIsDefault | errors.go:174-188 | the status reads only the record's own code, so a wrapper maps to 500 whatever it wraps |
| Laws.NewCode | errors.go:78-90 | `New` resolves to its own code when that is non-empty, otherwise to the cause's code, or to "internal" without a cause |
| Laws.RenderLayout | errors.go:55-75 | without a cause: operation prefix, bracketed code when set, message; with a cause: operation prefix, then the cause's rendering |
| Laws.ToErrorPreservesObservations | cast.go:40-46 | coercing an error value keeps its resolved code, its resolved message and its rendering |
| Laws.ToErrorOfString | cast.go:47-48 | a coerced string renders as itself and resolves to "internal" and the fallback message |
| Laws.ConstructorCodes | util.go:29-61 | each fixed-code constructor resolves to its code whatever the cause |
| Laws.ConstructorStatuses | util.go:29-61 | conflict, invalid, not-found, expired and maximum-attempts constructors give 409, 400, 404, 402 and 429; internal and unknown give 500 |
| Laws.ConstructorRenderings | util.go:29-61 | without a cause or an operation, each constructor renders as `<code> ` followed by the message |

## Left out

- Call-site and stack capture (`runtime.Caller`, `runtime.Callers`, the
  program counters, `RuntimeFrames`, `ProgramCounters`, `StackTrace`): these
  depend on Go runtime introspection. The captured "file:line" is an opaque
  `site` parameter of the constructors. The program counters are not
  modelled.
- The unexported `new` (errors.go:92-104): it is identical to `NewError`
  apart from the depth of its capture. The second copies of `Code`,
  `Message` and `ToError` (errors.go:117-157) match cast.go and are modelled
  once.
- mirror.go (`New`, `Unwrap`, `Is`, `As`): thin wrappers over Go's standard
  `errors` package, whose behaviour is not part of this model.
- `Newf` and the empty `Errorf` (errors.go:106-113): they need `fmt.Sprintf`
  formatting.
- Cast.ToError: the source builds the fresh foreign error with
  `fmt.Errorf(text)`, which treats `%` as a format verb. The model copies the
  text verbatim, so texts containing `%` are not modelled faithfully.
- Laws.ToErrorPreservesObservations: it rests on the verbatim copy of the
  text, so in Go it holds only for error text without `%`.
- Laws.ToErrorOfString: it rests on the verbatim copy of the text, so in Go
  it holds only for strings without `%`. For example, Go renders
  `ToError("50% off")` as `"50%!o(MISSING)ff"`.
- `DefaultCode` and `GlobalError` are mutable package variables. `Code`
  never reads `DefaultCode`, so it is not modelled. `GlobalError` is the
  constant `"An error has occurred."`, its initial value.
- A typed nil `*Error` stored in an `error` would make the resolvers panic.
  Nil is modelled only as the absence of an error.
- Pointer identity: `ToError` of a `*Error` returns the same pointer. The
  model returns an equal value.
- JSON struct tags: no marshaller exists in the modelled files.
- Cyclic cause chains: the datatypes are finite, so the model cannot express
  a record that wraps itself. On such a cycle, `Code` and `Message` recurse
  forever only when every record on it has an empty code (or message);
  `Error()` always recurses and ends in a stack overflow.
- Go strings are byte sequences; here `string` is `seq<char>`. Lengths in
  the `OpPrefix` and `CodeTag` contracts count characters, and text that is
  not valid UTF-8 cannot be represented. Concatenation and equality, which
  are all the operations use, are unaffected.
- Serialization to and from a flat wire record: no marshaller or
  `Scan`/`Value` adapter exists in the modelled source files.
