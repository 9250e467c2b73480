/** Go's error values as the core uses them: a leaf error made by `errors.New`
    or a format string without `%w`, and an error wrapped with a context prefix
    by `fmt.Errorf("<context>: %w", err)` or `errors.Wrap(err, "<context>")`.
    A nil error is `None` of an `Option<Error>`; a `(value, error)` pair whose
    error is non-nil is `Err` of a `Result`, the value part being Go's zero value. */
module Errors {

  datatype Option<+T> = None | Some(value: T)

  datatype Error =
    | Error(text: string)
    | Wrapped(context: string, cause: Error)

  datatype Result<+T> = Ok(value: T) | Err(error: Error)

  /** `err.Error()`: the context prefixes joined to the innermost text by ": ". */
  function Message(e: Error): string
  {
    match e
    case Error(text) => text
    case Wrapped(context, cause) => context + ": " + Message(cause)
  }

  /** `errors.Unwrap`: the wrapped cause, if any. */
  function Unwrap(e: Error): Option<Error>
  {
    match e
    case Error(_) => None
    case Wrapped(_, cause) => Some(cause)
  }

  /** The idiom `if err != nil { return fmt.Errorf("<context>: %w", err) }; return nil`. */
  function WrapErr(context: string, err: Option<Error>): (r: Option<Error>)
    ensures r.None? <==> err.None?
    ensures r.Some? ==> Unwrap(r.value) == err
    ensures r.Some? ==> Message(r.value) == context + ": " + Message(err.value)
  {
    match err
    case None => None
    case Some(e) => Some(Wrapped(context, e))
  }
}
