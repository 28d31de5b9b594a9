/** Small shared vocabulary: optional values, results, and what a store or
    library call can throw. */
module Common {

  /** A value that may be absent: an optional schema field, an `undefined`
      lookup result, a missing header. */
  datatype Option<+T> = None | Some(value: T) {
    /** The value, or `default` when absent (JavaScript's `x || default` on a
        value that is never falsy when present). */
    function GetOr(default: T): T {
      match this
      case Some(v) => v
      case None => default
    }
  }

  /** Either a value or an error: the model of a service method that returns
      or throws. */
  datatype Result<+T, +E> = Ok(value: T) | Err(error: E)

  /** What a call into the persistence layer (or a library) throws.
      `DriverError` is an ordinary `Error` (connection loss, duplicate key,
      cast failure), `ValidationRejected` is Mongoose's `ValidationError`
      (also an `Error`), and `NonError` is a thrown value that is not an
      `Error` instance. The model does not say which call throws: a fault
      given to an operation is raised by its first store call. */
  datatype Fault = DriverError(message: string) | ValidationRejected(message: string) | NonError {
    /** `error instanceof Error` */
    predicate IsErrorInstance() { !NonError? }
  }

  /** JavaScript truthiness of an optional string: present and not empty. */
  predicate Present(x: Option<string>) {
    x.Some? && x.value != ""
  }

  /** The message Mongoose gives a required-path failure. */
  function RequiredMessage(path: string): string {
    path + ": Path `" + path + "` is required."
  }

  /** The message of a Mongoose `ValidationError` for a document of model
      `model` whose required paths `paths` (in schema order) are missing. */
  function ValidationFailedMessage(model: string, paths: seq<string>): string {
    model + " validation failed: " + JoinRequired(paths)
  }

  function JoinRequired(paths: seq<string>): string {
    if |paths| == 0 then ""
    else if |paths| == 1 then RequiredMessage(paths[0])
    else RequiredMessage(paths[0]) + ", " + JoinRequired(paths[1..])
  }
}
