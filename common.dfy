/**
 * Vocabulary shared by the container model: keys, scopes, the values and
 * errors that flow through it, and what invoking a user callback yields.
 */
module Common {

  datatype Option<+T> = None | Some(value: T) {
    function GetOr(default: T): T {
      match this
      case Some(v) => v
      case None => default
    }
  }

  /** A synchronous outcome: a returned value or a thrown error. */
  datatype Result<+T> = Ok(value: T) | Err(error: Error)

  /**
   * Something thrown. `Raised` is an `Error` the container itself constructs
   * (only its message is observable); `Thrown` is any other value thrown by
   * user code, identified by an opaque token so that "the identical error is
   * rethrown" can be stated.
   */
  datatype Error = Raised(message: string) | Thrown(token: nat)

  /** A value produced by user code; equal numbers stand for the same object. */
  type Value = int

  /**
   * A binding key. `Interned(name)` is `Symbol.for(name)`: one symbol per
   * name, process wide. `Unique` is `Symbol(description)`: a fresh symbol that
   * equals no other, whatever its description.
   */
  datatype Key = Interned(name: string) | Unique(id: nat, description: Option<string>)

  /** `key.description` as `Array.prototype.join` prints it (missing -> ""). */
  function JoinText(k: Key): string {
    match k
    case Interned(name) => name
    case Unique(_, d) => d.GetOr("")
  }

  /** `key.description` inside a template literal (missing -> "undefined"). */
  function TemplateText(k: Key): string {
    match k
    case Interned(name) => name
    case Unique(_, d) => d.GetOr("undefined")
  }

  datatype Scope = Root | Request

  /**
   * What calling a user callback (a factory `use`) does: it returns a value,
   * throws, or returns a promise that the environment settles later.
   */
  datatype Call = Returns(v: Value) | Throws(e: Error) | Suspends

  /** The outcome of a run, handed to request-scoped finalizers. */
  datatype RequestResult = Success(result: Value) | Failure(error: Error)

  const BindingDestroyedMessage: string := "This binding has been destroyed."
  const ContextDestroyedMessage: string := "This context has been destroyed."
  const NoContextMessage: string := "Cannot resolve binding outside of context"
}
