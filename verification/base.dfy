/**
 Failure-compatible wrappers shared by every module of the inventory model:
 - Option<T>, for values a source record or a lookup may lack;
 - Result<T>, for operations that fail with an error message, usable with `:-`
   the way the program uses Rust's `?` operator.
 */
module Base {

  datatype Option<+T> = None | Some(value: T) {

    predicate IsFailure() {
      None?
    }

    function PropagateFailure<U>(): Option<U>
      requires None?
    {
      None
    }

    function Extract(): T
      requires Some?
    {
      value
    }

    /** Rust's `unwrap_or(default)` */
    function GetOr(default: T): T {
      match this
      case Some(v) => v
      case None => default
    }
  }

  /** Why an operation stopped. A Rust `panic!` (an `unwrap` on `None`) ends the
      whole process, an `Err` is returned to the caller; both abort a run. */
  datatype Error = Failed(message: string) | Panicked(message: string)

  datatype Result<+T> = Ok(value: T) | Err(error: Error) {

    predicate IsFailure() {
      Err?
    }

    function PropagateFailure<U>(): Result<U>
      requires Err?
    {
      Err(error)
    }

    function Extract(): T
      requires Ok?
    {
      value
    }

    /** Rust's `Result::ok()` */
    function ToOption(): Option<T> {
      match this
      case Ok(v) => Some(v)
      case Err(_) => None
    }
  }

  /** Rust's `Option::unwrap_or_default()` for strings */
  function OrEmpty(s: Option<string>): string {
    s.GetOr("")
  }
}
