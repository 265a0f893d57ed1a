/** Failure-carrying results shared by every handler of the model.
    A handler either answers with a value or with one of the HTTP error
    statuses the controllers send. */
module Outcomes {

  /** An optional value: `None` stands for a field that is absent from a
      request (or, where JavaScript treats it the same way, empty). */
  datatype Option<+T> = None | Some(value: T) {

    /** The carried value, or `default` when there is none. */
    function GetOr(default: T): T {
      match this
      case Some(v) => v
      case None => default
    }
  }

  /** The error statuses the controllers answer with:
      400 for a rejected request, 404 for a missing record, and 500 for a
      failure raised while saving (a schema validator that refuses the record). */
  datatype Status = BadRequest | NotFound | ServerError {

    function Code(): (c: int)
      ensures 400 <= c < 600
    {
      match this
      case BadRequest => 400
      case NotFound => 404
      case ServerError => 500
    }
  }

  /** The answer of a handler: a value or an error status. */
  datatype Result<+T> = Ok(value: T) | Err(status: Status) {

    predicate IsFailure() {
      Err?
    }

    function PropagateFailure<U>(): Result<U>
      requires Err?
    {
      Err(status)
    }

    function Extract(): T
      requires Ok?
    {
      value
    }
  }
}
