/** Identifiers, error variants and result wrappers shared by the group directory
    and the message store. */
module Types {

  /** A document identifier (a MongoDB ObjectId). Users and groups draw their ids
      from the same space: a message's receiver field holds either one. The only
      operation the controller performs on ids is an equality test, written in the
      source as a comparison of their string forms. */
  type Id(==, !new)

  /** The controller's error responses, one per HTTP status it chooses:
      404 NotFound, 403 Forbidden, 400 InvalidOperation and 400 Validation. */
  datatype Error = NotFound | Forbidden | InvalidOperation | Validation

  /** The outcome of a handler: a value, or the error the handler responds with. */
  datatype Result<+T> = Ok(value: T) | Err(error: Error) {

    /** An error ends the handler early. */
    predicate IsFailure() {
      Err?
    }

    /** Passes an error on unchanged under another value type. */
    function PropagateFailure<U>(): Result<U>
      requires Err?
    {
      Err(error)
    }

    /** The value of a successful outcome. */
    function Extract(): T
      requires Ok?
    {
      value
    }
  }

  /** A value that may be absent (a JavaScript `undefined`). */
  datatype Option<+T> = None | Some(value: T)
}
