/** Outcomes of a request handler, with the HTTP status codes and response
    serialisation stripped away: a handler either succeeds with a value, or
    answers 400 (bad request) or 404 (not found) with a text message. */
module Replies {

  /** An optional value; also used for a parsed path id, where `None` stands
      for the NaN that `parseInt` yields on a non-numeric segment. */
  datatype Option<+T> = None | Some(value: T)

  /** The reply of a handler. */
  datatype Reply<+T> = Ok(value: T) | BadRequest(message: string) | NotFound(message: string)
  {
    /** True for the two error replies. */
    predicate IsError() {
      !Ok?
    }
  }

  /** Applies `f` to the value of a successful reply and keeps errors as they are. */
  function MapReply<T, U>(r: Reply<T>, f: T -> U): Reply<U> {
    match r
    case Ok(v) => Ok(f(v))
    case BadRequest(m) => BadRequest(m)
    case NotFound(m) => NotFound(m)
  }

  /** The text bodies the service sends with its error replies and with the
      mark-all-complete confirmation. */
  const TaskRequiredText: string := "Task is required."
  const InvalidPriorityText: string := "Invalid priority value."
  const NotFoundText: string := "To-Do item not found"
  const CompletedAllText: string := "All to-do items marked as completed."
}
