/** Shared vocabulary of the backend and the client: ids, optional request fields,
    JavaScript truthiness and handler outcomes. */
module Common {

  /** A document id (a MongoDB ObjectId). How ids are generated is abstracted:
      the backend model draws fresh ones from a counter. */
  type Id = nat

  datatype Option<+T> = None | Some(value: T)

  /** JavaScript truthiness of an optional string field of a request body:
      a missing field (`undefined`) and the empty string are falsy, every other
      string (including one made only of spaces) is truthy. */
  predicate Truthy(s: Option<string>) {
    s.Some? && s.value != ""
  }

  /** `a || b` on optional strings, as in `req.body.name || project.name`. */
  function Or(a: Option<string>, b: Option<string>): Option<string> {
    if Truthy(a) then a else b
  }

  /** Why a handler failed.
      HttpError: the handler set `res.status(code)` before it threw (or returned
      early with a JSON message); the message is the one it attached.
      Unhandled: an error was thrown without any status being set (a schema
      validation error, a null dereference); the error middleware, which is not
      part of this model, decides what the client finally receives. */
  datatype Failure = HttpError(code: nat, message: string) | Unhandled

  /** Outcome of one request: a success status with its JSON payload, or a failure. */
  datatype Response<+T> = Ok(code: nat, body: T) | Err(failure: Failure)
}
