/** Shapes shared by the backend handlers: optional values, user identifiers
    and the replies a handler sends back through the HTTP response. */
module Common {

  /** The conventional Some/None datatype; also stands for a JSON field that
      may be `undefined`. */
  datatype Option<+T> = None | Some(value: T)

  /** Identifier of a user, as carried in a token's `userId` claim and in a
      task's owner column. The store hands them out, so any value will do. */
  type UserId = nat

  /** An error reply: the HTTP status code and the `error` text of the JSON body. */
  datatype Failure = Failure(code: nat, message: string)

  /** What a handler sends: a success code with its JSON body, or an error. */
  datatype Response<+T> = Ok(code: nat, body: T) | Err(failure: Failure)
}
