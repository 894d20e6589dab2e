/** Small value wrappers shared by the whole model. */
module Wrappers {

  /** A value that may be absent: a missing query parameter, a lookup that found nothing. */
  datatype Option<+T> = None | Some(value: T)

  /** What a request handler sends back: a success with its HTTP status, the
      message of the response (empty when the source sends none) and its data,
      or a failure with its HTTP status and the message shown to the client. */
  datatype Reply<+T> =
    | Ok(status: nat, message: string, data: T)
    | Err(status: nat, message: string)
}
