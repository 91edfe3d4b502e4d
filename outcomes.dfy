/**
 * Outcome types shared by the handler's steps. Go reports a failure as a
 * second `error` return value; here a step returns a `Result` instead.
 */
module Outcomes {

  datatype Option<+T> = None | Some(value: T)

  datatype Result<+R, +E> = Success(value: R) | Failure(error: E)

  /**
   * The errors the handler can meet. Go formats each into a message that is
   * only written to the log; the reply to the caller never carries it, so the
   * model keeps the cause and the data the message would show.
   */
  datatype Error =
    | DecodeError(msg: string)         // the request body is not the expected JSON
    | CsvError(msg: string)            // the CSV reader rejected the text
    | TransportError(msg: string)      // building, sending or reading an outbound request failed
    | UnmarshalError(msg: string)      // "error unmarshaling response: %v"
    | NoTranslation                    // "no translation found in response"
    | StatusError(code: int, body: string)  // "received non-200 status code: %d, body: %s"
}
