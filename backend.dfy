/**
 * What a handler learns from the language-model backend, and what it sends
 * back to its own client.  The HTTP calls themselves are not modelled: each
 * is represented by the outcome the handler observes.
 */
module Backend {
  import opened Text
  import opened Request

  /** The HTTP response carried by a failed call (`error.response`). */
  datatype BackendReply = BackendReply(
    status: int,
    /** `error.response.data`, the parsed body. */
    data: Field,
    /** `error.response.data?.error`: the body's `error` property, `Missing` when there is none. */
    dataError: Field)

  /**
   * A thrown error as the `catch` blocks inspect it.  `code` is the Node.js
   * system error code (`ECONNREFUSED`, …) when there is one, `response` the
   * backend's reply when one arrived, `requested` whether a request went out
   * without a reply (`error.request`), and `message` the error's message.
   */
  datatype ErrorInfo = ErrorInfo(code: Option<string>, response: Option<BackendReply>, requested: bool, message: string)

  /** The error a `TypeError` thrown by the handler's own code presents. */
  function TypeError(message: string): (e: ErrorInfo)
    ensures e.code.None? && e.response.None? && !e.requested && e.message == message
  {
    ErrorInfo(None, None, false, message)
  }

  /**
   * The generation call: it answered with body `data`, whose `response`
   * property is `response` (`Missing` when `data` has none), or it threw.
   */
  datatype CallOutcome = Answered(data: Field, response: Field) | Threw(error: ErrorInfo)

  /** The model both handlers ask for. */
  const ModelName: string := "deepseek-r1:14b"

  /** The JSON body posted to the generation endpoint: `{ model, prompt, stream }`. */
  datatype Generation = Generation(model: string, prompt: Field, stream: bool)

  /** The connection probe that precedes the call. */
  datatype Probe = Reachable | Unreachable

  /** The JSON body of a reply: `{ response }` or `{ error, details }` (`details` omitted when `Missing`). */
  datatype ReplyBody = Answer(response: Field) | Failure(error: string, details: Field)

  datatype Reply = Reply(status: int, body: ReplyBody)
}
