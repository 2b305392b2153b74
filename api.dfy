/** Records shared by both request handlers of the code-execution service:
    the request and response bodies of POST /execute, what a handler hands
    back to the web framework, and the shapes in which the hosted sandbox
    SDK (kept abstract, as an oracle) reports a result or an exception. */
module Api {

  datatype Option<+T> = None | Some(value: T)

  /** Body of POST /execute. `timeout` is an optional integer: a client may
      send `null`, and a missing field takes DefaultTimeout. */
  datatype CodeRequest = CodeRequest(code: string, timeout: Option<int>)

  const DefaultTimeout: int := 30

  /** The request a client gets by sending only the code. */
  function RequestWithDefaults(code: string): CodeRequest
  {
    CodeRequest(code, Some(DefaultTimeout))
  }

  /** Response body of POST /execute (the elapsed-time field is not modelled). */
  datatype CodeResponse = CodeResponse(success: bool, output: string, error: Option<string>)

  function Succeeded(output: string): CodeResponse
  {
    CodeResponse(true, output, None)
  }

  /** Every failure response carries an empty output and the error text. */
  function Failed(error: string): CodeResponse
  {
    CodeResponse(false, "", Some(error))
  }

  /** What a handler ends with: an HTTP error raised before any work is
      done, or a response body returned with status 200. */
  datatype HandlerResult = HttpError(status: int, detail: string) | Respond(response: CodeResponse)

  const NotConfiguredDetail := "E2B_API_KEY not configured"

  const NotConfigured: HandlerResult := HttpError(500, NotConfiguredDetail)

  /** The API key guard: Python's `not e2b_api_key` holds for an unset
      variable and for an empty one. */
  predicate Configured(apiKey: Option<string>)
  {
    apiKey.Some? && apiKey.value != ""
  }

  /** The captured output of one run: stdout lines and stderr lines, in order. */
  datatype Logs = Logs(stdout: seq<string>, stderr: seq<string>)

  /** What one call into the sandbox SDK gives back: the execution's logs,
      or an `Exception` (which the handlers catch) whose `str(e)` is
      `message`. */
  datatype RunOutcome = Ran(logs: Logs) | Raised(message: string)

  /** An SDK step that returns nothing: it completes, or it raises an
      `Exception`. */
  datatype Completion = Completed | Threw(message: string)
}
