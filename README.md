# e2b-code-execution-api, modelled in Dafny

The service takes a block of code and an optional timeout on `POST /execute`. It
runs the code in a hosted sandbox through a third-party SDK and returns the
captured stdout and stderr as one `output` text. Two handler variants are
modelled, each on its own terms:

- `main.py` (module `FallbackHandler`). It checks the API key first. Then it
  tries three execution targets in a fixed order: the template
  `lnmzb0eecin3qojbvl9j`, the template `genapi`, then the SDK's default sandbox.
  On the default sandbox the submitted code runs after a preamble that installs
  `uv`. The first target that runs wins, and its output gets a note naming the
  target. If all three fail, the last exception is reported with the prefix
  `All templates failed. Last error: `.
- `main_async.py` (module `AsyncHandler`). It checks the API key first. Then it
  makes exactly one attempt on the configured template (default `genapi`). The
  sandbox lives `timeout + 10` seconds and the run gets `timeout` seconds. Any
  `Exception` becomes a failure response carrying `str(e)` unchanged. A sandbox
  that was opened is closed exactly once, on every way out.

The shared pieces are in two modules. `Api` holds the request and response
records, the handler outcome (an HTTP 500 before any work, or a response body)
and the API key guard. `OutputShaping` turns logs into output: stdout lines in
order, then each stderr line prefixed `STDERR: `, joined by `"\n"`, or
`Code executed successfully (no output)` when there are no lines at all.

The sandbox SDK is an oracle given to each handler as a function value:

- In `main.py` one attempt yields the run's logs or the text of an exception.
  An exception while the result is being processed, or while the `with` block
  closes the sandbox, is caught by the same `except`. It is folded into that
  outcome.
- In `main_async.py` the constructor and `open()` each complete or raise, and
  `run_code` yields logs or an exception.

Each handler also returns the trace of what it asked of the SDK. That trace
carries the ordering properties: the key guard comes first, targets are tried
in order, and the close comes last.

The API key and the template id are parameters, not environment reads.
`main.py` never uses the request's timeout, and it reads `E2B_TEMPLATE_ID`
without using it. `FallbackHandler.ExecuteCode` takes no template id, and its
contract does not depend on `request.timeout`.

A failed call does not always carry a non-empty error. In `main.py` the error
has a fixed prefix. In `main_async.py` it is `str(e)` unchanged, which is empty
for an exception raised without a message; `AsyncHandler.EmptyErrorExample`
shows this.

## Model

| member | source | states |
|---|---|---|
| `OutputShaping.Prefixed` | main.py:94 | Every stderr line appears as `"STDERR: " + line`, with the same number of lines in the same order. |
| `OutputShaping.UnprefixedPrefixed` | main.py:94 | Prefixing loses nothing: every prefixed line carries the marker, and stripping it gives back exactly the original stderr lines. |
| `OutputShaping.OutputLines` | main.py:90-94 | The output lines hold all stdout lines first, unchanged and in order. Then come exactly the stderr lines, each prefixed, and nothing else. |
| `OutputShaping.SplitJoinLines` | main.py:96 | `"\n".join` keeps every line and their order: splitting the joined text on `"\n"` gives the lines back for a non-empty list when none holds a newline (an empty list joins to `""`, which splits to `[""]`). |
| `OutputShaping.ShapeOutput` | main.py:96 | Logs with no lines give the fixed no-output message. Otherwise the output starts with the first stdout line, or with the first prefixed stderr line when stdout is empty. |
| `OutputShaping.JoinAppend` | main.py:96 | For any two non-empty runs of lines, whatever they hold (newlines included), joining them all is joining each run with exactly one `"\n"` between the two. |
| `OutputShaping.ShapeOutputParts` | main_async.py:62-69 | For all logs: the output is the joined stdout lines, then one `"\n"`, then the joined `STDERR: `-prefixed stderr lines; when one stream is empty the output is the other part alone. |
| `OutputShaping.ShapeOutputLines` | main_async.py:62-69 | When no captured line holds a newline, the output text splits back into exactly the stdout lines followed by the prefixed stderr lines. |
| `FallbackHandler.EnhancedCode` | main.py:67-84 | The default-sandbox program is the fixed preamble, then the submitted code verbatim, then a newline, so the code can be read back unchanged. |
| `FallbackHandler.FirstSuccess` | main.py:58-110 | The chosen index is the first target whose attempt runs. Every earlier attempt raised, and the index is the list length when all attempts raise. |
| `FallbackHandler.ExecuteCode` | main.py:40-118 | Without an API key (`Api.Configured`: unset or `""`, main.py:44) the result is HTTP 500 `E2B_API_KEY not configured` and no target is tried. Otherwise the targets tried are a prefix of the fixed order, and all but the last of them raised. Each attempt is `Attempt`: a named target starts `Sandbox(template=...)` with the code unchanged, the default target starts `Sandbox()` with `EnhancedCode` (`SandboxTemplate`, `CodeFor`, main.py:60-65,85). The first success returns `success=True` with the shaped output plus `Suffix`: ` (using <description>)` for a named target, ` (using default template with uv)` for the default one (main.py:99); nothing after it is tried. If all three fail, every target has been tried and the result is `success=False`, `output=""` and the error `All templates failed. Last error: ` + the last message. `success` holds exactly when some target runs. |
| `AsyncHandler.ExecuteCode` | main_async.py:40-88 | Without an API key (`Api.Configured`: unset or `""`, main_async.py:44) the result is HTTP 500 and no SDK call is made. A null timeout fails with Python's TypeError text before any sandbox exists. Otherwise the first and only create call asks for `TemplateOrDefault(templateId)` (main_async.py:47): `genapi` only when `E2B_TEMPLATE_ID` is unset, and `""` when it is set to `""`, with lifetime `timeout + 10`, and the run gets `timeout`. Each raised exception gives `success=False`, `output=""` and its text unchanged. A successful run gives the shaped output with no suffix. The sandbox is never left open. A close is made exactly when the sandbox was opened; it is the last call, and there is at most one. |
| `AsyncHandler.DefaultTimeouts` | main_async.py:54-58 | With the default timeout of 30 (main_async.py:26), the sandbox is created with lifetime 40, and an opened sandbox runs the code with timeout 30. |
| `AsyncHandler.EmptyErrorExample` | main_async.py:79-84 | The error text is `str(e)` with no prefix, so an exception without a message yields a failure response whose error is empty. |

## Left out

- The hosted sandbox SDK itself: what a run prints, and how a sandbox is created, opened, isolated and closed. It is an oracle parameter of each handler.
- `execution_time` and the clocks behind it: floating-point wall-clock values that depend on the environment.
- Async suspension in `main_async.py`: each request runs on its own, and the awaits carry no shared state, so the handler is sequential.
- FastAPI routing, Pydantic validation, the constant `/health` and `/` endpoints, `create_app`, the unused WSGI middleware import and the uvicorn entry point: framework and deployment plumbing.
- `os.getenv` and `load_dotenv`: the API key and the template id are parameters.
- What the `uv` preamble does at run time inside the sandbox: only how it embeds the submitted code is modelled.
- An exception raised by `close()` in `main_async.py`'s `finally` clause: the SDK's `close()` is assumed to complete. If it raised, the exception would replace the returned response.
- A failed `open()` is assumed to leave `is_open` false, and a sandbox stays open until it is closed. `is_open` belongs to the SDK and is not visible here.
- Exceptions that are not `Exception` subclasses (for example `asyncio.CancelledError` at an await, `KeyboardInterrupt`, `SystemExit`): neither handler catches them (main.py:107, main_async.py:77), and the request ends without a response. `main.py` then skips the remaining targets, and `main_async.py` still closes an open sandbox in its `finally` clause before the exception propagates. The oracles yield only exceptions the handlers catch.
- `test_api.py`: a live HTTP client script with no assertions.
