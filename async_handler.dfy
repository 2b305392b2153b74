/** The asynchronous POST /execute handler (main_async.py): after the API
    key guard it makes exactly one attempt on the configured template,
    turns any `Exception` into a failure response, and closes the sandbox on
    every way out once it is open. The awaits have no effect of their own
    here, so the handler is modelled as a sequential method. */
module AsyncHandler {
  import opened Api
  import opened OutputShaping

  const DefaultTemplate := "genapi"

  /** Extra seconds the sandbox outlives the run timeout. */
  const LifetimeMargin: int := 10

  /** `str(e)` of the TypeError Python raises for `None + 10`. */
  const NoneTimeoutError := "unsupported operand type(s) for +: 'NoneType' and 'int'"

  /** `os.getenv("E2B_TEMPLATE_ID", "genapi")`: the default only when the
      variable is unset; a variable set to "" gives "". */
  function TemplateOrDefault(templateId: Option<string>): string
  {
    if templateId.Some? then templateId.value else DefaultTemplate
  }

  /** The handler's `sandbox` variable: still None, or the SDK object,
      whose `is_open` flag is all the handler looks at. */
  datatype SandboxSlot = NoSandbox | Sandbox(template: string, lifetime: int, isOpen: bool)

  /** A call the handler makes into the SDK. */
  datatype SdkCall = Create(template: string, lifetime: int) | Open | RunCode(code: string, timeout: int) | Close

  /** The SDK as an oracle: whether the constructor raises, whether
      `open()` raises, and what `run_code` gives. `close()` always
      completes. */
  datatype AsyncSdk = AsyncSdk(
    create: (string, int) -> Completion,
    open: (string, int) -> Completion,
    runCode: (string, string, int) -> RunOutcome)

  /** True when the SDK lets the sandbox be built and opened. */
  predicate Opens(sdk: AsyncSdk, template: string, lifetime: int)
  {
    sdk.create(template, lifetime).Completed? && sdk.open(template, lifetime).Completed?
  }

  /** The last call closes the sandbox. */
  predicate ClosesLast(calls: seq<SdkCall>)
  {
    |calls| > 0 && calls[|calls| - 1] == Close
  }

  /** The response made from the single run's outcome. */
  function RunResponse(outcome: RunOutcome): CodeResponse
  {
    match outcome
    case Ran(logs) => Succeeded(ShapeOutput(logs))
    case Raised(message) => Failed(message)
  }

  /** The handler. `sandbox` is the variable's value when the handler
      returns, `calls` the SDK calls it made, in order. */
  method ExecuteCode(request: CodeRequest, apiKey: Option<string>, templateId: Option<string>, sdk: AsyncSdk)
    returns (result: HandlerResult, sandbox: SandboxSlot, calls: seq<SdkCall>)
    // the key is checked before anything else happens
    ensures !Configured(apiKey) ==> result == NotConfigured && sandbox == NoSandbox && calls == []
    ensures calls != [] ==> Configured(apiKey)
    // a null timeout fails the `+ 10` before any sandbox is asked for
    ensures Configured(apiKey) && request.timeout.None? ==>
      result == Respond(Failed(NoneTimeoutError)) && sandbox == NoSandbox && calls == []
    ensures Configured(apiKey) && request.timeout.Some? ==>
      var template := TemplateOrDefault(templateId);
      var lifetime := request.timeout.value + LifetimeMargin;
      calls != [] && calls[0] == Create(template, lifetime) &&
      match sdk.create(template, lifetime)
      case Threw(m) =>
        result == Respond(Failed(m)) && sandbox == NoSandbox && calls == [Create(template, lifetime)]
      case Completed =>
        match sdk.open(template, lifetime)
        case Threw(m) =>
          result == Respond(Failed(m)) && sandbox == Sandbox(template, lifetime, false) &&
          calls == [Create(template, lifetime), Open]
        case Completed =>
          result == Respond(RunResponse(sdk.runCode(template, request.code, request.timeout.value))) &&
          sandbox == Sandbox(template, lifetime, false) &&
          calls == [Create(template, lifetime), Open, RunCode(request.code, request.timeout.value), Close]
    // one attempt at most, and a sandbox never outlives the handler
    ensures forall i :: 0 < i < |calls| ==> !calls[i].Create?
    ensures sandbox.NoSandbox? || !sandbox.isOpen
    ensures forall i :: 0 <= i < |calls| - 1 ==> calls[i] != Close
    ensures ClosesLast(calls) <==>
      Configured(apiKey) && request.timeout.Some? &&
      Opens(sdk, TemplateOrDefault(templateId), request.timeout.value + LifetimeMargin)
    // a failure response never carries output
    ensures result.Respond? && !result.response.success ==> result.response.output == ""
  {
    sandbox := NoSandbox;
    calls := [];
    if !Configured(apiKey) {
      return NotConfigured, sandbox, calls;
    }
    var template := TemplateOrDefault(templateId);
    // the try block; `raised` holds the exception that leaves it, if any
    var raised: Option<string> := None;
    var response: CodeResponse;
    if request.timeout.None? {
      raised := Some(NoneTimeoutError);
    } else {
      var lifetime := request.timeout.value + LifetimeMargin;
      calls := calls + [Create(template, lifetime)];
      var created := sdk.create(template, lifetime);
      if created.Threw? {
        raised := Some(created.message);
      } else {
        sandbox := Sandbox(template, lifetime, false);
        calls := calls + [Open];
        var opening := sdk.open(template, lifetime);
        if opening.Threw? {
          raised := Some(opening.message);
        } else {
          sandbox := sandbox.(isOpen := true);
          calls := calls + [RunCode(request.code, request.timeout.value)];
          var outcome := sdk.runCode(template, request.code, request.timeout.value);
          if outcome.Raised? {
            raised := Some(outcome.message);
          } else {
            response := Succeeded(ShapeOutput(outcome.logs));
          }
        }
      }
    }
    // the except clause
    if raised.Some? {
      response := Failed(raised.value);
    }
    // the finally clause
    if sandbox.Sandbox? && sandbox.isOpen {
      calls := calls + [Close];
      sandbox := sandbox.(isOpen := false);
    }
    result := Respond(response);
  }

  /** With the timeout left at its default, the sandbox is asked to live
      40 seconds and the code is given 30. */
  method DefaultTimeouts(code: string, apiKey: Option<string>, templateId: Option<string>, sdk: AsyncSdk)
    returns (calls: seq<SdkCall>)
    requires Configured(apiKey)
    ensures calls != [] && calls[0] == Create(TemplateOrDefault(templateId), 40)
    ensures Opens(sdk, TemplateOrDefault(templateId), 40) ==> |calls| == 4 && calls[2] == RunCode(code, 30)
  {
    var result, sandbox;
    result, sandbox, calls := ExecuteCode(RequestWithDefaults(code), apiKey, templateId, sdk);
  }

  /** An exception raised without a message gives a failure response whose
      error text is empty: the text is passed through with no prefix. */
  method EmptyErrorExample(code: string) returns (result: HandlerResult)
    ensures result == Respond(CodeResponse(false, "", Some("")))
  {
    var sdk := AsyncSdk((t, l) => Completed, (t, l) => Completed, (t, c, n) => Raised(""));
    var sandbox, calls;
    result, sandbox, calls := ExecuteCode(RequestWithDefaults(code), Some("key"), None, sdk);
  }
}
