/** The synchronous POST /execute handler (main.py): after the API key
    guard it tries three execution targets in a fixed order, answers with
    the output of the first one that runs, and reports the last target's
    exception when all of them fail. */
module FallbackHandler {
  import opened Api
  import opened OutputShaping

  /** An execution target: the sandbox template to start (None stands for
      the SDK's default sandbox) and the description the output names. */
  datatype Target = Target(template: Option<string>, description: string)

  /** The targets, in the order they are tried. */
  const Targets: seq<Target> := [
    Target(Some("lnmzb0eecin3qojbvl9j"), "custom template with uv"),
    Target(Some("genapi"), "custom template by name"),
    Target(None, "default template")
  ]

  const AllFailedPrefix := "All templates failed. Last error: "

  const DefaultSuffix := " (using default template with uv)"

  /** The script put in front of the submitted code on the default sandbox
      (it makes sure the `uv` tool is installed before the code runs). */
  const UvPreamble :=
    "\n# Check if uv is available, install if not\nimport subprocess\nimport sys\n\ntry:\n"
    + "    subprocess.run([\"uv\", \"--version\"], check=True, capture_output=True)\n"
    + "    print(\"\U{2705} uv is available\")\n"
    + "    uv_available = True\n"
    + "except (subprocess.CalledProcessError, FileNotFoundError):\n"
    + "    print(\"\U{1F4E6} Installing uv...\")\n"
    + "    subprocess.run([sys.executable, \"-m\", \"pip\", \"install\", \"uv\"], check=True)\n"
    + "    print(\"\U{2705} uv installed successfully\")\n"
    + "    uv_available = True\n\n# Execute user code\n"

  /** Python's `if template:`, which is false for None and for "". */
  predicate Named(t: Target)
  {
    t.template.Some? && t.template.value != ""
  }

  /** The program the default sandbox runs: the preamble, then the
      submitted code verbatim, then a newline. */
  function EnhancedCode(code: string): (r: string)
    ensures |r| == |UvPreamble| + |code| + 1
    ensures r[..|UvPreamble|] == UvPreamble
    ensures r[|UvPreamble|..|r| - 1] == code
    ensures r[|r| - 1] == '\n'
  {
    UvPreamble + code + "\n"
  }

  /** The template argument of the Sandbox call for a target. */
  function SandboxTemplate(t: Target): Option<string>
  {
    if Named(t) then t.template else None
  }

  /** The program sent to a target's sandbox. */
  function CodeFor(t: Target, code: string): string
  {
    if Named(t) then code else EnhancedCode(code)
  }

  /** The hosted sandbox SDK, as an oracle: given the template (None for
      the default sandbox) and the program, the logs of the run or the
      exception raised anywhere in one attempt. */
  type Sdk = (Option<string>, string) -> RunOutcome

  /** What trying target t with the submitted code gives. */
  function Attempt(t: Target, code: string, run: Sdk): RunOutcome
  {
    run(SandboxTemplate(t), CodeFor(t, code))
  }

  /** The note appended to a successful output, naming the target used. */
  function Suffix(t: Target): string
  {
    if Named(t) then " (using " + t.description + ")" else DefaultSuffix
  }

  /** The index of the first target in ts whose attempt runs, or |ts| when
      every attempt raises. */
  function FirstSuccess(ts: seq<Target>, code: string, run: Sdk): (k: nat)
    ensures k <= |ts|
    ensures forall j :: 0 <= j < k ==> Attempt(ts[j], code, run).Raised?
    ensures k < |ts| ==> Attempt(ts[k], code, run).Ran?
  {
    if ts == [] then 0
    else if Attempt(ts[0], code, run).Ran? then 0
    else 1 + FirstSuccess(ts[1..], code, run)
  }

  /** The handler. `tried` lists the targets for which a sandbox was
      requested, in order. The request's timeout and the configured
      template id play no part here. */
  method ExecuteCode(request: CodeRequest, apiKey: Option<string>, run: Sdk)
    returns (result: HandlerResult, tried: seq<Target>)
    ensures !Configured(apiKey) ==> result == NotConfigured && tried == []
    ensures Configured(apiKey) ==> 1 <= |tried| <= |Targets| && tried == Targets[..|tried|]
    ensures Configured(apiKey) ==>
      forall j :: 0 <= j < |tried| - 1 ==> Attempt(tried[j], request.code, run).Raised?
    ensures Configured(apiKey) ==>
      var k := FirstSuccess(Targets, request.code, run);
      if k < |Targets| then
        tried == Targets[..k + 1] &&
        result == Respond(Succeeded(ShapeOutput(Attempt(Targets[k], request.code, run).logs) + Suffix(Targets[k])))
      else
        tried == Targets &&
        result == Respond(Failed(AllFailedPrefix + Attempt(Targets[|Targets| - 1], request.code, run).message))
    ensures Configured(apiKey) ==>
      result.Respond? &&
      (result.response.success <==>
        exists j :: 0 <= j < |Targets| && Attempt(Targets[j], request.code, run).Ran?)
  {
    if !Configured(apiKey) {
      return NotConfigured, [];
    }
    tried := [];
    var i := 0;
    while i < |Targets|
      invariant 0 <= i < |Targets|
      invariant tried == Targets[..i]
      invariant forall j :: 0 <= j < i ==> Attempt(Targets[j], request.code, run).Raised?
    {
      var target := Targets[i];
      tried := tried + [target];
      var outcome := run(SandboxTemplate(target), CodeFor(target, request.code));
      if outcome.Ran? {
        var output := ShapeOutput(outcome.logs);
        return Respond(Succeeded(output + Suffix(target))), tried;
      }
      if target.template != Targets[|Targets| - 1].template {
        i := i + 1;
        continue;
      }
      return Respond(Failed(AllFailedPrefix + outcome.message)), tried;
    }
  }
}
