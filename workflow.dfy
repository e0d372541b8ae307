/**
  The control skeleton of `runWorkflow`: seed the history with the user's
  turn, decide on the tripwire, run exactly one persona on a copy of the
  history, append that persona's new items, and throw when it produced no
  final output.  The guardrail library's result list and the two persona
  runs (`runner.run(agent, history)`) are inputs.
*/
module Workflow {
  import opened Wrappers
  import opened JsValues
  import opened Detectors
  import opened FailReport

  datatype WorkflowInput = WorkflowInput(input_as_text: string)

  /** One of the `newItems` of a run; only its `rawItem` is used. */
  datatype RunItem = RunItem(rawItem: JsValue)

  /** What `runner.run` resolves to. */
  datatype RunResult = RunResult(finalOutput: JsValue, newItems: seq<RunItem>)

  /** A persona run: `runner.run(agent, history)` for one fixed agent. */
  type AgentRun = seq<JsValue> -> RunResult

  datatype Branch = FailBranch | PassBranch

  /** `guardrailsOutput`. */
  datatype GuardrailsOutput =
    | FailOutput(report: GuardrailFailOutput)
    | SafeOutput(safe_text: JsValue)

  /** How the invocation ended: it returns, or it throws. */
  datatype Outcome = Completed | Threw(message: string)

  /** The workflow's local state when it returns or throws. */
  datatype Trace = Trace(
    guardrailsOutput: GuardrailsOutput,
    branch: Branch,
    history: seq<JsValue>,
    outcome: Outcome)

  const AgentResultUndefined := "Agent result is undefined"

  /** The text of a user turn (`role` is `"user"` and `content[0]` is an
      `input_text` part), read back from the item. */
  function UserText(item: JsValue): Option<string> {
    var content := Property(item, "content");
    if Property(item, "role") == Str("user") && content.Arr? && |content.items| > 0 &&
       Property(content.items[0], "type") == Str("input_text") &&
       Property(content.items[0], "text").Str?
    then Some(Property(content.items[0], "text").s)
    else None
  }

  /** `{ role: "user", content: [{ type: "input_text", text }] }`: a user turn
      from which the text reads back unchanged. */
  function UserTurn(text: string): (turn: JsValue)
    ensures Property(turn, "role") == Str("user")
    ensures UserText(turn) == Some(text)
  {
    var part := Obj([("type", Str("input_text")), ("text", Str(text))]);
    assert PropertyOf(part.fields[1..], "text") == Str(text);
    assert Property(part, "type") == Str("input_text") && Property(part, "text") == Str(text);
    var turn := Obj([("role", Str("user")), ("content", Arr([part]))]);
    assert PropertyOf(turn.fields[1..], "content") == Arr([part]);
    assert Property(turn, "role") == Str("user") && Property(turn, "content") == Arr([part]);
    turn
  }

  /** `newItems.map((item) => item.rawItem)`. */
  function RawItems(items: seq<RunItem>): (raw: seq<JsValue>)
    ensures |raw| == |items|
    ensures forall i :: 0 <= i < |items| ==> raw[i] == items[i].rawItem
  {
    seq(|items|, i requires 0 <= i < |items| => items[i].rawItem)
  }

  /** `conversationHistory`: an array that is only ever appended to. */
  class ConversationHistory {
    var items: seq<JsValue>

    constructor (seed: seq<JsValue>)
      ensures items == seed
    {
      items := seed;
    }

    /** `push(...xs)`. */
    method Push(xs: seq<JsValue>)
      modifies this
      ensures items == old(items) + xs
    {
      items := items + xs;
    }
  }

  /** `guardrailsOutput`: the failure report when blocked, otherwise the safe text. */
  function GuardrailsOutputOf(results: Option<seq<DetectorResult>>, input: string): (o: GuardrailsOutput)
    ensures o.FailOutput? <==> GuardrailsHasTripwire(results)
    ensures o.FailOutput? ==> o.report == BuildGuardrailFailOutput(results)
    ensures o.SafeOutput? ==> o.safe_text == SafeText(results, input) && !Nullish(o.safe_text)
  {
    if GuardrailsHasTripwire(results) then FailOutput(BuildGuardrailFailOutput(Some(Items(results))))
    else SafeOutput(Coalesce(SafeText(results, input), Str(input)))
  }

  /** `runWorkflow`. */
  method RunWorkflow(workflow: WorkflowInput, guardrailsResult: Option<seq<DetectorResult>>,
                     runFail: AgentRun, runPass: AgentRun) returns (trace: Trace)
    ensures trace.branch == FailBranch <==> GuardrailsHasTripwire(guardrailsResult)
    ensures trace.guardrailsOutput == GuardrailsOutputOf(guardrailsResult, workflow.input_as_text)
    ensures var seed := [UserTurn(workflow.input_as_text)];
            var run := if trace.branch == FailBranch then runFail(seed) else runPass(seed);
            trace.history == seed + RawItems(run.newItems) &&
            (trace.outcome == Completed <==> Truthy(run.finalOutput)) &&
            (trace.outcome != Completed ==> trace.outcome == Threw(AgentResultUndefined))
  {
    var conversationHistory := new ConversationHistory([UserTurn(workflow.input_as_text)]);
    var guardrailsInputtext := workflow.input_as_text;
    var guardrailsHastripwire := GuardrailsHasTripwire(guardrailsResult);
    var guardrailsAnonymizedtext := GetGuardrailSafeText(guardrailsResult, guardrailsInputtext);
    var guardrailsOutput := if guardrailsHastripwire
                            then FailOutput(BuildGuardrailFailOutput(Some(Items(guardrailsResult))))
                            else SafeOutput(Coalesce(guardrailsAnonymizedtext, Str(guardrailsInputtext)));
    if guardrailsHastripwire {
      var slowdownFailResultTemp := runFail(conversationHistory.items);
      conversationHistory.Push(RawItems(slowdownFailResultTemp.newItems));
      if !Truthy(slowdownFailResultTemp.finalOutput) {
        return Trace(guardrailsOutput, FailBranch, conversationHistory.items, Threw(AgentResultUndefined));
      }
      trace := Trace(guardrailsOutput, FailBranch, conversationHistory.items, Completed);
    } else {
      var slowdownPassResultTemp := runPass(conversationHistory.items);
      conversationHistory.Push(RawItems(slowdownPassResultTemp.newItems));
      if !Truthy(slowdownPassResultTemp.finalOutput) {
        return Trace(guardrailsOutput, PassBranch, conversationHistory.items, Threw(AgentResultUndefined));
      }
      trace := Trace(guardrailsOutput, PassBranch, conversationHistory.items, Completed);
    }
  }

  /** A sensitive-data result that found an e-mail address but did not set its tripwire. */
  const UntrippedEmailDetection := DetectorResult(Bool(false), Bool(false),
    Some(EmptyInfo.(guardrail_name := Str(PiiName),
                    detected_entities := Obj([("EMAIL_ADDRESS", Arr([Str("a@b.c")]))]))))

  /** A sensitive-data detection without its own tripwire does not block:
      the workflow takes the pass branch, even though a failure report built
      from the same results would mark `pii` as failed. */
  lemma UntrippedEntityDoesNotBlock(input: string)
    ensures !GuardrailsHasTripwire(Some([UntrippedEmailDetection]))
    ensures GuardrailsOutputOf(Some([UntrippedEmailDetection]), input) == SafeOutput(Str(input))
    ensures BuildGuardrailFailOutput(Some([UntrippedEmailDetection])).pii.failed
  {
  }

  /** With every detector passing and no sanitized text, the safe text is the
      user's input unchanged. */
  lemma CleanInputPassesUnchanged(input: string)
    ensures var clean := DetectorResult(Bool(false), Bool(false), Some(EmptyInfo));
            GuardrailsOutputOf(Some([clean, clean]), input) == SafeOutput(Str(input))
  {
  }
}
