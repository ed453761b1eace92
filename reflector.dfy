/** The reflector node: builds the risk-assessment prompt from the task and
    the investigator's fields, asks the language model, and keeps its three
    answers or, on any failure, a fixed rule-based assessment. */
module Reflector {
  import opened Common
  import opened Wire
  import opened AgentState

  /** One line of the assessment prompt, kept structured. A task key that is
      missing shows as 'N/A' (the upcoming activity's type as 'unknown'); a
      state key is always present, so a None there shows as 'None'. */
  datatype PromptLine =
    | GlucoseLine(glucose: Option<int>)              // Current glucose: {v} mmol/L
    | HeartRateLine(heartRate: Option<int>)          // Current heart rate: {v} bpm
    | TriggerLine(triggerType: Option<string>)       // Trigger type: {v}
    | LocationLine(location: Option<string>)         // Location: {v}
    | HistoryLine(count: nat, records: seq<GlucoseRecord>)
    | UpcomingLine(kind: Option<string>, probability: Option<int>, avgDrop: Option<int>)
    | DropsLine(drops: seq<int>)

  /** Python truthiness of the three optional fields. */
  predicate HasHistory(s: State) {
    s.glucoseHistory24h.Some? && s.glucoseHistory24h.value != []
  }

  predicate HasUpcoming(s: State) {
    s.upcomingActivity.Some? && s.upcomingActivity.value.Truthy()
  }

  predicate HasDrops(s: State) {
    s.recentExerciseGlucoseDrops.Some? && s.recentExerciseGlucoseDrops.value != []
  }

  /** The optional lines: each appears only when its field is truthy. */
  function HistoryLines(s: State): seq<PromptLine> {
    if HasHistory(s) then [HistoryLine(|s.glucoseHistory24h.value|, s.glucoseHistory24h.value)] else []
  }

  function UpcomingLines(s: State): seq<PromptLine> {
    if HasUpcoming(s)
    then
      var a := s.upcomingActivity.value;
      [UpcomingLine(a.kind, a.probability, a.avgDrop)]
    else []
  }

  function DropsLines(s: State): seq<PromptLine> {
    if HasDrops(s) then [DropsLine(s.recentExerciseGlucoseDrops.value)] else []
  }

  /** The prompt: four lines always, then the history, upcoming-activity and
      drops lines, in that order, each when there is something to show. */
  function BuildUserPrompt(s: State): (lines: seq<PromptLine>)
    ensures 4 <= |lines| <= 7
    ensures lines[0] == GlucoseLine(s.task.currentGlucose)
      && lines[1] == HeartRateLine(s.task.currentHr)
      && lines[2] == TriggerLine(s.task.triggerType)
      && lines[3] == LocationLine(s.locationContext)
  {
    [GlucoseLine(s.task.currentGlucose), HeartRateLine(s.task.currentHr),
     TriggerLine(s.task.triggerType), LocationLine(s.locationContext)]
    + HistoryLines(s) + UpcomingLines(s) + DropsLines(s)
  }

  /** Each optional line is in the prompt exactly when its field is truthy,
      and they come in the order history, upcoming activity, drops. */
  lemma PromptShowsTruthyFields(s: State)
    ensures var lines := BuildUserPrompt(s);
      && ((exists i :: 4 <= i < |lines| && lines[i].HistoryLine?) <==> HasHistory(s))
      && ((exists i :: 4 <= i < |lines| && lines[i].UpcomingLine?) <==> HasUpcoming(s))
      && ((exists i :: 4 <= i < |lines| && lines[i].DropsLine?) <==> HasDrops(s))
    ensures var lines := BuildUserPrompt(s);
      forall i, j :: 4 <= i < j < |lines| ==>
        !(lines[j].HistoryLine? && !lines[i].HistoryLine?) && !(lines[i].DropsLine? && !lines[j].DropsLine?)
  {
    var lines := BuildUserPrompt(s);
    var h, u, d := HistoryLines(s), UpcomingLines(s), DropsLines(s);
    assert forall i :: 4 <= i < |lines| ==>
      (lines[i].HistoryLine? <==> i < 4 + |h|)
      && (lines[i].UpcomingLine? <==> 4 + |h| <= i < 4 + |h| + |u|)
      && (lines[i].DropsLine? <==> 4 + |h| + |u| <= i);
    assert h != [] ==> lines[4].HistoryLine?;
    assert u != [] ==> lines[4 + |h|].UpcomingLine?;
    assert d != [] ==> lines[4 + |h| + |u|].DropsLine?;
  }

  /** The model's reply: the call failed, the text was not JSON, or it
      decoded to a JSON object (whose values are taken to be strings) or to
      some other JSON value. */
  datatype Json = JObject(fields: map<string, string>) | JOther
  datatype ClassifierReply = CallFailed | NotJson | Decoded(json: Json)

  const FallbackRisk: string := "MEDIUM"
  const FallbackReasoning: string := "LLM 不可用，执行规则兜底"
  const FallbackAction: string := "SOFT_REMIND"

  const FallbackAssessment: Update := AssessmentFields(FallbackRisk, FallbackReasoning, FallbackAction)

  predicate Parsed(reply: ClassifierReply) {
    reply.Decoded? && reply.json.JObject?
    && "risk_level" in reply.json.fields
    && "reasoning_summary" in reply.json.fields
    && "intervention_action" in reply.json.fields
  }

  datatype ReflectorOutput = ReflectorOutput(update: Update, prompt: seq<PromptLine>)

  /** The node never raises: it returns the three parsed fields, unchanged
      and unvalidated, or the fallback when the call fails, the reply is not
      JSON, is not an object or lacks a key. */
  function ReflectorNode(s: State, reply: ClassifierReply): (r: ReflectorOutput)
    ensures r.prompt == BuildUserPrompt(s)
    ensures r.update.AssessmentFields?
    ensures !Parsed(reply) ==> r.update == FallbackAssessment
    ensures Parsed(reply) ==>
      var m := reply.json.fields;
      r.update == AssessmentFields(m["risk_level"], m["reasoning_summary"], m["intervention_action"])
  {
    var prompt := BuildUserPrompt(s);
    if Parsed(reply) then
      var m := reply.json.fields;
      ReflectorOutput(AssessmentFields(m["risk_level"], m["reasoning_summary"], m["intervention_action"]), prompt)
    else ReflectorOutput(FallbackAssessment, prompt)
  }

  /** The fallback explains itself as the rule-based path and asks for a
      soft reminder, so a model outage never silences the workflow. */
  lemma FallbackIsRuleBased()
    ensures Contains(FallbackReasoning, "规则兜底")
    ensures FallbackAction != "NO_ACTION"
  {
    ContainsInConcat("LLM 不可用，执行", "规则兜底", "");
    assert "LLM 不可用，执行" + "规则兜底" + "" == FallbackReasoning;
  }

  /** The history service writes `avg_glucose_drop`, never `avg_drop`, so
      for the activity it reports the prompt's average drop is always N/A. */
  lemma UpcomingDropAlwaysMissing(s: State)
    requires HasUpcoming(s) && s.upcomingActivity.value.avgDrop.None?
    ensures var a := s.upcomingActivity.value;
      exists i :: (4 <= i < |BuildUserPrompt(s)|
        && BuildUserPrompt(s)[i] == UpcomingLine(a.kind, a.probability, None))
  {
    var lines := BuildUserPrompt(s);
    assert lines[4 + |HistoryLines(s)|] == UpcomingLine(s.upcomingActivity.value.kind, s.upcomingActivity.value.probability, None);
  }
}
