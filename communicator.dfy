/** The communicator node: asks the language model for a message (or uses a
    fixed template when that fails), pushes it to the user, then tries to
    record the intervention; a failed record is ignored. */
module Communicator {
  import opened Common
  import opened Wire
  import opened AgentState

  /** One line of the message-writing prompt, kept structured. The state
      keys are always present, so the 'UNKNOWN' and 'N/A' defaults the source
      gives them never show; a None shows as 'None'. */
  datatype MessageLine =
    | RiskLine(risk: Option<string>)                  // Risk level: {v}
    | ReasoningLine(reasoning: Option<string>)        // Clinical reasoning: {v}
    | InterventionLine(action: Option<string>)        // Intervention type: {v}
    | CurrentGlucoseLine(glucose: Option<int>)        // Current glucose: {v} mmol/L
    | PlaceLine(location: Option<string>)             // Location: {v}
    | UpcomingActivityLine(activity: ActivityDict)    // Upcoming activity: {dict}

  /** Five lines always, and a sixth with the upcoming activity exactly when
      the record holds a non-empty activity dict. */
  function BuildCommunicatorPrompt(s: State): (lines: seq<MessageLine>)
    ensures |lines| == 5 || |lines| == 6
    ensures lines[0] == RiskLine(s.riskLevel) && lines[1] == ReasoningLine(s.reasoningSummary)
      && lines[2] == InterventionLine(s.interventionAction)
      && lines[3] == CurrentGlucoseLine(s.task.currentGlucose) && lines[4] == PlaceLine(s.locationContext)
    ensures |lines| == 6 <==> s.upcomingActivity.Some? && s.upcomingActivity.value.Truthy()
    ensures |lines| == 6 ==> lines[5] == UpcomingActivityLine(s.upcomingActivity.value)
  {
    var base := [RiskLine(s.riskLevel), ReasoningLine(s.reasoningSummary),
                 InterventionLine(s.interventionAction),
                 CurrentGlucoseLine(s.task.currentGlucose), PlaceLine(s.locationContext)];
    if s.upcomingActivity.Some? && s.upcomingActivity.value.Truthy()
    then base + [UpcomingActivityLine(s.upcomingActivity.value)]
    else base
  }

  const TemplateHead: string := "您当前血糖 "
  const TemplateTail: string := " mmol/L，建议适当补充碳水化合物。"

  /** The glucose as the template shows it: the task's value, or N/A. */
  function GlucoseShown(glucose: Option<int>): string {
    match glucose
    case Some(g) => CentiText(g)
    case None => "N/A"
  }

  /** The template used when the model cannot be reached. */
  function FallbackMessage(glucose: Option<int>): string {
    TemplateHead + GlucoseShown(glucose) + TemplateTail
  }

  /** The JSON of the three reflector fields saved with the intervention. */
  datatype Decision = Decision(riskLevel: Option<string>, reasoningSummary: Option<string>, interventionAction: Option<string>)

  /** A row of the intervention log. */
  datatype InterventionRecord = InterventionRecord(
    userId: string,
    triggeredAt: Time,
    triggerType: Option<string>,
    decision: Decision,
    messageSent: string)

  /** The record the audit log would hold, or None when building it fails:
      a `trigger_at` that does not parse raises inside the guarded block. A
      missing `trigger_at` takes the current time. */
  function InterventionRecordFor(s: State, message: string, now: Time): (r: Option<InterventionRecord>)
    ensures r.None? <==> s.task.triggerAt == Some(Malformed)
    ensures r.Some? ==>
      r.value.userId == s.userId && r.value.messageSent == message
      && r.value.triggerType == s.task.triggerType
      && r.value.triggeredAt == (if s.task.triggerAt.None? then now else s.task.triggerAt.value.t)
      && r.value.decision == Decision(s.riskLevel, s.reasoningSummary, s.interventionAction)
  {
    var at := match s.task.triggerAt
      case None => Some(now)
      case Some(Iso(t)) => Some(t)
      case Some(Malformed) => None;
    if at.None? then None
    else Some(InterventionRecord(
      s.userId, at.value, s.task.triggerType,
      Decision(s.riskLevel, s.reasoningSummary, s.interventionAction), message))
  }

  datatype CommunicatorOutput = CommunicatorOutput(
    update: Update,
    prompt: seq<MessageLine>,
    pushedTo: string,
    message: string,
    logged: Option<InterventionRecord>)

  /** The node. `reply` is the model's stripped text, None when the call
      fails; `logStored` is whether the database accepts the record. It never
      raises: the push always goes out, and a failure while logging is
      swallowed. */
  function CommunicatorNode(s: State, reply: Option<string>, logStored: bool, now: Time)
    : (r: CommunicatorOutput)
    ensures r.prompt == BuildCommunicatorPrompt(s)
    ensures r.update == NotificationFields(r.message)
    ensures r.pushedTo == s.userId
    ensures reply.Some? ==> r.message == reply.value
    ensures reply.None? ==> r.message == FallbackMessage(s.task.currentGlucose)
    ensures r.logged.Some? <==> logStored && s.task.triggerAt != Some(Malformed)
    ensures r.logged.Some? ==> r.logged == InterventionRecordFor(s, r.message, now)
  {
    var message := if reply.Some? then reply.value else FallbackMessage(s.task.currentGlucose);
    CommunicatorOutput(
      NotificationFields(message), BuildCommunicatorPrompt(s), s.userId, message,
      if logStored then InterventionRecordFor(s, message, now) else None)
  }

  /** When the model is down, the message still names the glucose reading. */
  lemma FallbackNamesGlucose(s: State, now: Time, logStored: bool)
    ensures Contains(CommunicatorNode(s, None, logStored, now).message, GlucoseShown(s.task.currentGlucose))
  {
    ContainsInConcat(TemplateHead, GlucoseShown(s.task.currentGlucose), TemplateTail);
  }

  /** Example: for a reading of 4.8 mmol/L the template reads
      "您当前血糖 4.8 mmol/L，建议适当补充碳水化合物。". */
  lemma FallbackExample()
    ensures FallbackMessage(Some(480)) == TemplateHead + "4.8" + TemplateTail
  {
    assert DigitChar(4) == '4' && DigitChar(8) == '8';
    assert NatText(4) == "4";
    assert CentiText(480) == "4" + "." + "8";
  }
}
