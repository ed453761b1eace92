/** The investigation workflow as a state machine: investigator, then
    reflector, then the communicator unless the assessment says NO_ACTION.
    A run merges each node's partial dict into the record and collects the
    external effects in order. */
module Graph {
  import opened Common
  import opened Wire
  import opened AgentState
  import opened Investigator
  import opened Reflector
  import opened Communicator
  import WP = WeeklyPatterns
  import PH = PatientHistory

  datatype Node = Investigate | Reflect | Communicate | End

  const EntryNode: Node := Investigate
  const NoAction: string := "NO_ACTION"

  /** The number of node executions after which the graph runtime gives up
      (its default recursion limit). */
  const RecursionLimit: nat := 25

  /** What the outside world answers during a run: the two context calls,
      the assessment model, the message model (None when it fails), whether
      the intervention log accepts a record, and the clock. */
  datatype Env = Env(
    location: HttpOutcome<LocationReply>,
    history: HttpOutcome<HistoryReply>,
    assessment: ClassifierReply,
    message: Option<string>,
    logStored: bool,
    now: Time)

  /** External effects, in the order they happen. */
  datatype Event =
    | LocationRequested(location: LocationRequest)
    | HistoryRequested(history: HistoryRequest)
    | AssessmentRequested(prompt: seq<PromptLine>)
    | MessageRequested(lines: seq<MessageLine>)
    | PushSent(userId: string, message: string)
    | InterventionLogged(record: InterventionRecord)

  datatype StepResult = StepResult(update: Update, events: seq<Event>)

  /** The investigator's effects: the two context requests. */
  function InvestigatorStep(s: State, env: Env): (r: Result<StepResult, NodeError>)
    ensures r.Success? <==> InvestigatorNode(s, env.location, env.history).Success?
    ensures r.Success? ==> r.value.update.ContextFields? && |r.value.events| == 2
    ensures r.Success? ==> r.value.events[0].LocationRequested? && r.value.events[1].HistoryRequested?
  {
    match InvestigatorNode(s, env.location, env.history)
    case Failure(e) => Failure(e)
    case Success(out) =>
      Success(StepResult(out.update, [LocationRequested(out.location), HistoryRequested(out.history)]))
  }

  /** The reflector's effect: the assessment request. */
  function ReflectorStep(s: State, env: Env): (r: StepResult)
    ensures r.update.AssessmentFields? && |r.events| == 1 && r.events[0].AssessmentRequested?
  {
    var out := ReflectorNode(s, env.assessment);
    StepResult(out.update, [AssessmentRequested(out.prompt)])
  }

  /** The communicator's effects: the message request, then exactly one
      push, then the log record when it was stored. */
  function CommunicatorStep(s: State, env: Env): (r: StepResult)
    ensures r.update.NotificationFields?
    ensures 2 <= |r.events| <= 3 && r.events[0].MessageRequested?
      && r.events[1] == PushSent(s.userId, r.update.message)
      && (|r.events| == 3 ==> r.events[2].InterventionLogged?)
  {
    var out := CommunicatorNode(s, env.message, env.logStored, env.now);
    StepResult(out.update,
      [MessageRequested(out.prompt), PushSent(out.pushedTo, out.message)]
      + (if out.logged.Some? then [InterventionLogged(out.logged.value)] else []))
  }

  /** Runs one node on the record. */
  function Step(n: Node, s: State, env: Env): Result<StepResult, NodeError>
    requires n != End
  {
    match n
    case Investigate => InvestigatorStep(s, env)
    case Reflect => Success(ReflectorStep(s, env))
    case Communicate => Success(CommunicatorStep(s, env))
  }

  /** The edges: investigator to reflector, reflector to the communicator
      unless the action is exactly "NO_ACTION" (None and unknown strings
      included), and from the communicator to the end. */
  function Successor(n: Node, s: State): (m: Node)
    ensures n == Investigate ==> m == Reflect
    ensures n == Reflect ==> (m == Communicate <==> s.interventionAction != Some(NoAction))
    ensures n == Reflect ==> (m == End <==> s.interventionAction == Some(NoAction))
    ensures n == Communicate || n == End ==> m == End
  {
    match n
    case Investigate => Reflect
    case Reflect => if s.interventionAction != Some(NoAction) then Communicate else End
    case Communicate => End
    case End => End
  }

  datatype Trace = Trace(final: State, visited: seq<Node>, events: seq<Event>)

  datatype RunError =
    | StartFailed(error: NodeError)
    | NodeFailed(node: Node, error: NodeError)
    | RecursionLimitReached

  /** Runs from node `n` until the end, executing at most `fuel` nodes. */
  function Run(n: Node, s: State, env: Env, fuel: nat): (r: Result<Trace, RunError>)
    ensures r.Success? ==> End !in r.value.visited
    ensures r.Success? ==> r.value.final.task == s.task && r.value.final.userId == s.userId
    decreases fuel
  {
    if n == End then Success(Trace(s, [], []))
    else if fuel == 0 then Failure(RecursionLimitReached)
    else
      match Step(n, s, env)
      case Failure(e) => Failure(NodeFailed(n, e))
      case Success(step) =>
        var next := Merge(s, step.update);
        match Run(Successor(n, next), next, env, fuel - 1)
        case Failure(e) => Failure(e)
        case Success(t) => Success(Trace(t.final, [n] + t.visited, step.events + t.events))
  }

  /** A whole run for a queued task. */
  function Invoke(task: TaskDict, env: Env): Result<Trace, RunError> {
    match InitialState(task)
    case Failure(e) => Failure(StartFailed(e))
    case Success(s0) => Run(EntryNode, s0, env, RecursionLimit)
  }

  /** The action the reflector settles on for a given model reply. */
  function ActionChosen(reply: ClassifierReply): (action: string)
    ensures !Parsed(reply) ==> action == FallbackAction
    ensures Parsed(reply) ==> action == reply.json.fields["intervention_action"]
  {
    if Parsed(reply) then reply.json.fields["intervention_action"] else FallbackAction
  }

  lemma ReflectorChoosesAction(s: State, reply: ClassifierReply)
    ensures ReflectorNode(s, reply).update.action == ActionChosen(reply)
  {
  }

  /** The task can be investigated and the context replies carry the keys
      the investigator indexes. */
  predicate Runnable(task: TaskDict, env: Env) {
    TaskReady(task) && RepliesComplete(env.location, env.history)
  }

  /** What a run from the reflector comes to: the reflector, then the
      communicator unless the action it writes is NO_ACTION. */
  function TraceFromReflect(s: State, env: Env): Trace {
    var st := ReflectorStep(s, env);
    var s' := Merge(s, st.update);
    if ActionChosen(env.assessment) == NoAction then Trace(s', [Reflect], st.events)
    else
      var st' := CommunicatorStep(s', env);
      Trace(Merge(s', st'.update), [Reflect, Communicate], st.events + st'.events)
  }

  /** What a run of a runnable task comes to, spelled out node by node. */
  function Expected(task: TaskDict, env: Env): Trace
    requires Runnable(task, env)
  {
    var s0 := InitialState(task).value;
    var st := InvestigatorStep(s0, env).value;
    var t := TraceFromReflect(Merge(s0, st.update), env);
    Trace(t.final, [Investigate] + t.visited, st.events + t.events)
  }

  /** From the communicator, a run takes one step and ends. */
  lemma RunFromCommunicate(s: State, env: Env, fuel: nat)
    requires fuel >= 1
    ensures var st := CommunicatorStep(s, env);
      Run(Communicate, s, env, fuel) == Success(Trace(Merge(s, st.update), [Communicate], st.events))
  {
    var st := CommunicatorStep(s, env);
    var s' := Merge(s, st.update);
    assert Run(End, s', env, fuel - 1) == Success(Trace(s', [], []));
    assert st.events + [] == st.events;
    assert [Communicate] + [] == [Communicate];
  }

  /** The reflector's merge leaves the chosen action in the record. */
  lemma ReflectorWritesAction(s: State, env: Env)
    ensures Merge(s, ReflectorStep(s, env).update).interventionAction == Some(ActionChosen(env.assessment))
  {
    ReflectorChoosesAction(s, env.assessment);
  }

  lemma RunFromReflectStopping(s: State, env: Env, fuel: nat)
    requires fuel >= 2 && ActionChosen(env.assessment) == NoAction
    ensures Run(Reflect, s, env, fuel) == Success(TraceFromReflect(s, env))
  {
    var st := ReflectorStep(s, env);
    var s' := Merge(s, st.update);
    ReflectorWritesAction(s, env);
    assert Run(End, s', env, fuel - 1) == Success(Trace(s', [], []));
    assert st.events + [] == st.events;
    assert [Reflect] + [] == [Reflect];
  }

  lemma RunFromReflectNotifying(s: State, env: Env, fuel: nat)
    requires fuel >= 2 && ActionChosen(env.assessment) != NoAction
    ensures Run(Reflect, s, env, fuel) == Success(TraceFromReflect(s, env))
  {
    var st := ReflectorStep(s, env);
    ReflectorWritesAction(s, env);
    RunFromCommunicate(Merge(s, st.update), env, fuel - 1);
    assert [Reflect] + [Communicate] == [Reflect, Communicate];
  }

  /** From the reflector, a run with enough fuel is the trace above. */
  lemma RunFromReflect(s: State, env: Env, fuel: nat)
    requires fuel >= 2
    ensures Run(Reflect, s, env, fuel) == Success(TraceFromReflect(s, env))
  {
    if ActionChosen(env.assessment) == NoAction {
      RunFromReflectStopping(s, env, fuel);
    } else {
      RunFromReflectNotifying(s, env, fuel);
    }
  }

  /** A run of a runnable task is exactly the node-by-node trace. */
  lemma InvokeIsExpected(task: TaskDict, env: Env)
    requires Runnable(task, env)
    ensures Invoke(task, env) == Success(Expected(task, env))
  {
    var s0 := InitialState(task).value;
    var st := InvestigatorStep(s0, env).value;
    RunFromReflect(Merge(s0, st.update), env, RecursionLimit - 1);
  }

  lemma ReflectTraceVisits(s: State, env: Env)
    ensures ActionChosen(env.assessment) != NoAction ==> TraceFromReflect(s, env).visited == [Reflect, Communicate]
    ensures ActionChosen(env.assessment) == NoAction ==> TraceFromReflect(s, env).visited == [Reflect]
  {
  }

  /** The node-by-node trace visits the investigator, the reflector, and the
      communicator exactly when the action is not NO_ACTION. */
  lemma ExpectedVisits(task: TaskDict, env: Env)
    requires Runnable(task, env)
    ensures ActionChosen(env.assessment) != NoAction ==> Expected(task, env).visited == [Investigate, Reflect, Communicate]
    ensures ActionChosen(env.assessment) == NoAction ==> Expected(task, env).visited == [Investigate, Reflect]
  {
    var s0 := InitialState(task).value;
    var s1 := Merge(s0, InvestigatorStep(s0, env).value.update);
    assert Expected(task, env).visited == [Investigate] + TraceFromReflect(s1, env).visited;
    ReflectTraceVisits(s1, env);
    assert [Investigate] + [Reflect, Communicate] == [Investigate, Reflect, Communicate];
    assert [Investigate] + [Reflect] == [Investigate, Reflect];
  }

  /** Every run of a runnable task visits the investigator, then the
      reflector, then the communicator exactly when the action is not
      NO_ACTION: each node at most once, well inside the recursion limit. */
  lemma RunShape(task: TaskDict, env: Env)
    requires Runnable(task, env)
    ensures Invoke(task, env).Success?
    ensures ActionChosen(env.assessment) != NoAction ==> Invoke(task, env).value.visited == [Investigate, Reflect, Communicate]
    ensures ActionChosen(env.assessment) == NoAction ==> Invoke(task, env).value.visited == [Investigate, Reflect]
    ensures |Invoke(task, env).value.visited| <= 3 < RecursionLimit
  {
    InvokeIsExpected(task, env);
    ExpectedVisits(task, env);
  }

  /** On the NO_ACTION path nothing is pushed: the message stays None and
      `notification_sent` stays False, as in the initial record. */
  lemma NoActionSendsNothing(task: TaskDict, env: Env)
    requires Runnable(task, env) && ActionChosen(env.assessment) == NoAction
    ensures Invoke(task, env).Success?
    ensures var t := Invoke(task, env).value;
      t.final.messageToUser.None? && !t.final.notificationSent
      && forall i :: 0 <= i < |t.events| ==> !t.events[i].PushSent?
  {
    InvokeIsExpected(task, env);
  }

  /** From the reflector with an action other than NO_ACTION, the push is
      the third event, the only push, and before any log record. */
  lemma ReflectTracePushesOnce(s: State, env: Env)
    requires ActionChosen(env.assessment) != NoAction
    ensures var t := TraceFromReflect(s, env);
      t.final.notificationSent && t.final.messageToUser.Some?
      && 2 < |t.events| && t.events[2] == PushSent(s.userId, t.final.messageToUser.value)
      && (forall j :: 0 <= j < |t.events| && j != 2 ==> !t.events[j].PushSent?)
      && (forall j :: 0 <= j < |t.events| && t.events[j].InterventionLogged? ==> 2 < j)
  {
    var st := ReflectorStep(s, env);
    var st' := CommunicatorStep(Merge(s, st.update), env);
    var t := TraceFromReflect(s, env);
    assert t.events == st.events + st'.events;
    forall j | 0 <= j < |t.events| && j != 2
      ensures !t.events[j].PushSent?
      ensures j < 2 ==> !t.events[j].InterventionLogged?
    {
      if j == 0 {
        assert t.events[j] == st.events[0];
      } else {
        assert t.events[j] == st'.events[j - 1];
      }
    }
  }

  /** The push in `rest` stays the only push, ahead of every log record,
      once events that are neither are put in front. */
  lemma OnlyPushAfterPrefix(pre: seq<Event>, rest: seq<Event>, i: nat)
    requires forall j :: 0 <= j < |pre| ==> !pre[j].PushSent? && !pre[j].InterventionLogged?
    requires i < |rest| && rest[i].PushSent?
    requires forall j :: 0 <= j < |rest| && j != i ==> !rest[j].PushSent?
    requires forall j :: 0 <= j < |rest| && rest[j].InterventionLogged? ==> i < j
    ensures var t := pre + rest;
      t[|pre| + i] == rest[i]
      && (forall j :: 0 <= j < |t| && j != |pre| + i ==> !t[j].PushSent?)
      && (forall j :: 0 <= j < |t| && t[j].InterventionLogged? ==> |pre| + i < j)
  {
    var t := pre + rest;
    forall j | 0 <= j < |t|
      ensures j < |pre| ==> t[j] == pre[j]
      ensures |pre| <= j ==> t[j] == rest[j - |pre|]
    {
    }
  }

  /** The node-by-node trace is the investigator's two requests followed by
      the trace from the reflector. */
  lemma ExpectedAfterInvestigator(task: TaskDict, env: Env)
    requires Runnable(task, env)
    ensures var s0 := InitialState(task).value;
      var st := InvestigatorStep(s0, env).value;
      var t := TraceFromReflect(Merge(s0, st.update), env);
      Expected(task, env).final == t.final
      && Expected(task, env).events == st.events + t.events
      && |st.events| == 2
      && (forall j :: 0 <= j < |st.events| ==> !st.events[j].PushSent? && !st.events[j].InterventionLogged?)
  {
  }

  /** In the node-by-node trace with a notification, the push is the fifth
      event, the only push, and before any log record. */
  lemma ExpectedPushesOnce(task: TaskDict, env: Env)
    requires Runnable(task, env) && ActionChosen(env.assessment) != NoAction
    ensures var t := Expected(task, env);
      t.final.notificationSent && t.final.messageToUser.Some?
      && 4 < |t.events| && t.events[4] == PushSent(task.userId.value, t.final.messageToUser.value)
      && (forall j :: 0 <= j < |t.events| && j != 4 ==> !t.events[j].PushSent?)
      && (forall j :: 0 <= j < |t.events| && t.events[j].InterventionLogged? ==> 4 < j)
  {
    var s0 := InitialState(task).value;
    var st := InvestigatorStep(s0, env).value;
    var s1 := Merge(s0, st.update);
    ExpectedAfterInvestigator(task, env);
    ReflectTracePushesOnce(s1, env);
    OnlyPushAfterPrefix(st.events, TraceFromReflect(s1, env).events, 2);
  }

  /** On every other path exactly one push is sent, to the task's user, with
      the message the record ends with, and the intervention log (if
      stored) comes after it. */
  lemma OtherActionsPushOnce(task: TaskDict, env: Env)
    requires Runnable(task, env) && ActionChosen(env.assessment) != NoAction
    ensures Invoke(task, env).Success?
    ensures var t := Invoke(task, env).value;
      t.final.notificationSent && t.final.messageToUser.Some?
      && exists i :: 0 <= i < |t.events|
           && t.events[i] == PushSent(task.userId.value, t.final.messageToUser.value)
           && (forall j :: 0 <= j < |t.events| && j != i ==> !t.events[j].PushSent?)
           && (forall j :: 0 <= j < |t.events| && t.events[j].InterventionLogged? ==> i < j)
  {
    InvokeIsExpected(task, env);
    ExpectedPushesOnce(task, env);
    var t := Expected(task, env);
    assert t.events[4] == PushSent(task.userId.value, t.final.messageToUser.value);
  }

  /** The task and the user id keep their initial values, and every output
      field holds what the node responsible for it wrote. */
  lemma NothingOverwritten(task: TaskDict, env: Env)
    requires Runnable(task, env)
    ensures Invoke(task, env).Success?
    ensures var t, s0 := Invoke(task, env).value, InitialState(task).value;
      var context := InvestigatorNode(s0, env.location, env.history).value.update;
      t.final.task == task && t.final.userId == task.userId.value
      && t.final.locationContext == Some(context.location)
      && t.final.glucoseHistory24h == Some(context.history)
      && t.final.upcomingActivity == context.upcoming
      && t.final.recentExerciseGlucoseDrops == Some(context.drops)
      && t.final.interventionAction == Some(ActionChosen(env.assessment))
  {
    InvokeIsExpected(task, env);
  }

  /** A model outage during assessment still notifies the user: the fallback
      action is SOFT_REMIND, so the communicator runs and pushes. */
  lemma AssessmentOutageStillNotifies(task: TaskDict, env: Env)
    requires Runnable(task, env) && !Parsed(env.assessment)
    ensures Invoke(task, env).Success?
    ensures Communicate in Invoke(task, env).value.visited
    ensures Invoke(task, env).value.final.notificationSent
  {
    InvokeIsExpected(task, env);
  }

  /** A run fails exactly when the task or a reply lacks a key the
      investigator indexes; the failure is then the investigator's, before
      any push or log record. */
  lemma FailsOnlyInInvestigator(task: TaskDict, env: Env)
    requires task.userId.Some?
    ensures Invoke(task, env).Failure? <==> !Runnable(task, env)
    ensures Invoke(task, env).Failure? ==>
      Invoke(task, env).error == NodeFailed(Investigate, InvestigatorNode(InitialState(task).value, env.location, env.history).error)
  {
    if Runnable(task, env) {
      InvokeIsExpected(task, env);
    }
  }

  /** The activity the history service reports has an average drop but no
      `avg_drop` key, so once the investigator has copied it into the
      record, the assessment prompt shows its average drop as N/A. */
  lemma ServiceActivityShowsNoDrop(
    s: State, loc: HttpOutcome<LocationReply>, referenceTime: IsoStamp, now: Time,
    telemetry: seq<PH.TelemetryLogRow>, patterns: seq<WP.PatternRow>, reply: PH.PatientContextReply)
    requires PH.PatientContext(referenceTime, now, telemetry, patterns) == Success(reply)
    requires reply.upcomingActivity.Some?
    requires InvestigatorNode(s, loc, Ok(PH.AsWire(reply))).Success?
    ensures var a := reply.upcomingActivity.value;
      var s' := Merge(s, InvestigatorNode(s, loc, Ok(PH.AsWire(reply))).value.update);
      a.avgGlucoseDrop.Some? && UpcomingLine(a.kind, a.probability, None) in BuildUserPrompt(s')
  {
    var a := reply.upcomingActivity.value;
    var s' := Merge(s, InvestigatorNode(s, loc, Ok(PH.AsWire(reply))).value.update);
    PH.UpcomingActivityMeaning(PH.ReferenceTime(referenceTime, now), patterns);
    assert s'.upcomingActivity == Some(a);
    UpcomingDropAlwaysMissing(s');
  }
}
