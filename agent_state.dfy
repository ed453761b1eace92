/** The record the investigation workflow passes from node to node. Its
    declaration fixes eleven keys and the run's initial record sets every one
    of them, so it is a record here; each node returns a partial dict with
    exactly the keys it is responsible for, and the runtime merges it over
    the record. */
module AgentState {
  import opened Common
  import opened Wire

  /** The task dict decoded from the queued message; a key may be missing. */
  datatype TaskDict = TaskDict(
    userId: Option<string>,
    triggerType: Option<string>,
    triggerAt: Option<IsoStamp>,
    currentGlucose: Option<int>,
    currentHr: Option<int>,
    gpsLat: Option<int>,
    gpsLng: Option<int>,
    contextNotes: Option<string>)

  /** The shared record: the inputs, the investigator's four outputs, the
      reflector's three and the communicator's two. `None` is Python's None. */
  datatype State = State(
    task: TaskDict,
    userId: string,
    locationContext: Option<string>,
    glucoseHistory24h: Option<seq<GlucoseRecord>>,
    upcomingActivity: Option<ActivityDict>,
    recentExerciseGlucoseDrops: Option<seq<int>>,
    riskLevel: Option<string>,
    reasoningSummary: Option<string>,
    interventionAction: Option<string>,
    messageToUser: Option<string>,
    notificationSent: bool)

  /** The partial dict each node returns, with exactly that node's keys. */
  datatype Update =
    | ContextFields(location: string, history: seq<GlucoseRecord>, upcoming: Option<ActivityDict>, drops: seq<int>)
    | AssessmentFields(risk: string, reasoning: string, action: string)
    | NotificationFields(message: string)

  /** Why a node raises: a dict it indexes lacks the key. */
  datatype NodeError = KeyError(key: string)

  /** Merging a node's partial dict: its keys take the new values, every
      other key keeps its value. */
  function Merge(s: State, u: Update): (r: State)
    ensures r.task == s.task && r.userId == s.userId
    ensures !u.ContextFields? ==>
      r.locationContext == s.locationContext && r.glucoseHistory24h == s.glucoseHistory24h
      && r.upcomingActivity == s.upcomingActivity && r.recentExerciseGlucoseDrops == s.recentExerciseGlucoseDrops
    ensures !u.AssessmentFields? ==>
      r.riskLevel == s.riskLevel && r.reasoningSummary == s.reasoningSummary
      && r.interventionAction == s.interventionAction
    ensures !u.NotificationFields? ==>
      r.messageToUser == s.messageToUser && r.notificationSent == s.notificationSent
    ensures u.ContextFields? ==>
      r.locationContext == Some(u.location) && r.glucoseHistory24h == Some(u.history)
      && r.upcomingActivity == u.upcoming && r.recentExerciseGlucoseDrops == Some(u.drops)
    ensures u.AssessmentFields? ==>
      r.riskLevel == Some(u.risk) && r.reasoningSummary == Some(u.reasoning) && r.interventionAction == Some(u.action)
    ensures u.NotificationFields? ==> r.messageToUser == Some(u.message) && r.notificationSent
  {
    match u
    case ContextFields(location, history, upcoming, drops) =>
      s.(locationContext := Some(location), glucoseHistory24h := Some(history),
         upcomingActivity := upcoming, recentExerciseGlucoseDrops := Some(drops))
    case AssessmentFields(risk, reasoning, action) =>
      s.(riskLevel := Some(risk), reasoningSummary := Some(reasoning), interventionAction := Some(action))
    case NotificationFields(message) =>
      s.(messageToUser := Some(message), notificationSent := true)
  }

  /** Merging the same partial dict twice changes nothing more. */
  lemma MergeIdempotent(s: State, u: Update)
    ensures Merge(Merge(s, u), u) == Merge(s, u)
  {
  }

  /** Partial dicts of different nodes touch disjoint keys, so their order
      does not matter. */
  lemma MergesOfDifferentNodesCommute(s: State, u: Update, v: Update)
    requires !(u.ContextFields? && v.ContextFields?) && !(u.AssessmentFields? && v.AssessmentFields?)
    requires !(u.NotificationFields? && v.NotificationFields?)
    ensures Merge(Merge(s, u), v) == Merge(Merge(s, v), u)
  {
  }

  /** The record a run starts from: the task and its user id, every output
      None and `notification_sent` False. Reading `user_id` from a task that
      lacks it raises before the run starts. */
  function InitialState(task: TaskDict): (r: Result<State, NodeError>)
    ensures r.Success? <==> task.userId.Some?
    ensures r.Success? ==>
      var s := r.value;
      s.task == task && s.userId == task.userId.value && !s.notificationSent
      && s.locationContext.None? && s.glucoseHistory24h.None? && s.upcomingActivity.None?
      && s.recentExerciseGlucoseDrops.None? && s.riskLevel.None? && s.reasoningSummary.None?
      && s.interventionAction.None? && s.messageToUser.None?
  {
    if task.userId.None? then Failure(KeyError("user_id"))
    else Success(State(task, task.userId.value, None, None, None, None, None, None, None, None, false))
  }
}
