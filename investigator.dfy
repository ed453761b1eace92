/** The investigator node: asks the location service and the patient-history
    service about the task, replacing a failed call by that service's fixed
    fallback, and returns the four context fields. */
module Investigator {
  import opened Common
  import opened Wire
  import opened AgentState

  const UnknownLocation: string := "未知位置"

  const LocationFallback: LocationReply := LocationReply(Some(UnknownLocation), Some(false), Some([]))
  const HistoryFallback: HistoryReply := HistoryReply(Some([]), None, Some([]))

  /** The body of a location call, or the fallback on a timeout, an error
      status or any other failure; the call itself never raises. */
  function LocationResult(outcome: HttpOutcome<LocationReply>): (r: LocationReply)
    ensures outcome.Ok? ==> r == outcome.body
    ensures !outcome.Ok? ==>
      r.semanticLocation == Some(UnknownLocation) && r.isAtHome == Some(false) && r.nearbyKnownPlaces == Some([])
  {
    if outcome.Ok? then outcome.body else LocationFallback
  }

  function HistoryResult(outcome: HttpOutcome<HistoryReply>): (r: HistoryReply)
    ensures outcome.Ok? ==> r == outcome.body
    ensures !outcome.Ok? ==>
      r.glucoseHistory24h == Some([]) && r.upcomingActivity.None? && r.recentExerciseDrops == Some([])
  {
    if outcome.Ok? then outcome.body else HistoryFallback
  }

  /** The arguments the two calls are made with. */
  datatype LocationRequest = LocationRequest(userId: string, lat: int, lng: int)
  datatype HistoryRequest = HistoryRequest(userId: string, referenceTime: IsoStamp)

  datatype InvestigatorOutput = InvestigatorOutput(
    update: Update,
    location: LocationRequest,
    history: HistoryRequest)

  /** The task carries every key the two calls are made from. */
  predicate TaskReady(task: TaskDict) {
    task.gpsLat.Some? && task.gpsLng.Some? && task.userId.Some? && task.triggerAt.Some?
  }

  /** The replies (or fallbacks) carry the two keys the node indexes. */
  predicate RepliesComplete(loc: HttpOutcome<LocationReply>, hist: HttpOutcome<HistoryReply>) {
    LocationResult(loc).semanticLocation.Some? && HistoryResult(hist).glucoseHistory24h.Some?
  }

  /** The node. It raises when one of the task keys the calls are made from,
      or one of the two indexed reply keys, is missing; otherwise it returns
      the four context fields: the location text and the history indexed,
      the upcoming activity defaulting to None and the drops to []. */
  function InvestigatorNode(s: State, loc: HttpOutcome<LocationReply>, hist: HttpOutcome<HistoryReply>)
    : (r: Result<InvestigatorOutput, NodeError>)
    ensures r.Success? <==> TaskReady(s.task) && RepliesComplete(loc, hist)
    ensures r.Success? ==>
      var location, history := LocationResult(loc), HistoryResult(hist);
      r.value.update == ContextFields(location.semanticLocation.value, history.glucoseHistory24h.value,
                                      history.upcomingActivity, history.recentExerciseDrops.GetOr([]))
    ensures r.Success? ==>
      r.value.location == LocationRequest(s.task.userId.value, s.task.gpsLat.value, s.task.gpsLng.value)
      && r.value.history == HistoryRequest(s.task.userId.value, s.task.triggerAt.value)
    ensures r.Failure? ==> r.error.key in {"gps_lat", "gps_lng", "user_id", "trigger_at", "semantic_location", "glucose_history_24h"}
  {
    var task := s.task;
    if task.gpsLat.None? then Failure(KeyError("gps_lat"))
    else if task.gpsLng.None? then Failure(KeyError("gps_lng"))
    else if task.userId.None? then Failure(KeyError("user_id"))
    else if task.triggerAt.None? then Failure(KeyError("trigger_at"))
    else
      var location, history := LocationResult(loc), HistoryResult(hist);
      if location.semanticLocation.None? then Failure(KeyError("semantic_location"))
      else if history.glucoseHistory24h.None? then Failure(KeyError("glucose_history_24h"))
      else Success(InvestigatorOutput(
        ContextFields(location.semanticLocation.value, history.glucoseHistory24h.value,
                      history.upcomingActivity, history.recentExerciseDrops.GetOr([])),
        LocationRequest(task.userId.value, task.gpsLat.value, task.gpsLng.value),
        HistoryRequest(task.userId.value, task.triggerAt.value)))
  }

  /** When both services fail, the fields are "未知位置", [], None and []. */
  lemma BothCallsFailGiveFallback(s: State, loc: HttpOutcome<LocationReply>, hist: HttpOutcome<HistoryReply>)
    requires !loc.Ok? && !hist.Ok? && TaskReady(s.task)
    ensures InvestigatorNode(s, loc, hist).Success?
    ensures InvestigatorNode(s, loc, hist).value.update == ContextFields(UnknownLocation, [], None, [])
  {
  }

  /** Each call falls back on its own: the location field depends only on
      the location call, and the three history fields only on the history
      call. */
  lemma CallsFallBackIndependently(
    s: State, loc1: HttpOutcome<LocationReply>, loc2: HttpOutcome<LocationReply>,
    hist1: HttpOutcome<HistoryReply>, hist2: HttpOutcome<HistoryReply>)
    requires InvestigatorNode(s, loc1, hist1).Success? && InvestigatorNode(s, loc2, hist2).Success?
    ensures var u1, u2 := InvestigatorNode(s, loc1, hist1).value.update, InvestigatorNode(s, loc2, hist2).value.update;
      (loc1 == loc2 ==> u1.location == u2.location)
      && (hist1 == hist2 ==> u1.history == u2.history && u1.upcoming == u2.upcoming && u1.drops == u2.drops)
  {
  }

  /** A service outage never makes the node raise: with a complete task it
      succeeds whatever the two calls come to, as long as a reply that does
      arrive carries its indexed key. */
  lemma OutageNeverRaises(s: State, loc: HttpOutcome<LocationReply>, hist: HttpOutcome<HistoryReply>)
    requires TaskReady(s.task)
    requires loc.Ok? ==> loc.body.semanticLocation.Some?
    requires hist.Ok? ==> hist.body.glucoseHistory24h.Some?
    ensures InvestigatorNode(s, loc, hist).Success?
  {
  }
}
