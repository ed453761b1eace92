/** The telemetry endpoint: look up the user's age, store the reading while
    the hard rules run, and only when no hard rule fired run the soft rules
    and queue an investigation. Database and queue outcomes are inputs. */
module TelemetryRouter {
  import opened Common
  import opened WeeklyPatterns
  import opened Triage

  /** The age assumed when the user's profile gives none. */
  const DefaultAge: int := 30

  const InvestigationTaskName: string := "agent.tasks.run_investigation"

  /** The external effects of one request, in the order they happen. */
  datatype Effect =
    | AlertSent(alert: EmergencyAlert)
    | TaskSent(name: string, task: InvestigationTask, accepted: bool)

  /** A request that fails with an internal error instead of answering. */
  datatype RequestError = PersistFailed

  function AgeOrDefault(storedAge: Option<int>): (age: int)
    ensures storedAge.Some? ==> age == storedAge.value
    ensures storedAge.None? ==> age == DefaultAge
  {
    storedAge.GetOr(DefaultAge)
  }

  const Received: map<string, string> := map["status" := "received"]
  const HardResponse: map<string, string> := map["status" := "received", "trigger" := "hard"]
  const SoftResponse: map<string, string> := map["status" := "received", "trigger" := "soft"]

  /** Handles one reading.
      `storedAge` is the age the profile lookup returns (None when the user or
      the birth year is missing, or the lookup fails); `persistOk` whether
      storing the reading succeeds; `recentLog` the outcome of the data-gap
      query; `patterns` the outcome of the weekly-pattern lookup; and
      `enqueueOk` whether the queue accepts a task. */
  method ReceiveTelemetry(
    engine: TriageEngine, p: Telemetry, storedAge: Option<int>, persistOk: bool,
    recentLog: Result<seq<LogRow>, string>, patterns: Result<seq<PatternRow>, string>,
    enqueueOk: bool)
    returns (response: Result<map<string, string>, RequestError>, effects: seq<Effect>)
    requires engine.Valid()
    modifies engine
    ensures engine.Valid()
    ensures var reasons := HardReasons(p, AgeOrDefault(storedAge), recentLog);
      !persistOk || reasons != [] ==> engine.windows == old(engine.windows)
    ensures var reasons := HardReasons(p, AgeOrDefault(storedAge), recentLog);
      persistOk && reasons == [] ==>
        engine.windows == old(engine.windows)[p.userId := Push(old(engine.WindowOf(p.userId)), SampleOf(p))]
    ensures var reasons := HardReasons(p, AgeOrDefault(storedAge), recentLog);
      var soft := if persistOk && reasons == []
                  then SoftOutcome(Push(old(engine.WindowOf(p.userId)), SampleOf(p)), p, patterns)
                  else None;
      response == ResponseFor(persistOk, reasons != [], soft)
      && effects == (if reasons == [] then [] else [AlertSent(AlertFor(p.userId, reasons))])
                    + (if soft.Some? then [TaskSent(InvestigationTaskName, soft.value, enqueueOk)] else [])
  {
    var age := AgeOrDefault(storedAge);
    var hardTriggered, alert := EvaluateHardTriggers(p, age, recentLog);
    effects := if alert.Some? then [AlertSent(alert.value)] else [];
    if !persistOk {
      response := Failure(PersistFailed);
      return;
    }
    if hardTriggered {
      response := Success(HardResponse);
      return;
    }
    var task := engine.EvaluateSoftTriggers(p, age, patterns);
    if task.Some? {
      effects := effects + [TaskSent(InvestigationTaskName, task.value, enqueueOk)];
      response := Success(SoftResponse);
      return;
    }
    response := Success(Received);
  }

  /** Which response a request gets: hard when a hard rule fires, then soft
      when a task was produced, otherwise a bare acknowledgement; a failure
      to store the reading aborts the request whatever the rules say. */
  function ResponseFor(persistOk: bool, hard: bool, task: Option<InvestigationTask>): (r: Result<map<string, string>, RequestError>)
    ensures r.Success? <==> persistOk
    ensures r.Success? ==> "status" in r.value && r.value["status"] == "received"
    ensures r.Success? ==> r.value.Keys <= {"status", "trigger"}
    ensures r.Success? ==> ("trigger" in r.value <==> hard || task.Some?)
    ensures r.Success? && hard ==> "trigger" in r.value && r.value["trigger"] == "hard"
    ensures r.Success? && !hard && task.Some? ==> "trigger" in r.value && r.value["trigger"] == "soft"
  {
    if !persistOk then Failure(PersistFailed)
    else if hard then Success(HardResponse)
    else if task.Some? then Success(SoftResponse)
    else Success(Received)
  }
}
