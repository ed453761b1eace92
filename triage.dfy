/** The trigger engine: hard rules that raise an emergency alert at once, and
    soft rules over a per-user sliding window that ask the agent to
    investigate. Glucose is in hundredths of a mmol/L, probabilities in
    thousandths, instants in whole seconds. */
module Triage {
  import opened Common
  import opened Constants
  import opened WeeklyPatterns
  import LS = LeastSquares

  /** One reading from a wearable device. Coordinates are in units of 1e-7
      degree, the precision the telemetry log stores. */
  datatype Telemetry = Telemetry(
    userId: string,
    timestamp: Time,
    heartRate: int,
    glucose: int,
    gpsLat: int,
    gpsLng: int)

  // ===========================================================================
  // Hard rules

  /** A row of the telemetry log as the data-gap query sees it. */
  datatype LogRow = LogRow(userId: string, recordedAt: Time)

  datatype HardReason =
    | GlucoseBelowLimit(glucose: int)
    | HeartRateAboveLimit(heartRate: int, limitTenths: int)
    | TelemetryGap

  /** The age-adjusted maximum heart rate, (220 - age) * 0.90, in tenths of a
      beat per minute. */
  function MaxHeartRateTenths(age: int): int {
    (220 - age) * MaxHrRatioTenths
  }

  predicate GlucoseCritical(p: Telemetry) {
    p.glucose < GlucoseHardLow
  }

  predicate HeartRateExcessive(p: Telemetry, age: int) {
    10 * p.heartRate > MaxHeartRateTenths(age)
  }

  /** The number of the user's log rows recorded at or after `cutoff`. */
  function RecentCount(rows: seq<LogRow>, userId: string, cutoff: Time): (n: nat)
    ensures n <= |rows|
    ensures n == 0 <==> forall r :: r in rows ==> r.userId != userId || r.recordedAt < cutoff
  {
    if rows == [] then 0
    else
      var last := rows[|rows| - 1];
      assert forall r :: r in rows ==> r in rows[..|rows| - 1] || r == last;
      RecentCount(rows[..|rows| - 1], userId, cutoff)
        + (if last.userId == userId && last.recordedAt >= cutoff then 1 else 0)
  }

  /** The gap rule fires when the count query succeeds and finds nothing in
      the last 30 minutes. A failing query adds no reason; so does an instant
      less than 30 minutes after the smallest representable one, because
      computing the cutoff then overflows and the failure is caught with the
      query's. */
  predicate GapDetected(p: Telemetry, log: Result<seq<LogRow>, string>) {
    var gap := TelemetryGapAlertMin * SecondsPerMinute;
    log.Success? && p.timestamp >= gap && RecentCount(log.value, p.userId, p.timestamp - gap) == 0
  }

  /** The reasons the hard rules find, in the order they are checked. */
  function HardReasons(p: Telemetry, age: int, log: Result<seq<LogRow>, string>): (r: seq<HardReason>)
    ensures GlucoseBelowLimit(p.glucose) in r <==> GlucoseCritical(p)
    ensures HeartRateAboveLimit(p.heartRate, MaxHeartRateTenths(age)) in r <==> HeartRateExcessive(p, age)
    ensures TelemetryGap in r <==> GapDetected(p, log)
    ensures r == [] <==> !GlucoseCritical(p) && !HeartRateExcessive(p, age) && !GapDetected(p, log)
    ensures forall i, j :: 0 <= i < j < |r| ==> r[i] != r[j]
  {
    (if GlucoseCritical(p) then [GlucoseBelowLimit(p.glucose)] else [])
    + (if HeartRateExcessive(p, age) then [HeartRateAboveLimit(p.heartRate, MaxHeartRateTenths(age))] else [])
    + (if GapDetected(p, log) then [TelemetryGap] else [])
  }

  /** `f"{x:.0f}"` for x = tenths / 10: the nearest integer, ties to even. */
  function RoundedTenthsText(tenths: int): string {
    var q, rem := tenths / 10, tenths % 10;
    var n := if rem > 5 || (rem == 5 && q % 2 == 1) then q + 1 else q;
    IntText(n)
  }

  function ReasonText(r: HardReason): string {
    match r
    case GlucoseBelowLimit(g) => "glucose=" + CentiText(g) + " below 3.9 mmol/L"
    case HeartRateAboveLimit(hr, limit) =>
      "heart_rate=" + IntText(hr) + " exceeds max " + RoundedTenthsText(limit) + " bpm"
    case TelemetryGap => "no telemetry in last " + NatText(TelemetryGapAlertMin) + " minutes"
  }

  function ReasonTexts(rs: seq<HardReason>): (ts: seq<string>)
    ensures |ts| == |rs| && forall i :: 0 <= i < |rs| ==> ts[i] == ReasonText(rs[i])
  {
    if rs == [] then [] else [ReasonText(rs[0])] + ReasonTexts(rs[1..])
  }

  /** The emergency alert sent to a user: the reasons joined by "; ". */
  datatype EmergencyAlert = EmergencyAlert(userId: string, text: string)

  function AlertFor(userId: string, rs: seq<HardReason>): EmergencyAlert {
    EmergencyAlert(userId, Join(ReasonTexts(rs), "; "))
  }

  /** Runs the three hard rules, appending each reason found; when any was
      found, sends exactly one emergency alert (returned here) and reports
      that the hard trigger fired. */
  method EvaluateHardTriggers(p: Telemetry, age: int, log: Result<seq<LogRow>, string>)
    returns (fired: bool, alert: Option<EmergencyAlert>)
    ensures fired <==> HardReasons(p, age, log) != []
    ensures fired <==> GlucoseCritical(p) || HeartRateExcessive(p, age) || GapDetected(p, log)
    ensures alert == if fired then Some(AlertFor(p.userId, HardReasons(p, age, log))) else None
  {
    var reasons: seq<HardReason> := [];
    if p.glucose < GlucoseHardLow {
      reasons := reasons + [GlucoseBelowLimit(p.glucose)];
    }
    var maxHr := (220 - age) * MaxHrRatioTenths;
    if 10 * p.heartRate > maxHr {
      reasons := reasons + [HeartRateAboveLimit(p.heartRate, maxHr)];
    }
    var gap := TelemetryGapAlertMin * SecondsPerMinute;
    if log.Success? && p.timestamp >= gap {
      var count := RecentCount(log.value, p.userId, p.timestamp - gap);
      if count == 0 {
        reasons := reasons + [TelemetryGap];
      }
    }
    assert reasons == HardReasons(p, age, log);
    if reasons != [] {
      alert := Some(EmergencyAlert(p.userId, Join(ReasonTexts(reasons), "; ")));
      fired := true;
    } else {
      alert := None;
      fired := false;
    }
  }

  /** Every reason found can be read in the alert that is sent. */
  lemma AlertNamesEveryReason(p: Telemetry, age: int, log: Result<seq<LogRow>, string>, r: HardReason)
    requires r in HardReasons(p, age, log)
    ensures Contains(AlertFor(p.userId, HardReasons(p, age, log)).text, ReasonText(r))
  {
    var rs := HardReasons(p, age, log);
    var k :| 0 <= k < |rs| && rs[k] == r;
    JoinContainsParts(ReasonTexts(rs), "; ", k);
  }

  /** The thresholds are strict: glucose of exactly 3.9 does not fire, and
      for age 20 (limit 180 bpm) neither does a heart rate of 180, while any
      glucose below 3.9 fires whatever the heart rate. */
  lemma HardThresholdsAreStrict(p: Telemetry, log: Result<seq<LogRow>, string>)
    ensures p.glucose == 390 ==> GlucoseBelowLimit(p.glucose) !in HardReasons(p, 20, log)
    ensures p.heartRate == 180 ==> HeartRateAboveLimit(180, MaxHeartRateTenths(20)) !in HardReasons(p, 20, log)
    ensures p.glucose < 390 ==> forall age :: HardReasons(p, age, log) != []
  {
  }

  /** Age 34 gives a limit of 167.4 bpm: 170 fires, 167 does not. */
  lemma HeartRateLimitForAge34(p: Telemetry)
    ensures p.heartRate == 170 ==> HeartRateExcessive(p, 34)
    ensures p.heartRate == 167 ==> !HeartRateExcessive(p, 34)
    ensures RoundedTenthsText(MaxHeartRateTenths(34)) == "167"
  {
    assert MaxHeartRateTenths(34) == 1674;
    assert RoundedTenthsText(1674) == NatText(167);
    assert NatText(167) == NatText(16) + ['7'];
    assert NatText(16) == NatText(1) + ['6'];
  }

  // ===========================================================================
  // Sliding window

  /** What the window keeps of a reading. */
  datatype Sample = Sample(timestamp: Time, glucose: int, heartRate: int)

  function SampleOf(p: Telemetry): Sample {
    Sample(p.timestamp, p.glucose, p.heartRate)
  }

  /** The last `n` elements of `s` (all of it when shorter). */
  function Newest<T>(s: seq<T>, n: nat): (r: seq<T>)
    ensures |r| == Min(|s|, n)
    ensures r == s[|s| - |r|..]
  {
    if |s| <= n then s else s[|s| - n..]
  }

  /** Appending to a deque bounded at 20 entries: when full, the oldest entry
      is dropped first. */
  function Push(w: seq<Sample>, x: Sample): (r: seq<Sample>)
    requires |w| <= SlidingWindowMaxLen
    ensures 1 <= |r| <= SlidingWindowMaxLen && r[|r| - 1] == x
  {
    if |w| < SlidingWindowMaxLen then w + [x] else w[1..] + [x]
  }

  /** A push keeps the newest 20 of the old window and the new sample. */
  lemma PushKeepsNewest(w: seq<Sample>, x: Sample)
    requires |w| <= SlidingWindowMaxLen
    ensures Push(w, x) == Newest(w + [x], SlidingWindowMaxLen)
  {
  }

  /** The window a user ends with after a series of readings, starting from
      no window at all. */
  function Replay(xs: seq<Sample>): (w: seq<Sample>)
    ensures |w| <= SlidingWindowMaxLen
  {
    if xs == [] then [] else Push(Replay(xs[..|xs| - 1]), xs[|xs| - 1])
  }

  lemma NewestOfNewest<T>(s: seq<T>, x: T, n: nat)
    ensures Newest(Newest(s, n) + [x], n) == Newest(s + [x], n)
  {
  }

  /** Whatever the history, the window holds exactly the newest 20 readings
      (or all of them), oldest first. */
  lemma {:induction false} ReplayKeepsNewest(xs: seq<Sample>)
    ensures Replay(xs) == Newest(xs, SlidingWindowMaxLen)
  {
    if xs != [] {
      var init, x := xs[..|xs| - 1], xs[|xs| - 1];
      ReplayKeepsNewest(init);
      PushKeepsNewest(Replay(init), x);
      NewestOfNewest(init, x, SlidingWindowMaxLen);
      assert init + [x] == xs;
    }
  }

  // ===========================================================================
  // Slope rule

  /** Seconds since the oldest sample of the window. */
  function Offsets(w: seq<Sample>): (xs: seq<int>)
    requires w != []
    ensures |xs| == |w| && forall i :: 0 <= i < |w| ==> xs[i] == w[i].timestamp - w[0].timestamp
  {
    seq(|w|, i requires 0 <= i < |w| => w[i].timestamp - w[0].timestamp)
  }

  function Glucoses(w: seq<Sample>): (ys: seq<int>)
    ensures |ys| == |w| && forall i :: 0 <= i < |w| ==> ys[i] == w[i].glucose
  {
    seq(|w|, i requires 0 <= i < |w| => w[i].glucose)
  }

  /** The slope is computed only from three samples on, and only when the
      newest sample is later than the oldest. */
  predicate SlopeRuleApplies(w: seq<Sample>) {
    |w| >= 3 && w[|w| - 1].timestamp > w[0].timestamp
  }

  lemma SlopeDefined(w: seq<Sample>)
    requires SlopeRuleApplies(w)
    ensures LS.Spread(Offsets(w)) > 0
  {
    LS.SpreadPositive(Offsets(w));
  }

  /** The least-squares slope of the window in mmol/L per minute. */
  function SlopePerMinute(w: seq<Sample>): real
    requires SlopeRuleApplies(w)
  {
    SlopeDefined(w);
    LS.Slope(Offsets(w), Glucoses(w)) * 60.0 / 100.0
  }

  /** The slope rule decided in integers: with slope = (3/5) Cov / Spread,
      slope < -0.1 exactly when 6 Cov + Spread < 0. */
  predicate SlopeFires(w: seq<Sample>) {
    SlopeRuleApplies(w)
    && 6 * LS.Covariation(Offsets(w), Glucoses(w)) + LS.Spread(Offsets(w)) < 0
  }

  lemma RealThreshold(c: real, s: real)
    requires s > 0.0
    ensures c / s * 60.0 / 100.0 < -0.1 <==> 6.0 * c + s < 0.0
  {
    var q := c / s;
    assert c == q * s;
    assert 6.0 * c + s == s * (6.0 * q + 1.0);
    if 6.0 * q + 1.0 < 0.0 {
      assert s * (6.0 * q + 1.0) < 0.0;
    } else {
      assert s * (6.0 * q + 1.0) >= 0.0;
    }
  }

  /** The slope rule fires exactly when the fitted decline is steeper than
      0.1 mmol/L per minute. */
  lemma SlopeFiresIffSteepDecline(w: seq<Sample>)
    requires SlopeRuleApplies(w)
    ensures SlopeFires(w) <==> SlopePerMinute(w) < GlucoseSlopeTriggerTenths as real / 10.0
  {
    SlopeDefined(w);
    var c, s := LS.Covariation(Offsets(w), Glucoses(w)), LS.Spread(Offsets(w));
    RealThreshold(c as real, s as real);
    assert (6 * c + s) as real == 6.0 * c as real + s as real;
  }

  /** A steady fall of `d` hundredths every 5 minutes is a slope of -d/500
      mmol/L per minute: the rule fires exactly when d > 50. */
  lemma SteadyDeclineFires(w: seq<Sample>, d: int)
    requires SlopeRuleApplies(w)
    requires forall i :: 0 <= i < |w| ==>
      300 * (w[i].glucose - w[0].glucose) == -d * (w[i].timestamp - w[0].timestamp)
    ensures SlopeFires(w) <==> d > 50
  {
    var xs, ys := Offsets(w), Glucoses(w);
    forall i | 0 <= i < |xs|
      ensures 300 * ys[i] == 300 * w[0].glucose + -d * xs[i]
    {
    }
    LS.ExactOnLine(xs, ys, 300, 300 * w[0].glucose, -d);
    SlopeDefined(w);
    DeclineAlgebra(LS.Covariation(xs, ys), LS.Spread(xs), d);
  }

  lemma DeclineAlgebra(c: int, s: int, d: int)
    requires s > 0 && 300 * c == -d * s
    ensures 6 * c + s < 0 <==> d > 50
  {
    assert 300 * (6 * c + s) == s * (300 - 6 * d);
    if d > 50 {
      assert s * (300 - 6 * d) < 0;
    } else {
      assert s * (300 - 6 * d) >= 0;
    }
  }

  // ===========================================================================
  // Pre-exercise rule

  predicate InSoftBand(glucose: int) {
    GlucoseSoftLowMin <= glucose <= GlucoseSoftLowMax
  }

  /** The current hour, plus the next one from minute 30 on and the previous
      one up to minute 30, both taken modulo 24. */
  function HoursToCheck(t: Time): (hs: set<int>)
    ensures Hour(t) in hs
    ensures Minute(t) >= 30 ==> (Hour(t) + 1) % 24 in hs
    ensures Minute(t) <= 30 ==> (Hour(t) - 1) % 24 in hs
    ensures forall h :: h in hs ==>
      h == Hour(t)
      || (Minute(t) >= 30 && h == (Hour(t) + 1) % 24)
      || (Minute(t) <= 30 && h == (Hour(t) - 1) % 24)
    ensures forall h :: h in hs ==> 0 <= h < 24
  {
    var h := Hour(t);
    {h}
    + (if Minute(t) >= 30 then {(h + 1) % 24} else {})
    + (if Minute(t) <= 30 then {(h - 1) % 24} else {})
  }

  /** The rows the pattern query admits: same weekday, an hour to check, and
      probability at least 0.70. */
  predicate Candidate(t: Time, row: PatternRow) {
    row.dayOfWeek == Some(Weekday(t))
    && row.hourOfDay.Some? && row.hourOfDay.value in HoursToCheck(t)
    && ProbabilityAtLeast(row, ActivityProbabilityThreshold)
  }

  /** The instant `t` with its hour replaced by `hour` and minutes and
      seconds cleared: always on the same date as `t`. */
  function StartOnSameDate(t: Time, hour: nat): Time {
    DayStart(t) + hour * SecondsPerHour
  }

  /** |minutes until the start| <= 60. */
  predicate StartsNearby(t: Time, hour: nat) {
    Abs(StartOnSameDate(t, hour) - t) <= PreExerciseWarnMin * SecondsPerMinute
  }

  datatype UpcomingActivity = UpcomingActivity(
    activityType: Option<string>,
    probability: int,          // thousandths
    avgGlucoseDrop: int,       // hundredths; a NULL average counts as 0
    expectedStartHour: int)

  /** The activity found by the pre-exercise lookup over the user's weekly
      pattern rows: only the single most probable candidate row is looked at,
      and it is kept only when its hour starts within an hour of now. */
  function CheckUpcomingActivity(t: Time, rows: seq<PatternRow>): (r: Option<UpcomingActivity>)
    ensures r.Some? ==> exists row :: (row in rows && Candidate(t, row)
      && r.value.expectedStartHour == row.hourOfDay.value
      && r.value.probability == row.probability.value)
    ensures r.Some? ==> r.value.probability >= ActivityProbabilityThreshold
    ensures (forall row :: row in rows ==> !Candidate(t, row)) ==> r.None?
  {
    match TopByProbability(rows, row => Candidate(t, row))
    case None => None
    case Some(top) =>
      var hour := top.hourOfDay.value;
      if StartsNearby(t, hour) then
        Some(UpcomingActivity(top.activityType, top.probability.value,
                              top.avgGlucoseDrop.GetOr(0), hour))
      else None
  }

  /** The most probable candidate decides: an activity is found exactly when
      that row starts within the hour, and it then carries that row's type,
      probability, hour and average drop (a NULL drop as 0). */
  lemma TopRowDecides(t: Time, rows: seq<PatternRow>)
    ensures var r, top := CheckUpcomingActivity(t, rows), TopByProbability(rows, row => Candidate(t, row));
      r.Some? <==> top.Some? && StartsNearby(t, top.value.hourOfDay.value)
    ensures var r, top := CheckUpcomingActivity(t, rows), TopByProbability(rows, row => Candidate(t, row));
      r.Some? ==> (top.Some?
        && r.value.activityType == top.value.activityType
        && r.value.probability == top.value.probability.value
        && r.value.avgGlucoseDrop == top.value.avgGlucoseDrop.GetOr(0)
        && r.value.expectedStartHour == top.value.hourOfDay.value
        && StartsNearby(t, r.value.expectedStartHour))
    ensures var r := CheckUpcomingActivity(t, rows);
      r.Some? ==> forall row :: row in rows && Candidate(t, row) ==> row.probability.value <= r.value.probability
  {
  }

  /** Whether a candidate hour can pass the one-hour check. */
  lemma CurrentHourAlwaysPasses(t: Time)
    ensures StartsNearby(t, Hour(t))
  {
    ClockDecomposition(t);
  }

  lemma NextHourPassesBeforeMidnight(t: Time)
    requires Minute(t) >= 30 && Hour(t) < 23
    ensures StartsNearby(t, (Hour(t) + 1) % 24)
  {
    ClockDecomposition(t);
  }

  /** Because the hour is replaced on the same date, the hours added across
      midnight never pass: 00 seen from 23:30 on lies almost a day back, and
      23 seen up to 00:30 lies almost a day ahead. */
  lemma MidnightWrapNeverPasses(t: Time)
    ensures Hour(t) == 23 && Minute(t) >= 30 ==> !StartsNearby(t, (Hour(t) + 1) % 24)
    ensures Hour(t) == 0 && Minute(t) <= 30 ==> !StartsNearby(t, (Hour(t) - 1) % 24)
  {
    ClockDecomposition(t);
  }

  /** The previous hour passes only at exactly hh:00:00. */
  lemma PreviousHourPassesOnlyOnTheHour(t: Time)
    requires Hour(t) >= 1
    ensures StartsNearby(t, Hour(t) - 1) <==> Minute(t) == 0 && Second(t) == 0
  {
    ClockDecomposition(t);
  }

  /** Only the top row is examined: when it fails the one-hour check nothing
      is found, even if a less probable candidate would have passed. */
  lemma OnlyTopRowIsExamined(t: Time, rows: seq<PatternRow>)
    requires TopByProbability(rows, row => Candidate(t, row)).Some?
    requires !StartsNearby(t, TopByProbability(rows, row => Candidate(t, row)).value.hourOfDay.value)
    ensures CheckUpcomingActivity(t, rows).None?
  {
  }

  // ===========================================================================
  // Soft outcome

  /** The context note attached to a task; the slope is kept exact rather than
      printed to four decimals. */
  datatype ContextNote =
    | SlopeNote(slope: real)
    | UpcomingNote(text: string)

  const SlopeTrigger: string := "SOFT_GLUCOSE_DECLINE_SLOPE"
  const PreExerciseTrigger: string := "SOFT_PRE_EXERCISE_LOW_BUFFER"

  /** The message queued for the agent. */
  datatype InvestigationTask = InvestigationTask(
    userId: string,
    triggerType: string,
    triggerAt: Time,
    currentGlucose: int,
    currentHr: int,
    gpsLat: int,
    gpsLng: int,
    contextNotes: ContextNote)

  /** `f"Upcoming {type} (probability={p}, avg_drop={d})"`. */
  function UpcomingText(a: UpcomingActivity): string {
    "Upcoming " + a.activityType.GetOr("None")
    + " (probability=" + MilliText(a.probability)
    + ", avg_drop=" + CentiText(a.avgGlucoseDrop) + ")"
  }

  function TaskFor(p: Telemetry, triggerType: string, note: ContextNote): (t: InvestigationTask)
    ensures t.userId == p.userId && t.triggerAt == p.timestamp
    ensures t.currentGlucose == p.glucose && t.currentHr == p.heartRate
    ensures t.gpsLat == p.gpsLat && t.gpsLng == p.gpsLng
    ensures t.triggerType == triggerType && t.contextNotes == note
  {
    InvestigationTask(p.userId, triggerType, p.timestamp, p.glucose, p.heartRate,
                      p.gpsLat, p.gpsLng, note)
  }

  /** What the soft rules decide for reading `p` once it is in window `w`;
      `patterns` is the user's weekly-pattern rows, or the failure of that
      lookup. */
  function SoftOutcome(w: seq<Sample>, p: Telemetry, patterns: Result<seq<PatternRow>, string>): Option<InvestigationTask> {
    if SlopeFires(w) then Some(TaskFor(p, SlopeTrigger, SlopeNote(SlopePerMinute(w))))
    else if !InSoftBand(p.glucose) || patterns.Failure? then None
    else match CheckUpcomingActivity(p.timestamp, patterns.value)
      case None => None
      case Some(a) => Some(TaskFor(p, PreExerciseTrigger, UpcomingNote(UpcomingText(a))))
  }

  /** The slope rule is checked first: when it fires, the task is a slope
      task whatever the glucose band and the pattern lookup. */
  lemma SlopeRuleFirst(w: seq<Sample>, p: Telemetry, patterns: Result<seq<PatternRow>, string>)
    requires SlopeFires(w)
    ensures SoftOutcome(w, p, patterns) == Some(TaskFor(p, SlopeTrigger, SlopeNote(SlopePerMinute(w))))
  {
  }

  /** A pre-exercise task needs glucose within 4.0..5.6 (both inclusive), a
      successful lookup and an upcoming activity; without a slope task,
      glucose outside the band (6.2, say) or a failing lookup gives nothing. */
  lemma PreExerciseConditions(w: seq<Sample>, p: Telemetry, patterns: Result<seq<PatternRow>, string>)
    requires !SlopeFires(w)
    ensures SoftOutcome(w, p, patterns).Some? <==>
      InSoftBand(p.glucose) && patterns.Success?
      && CheckUpcomingActivity(p.timestamp, patterns.value).Some?
    ensures SoftOutcome(w, p, patterns).Some? ==> SoftOutcome(w, p, patterns).value.triggerType == PreExerciseTrigger
  {
  }

  /** Every task copies the reading's user, time, glucose, heart rate and
      position, and names one of the two soft triggers. */
  lemma TaskCopiesReading(w: seq<Sample>, p: Telemetry, patterns: Result<seq<PatternRow>, string>)
    requires SoftOutcome(w, p, patterns).Some?
    ensures var t := SoftOutcome(w, p, patterns).value;
      t == TaskFor(p, t.triggerType, t.contextNotes)
      && (t.triggerType == SlopeTrigger || t.triggerType == PreExerciseTrigger)
  {
  }

  // ===========================================================================
  // The engine's state

  /** The process-wide map from user to that user's sliding window. */
  class TriageEngine {
    var windows: map<string, seq<Sample>>

    /** Every window holds between 1 and 20 samples. */
    ghost predicate Valid()
      reads this
    {
      forall u :: u in windows ==> 1 <= |windows[u]| <= SlidingWindowMaxLen
    }

    /** The user's window, empty when the user has not been seen. */
    function WindowOf(userId: string): (w: seq<Sample>)
      reads this
      ensures userId !in windows ==> w == []
      ensures Valid() ==> |w| <= SlidingWindowMaxLen
    {
      if userId in windows then windows[userId] else []
    }

    constructor()
      ensures Valid() && windows == map[]
    {
      windows := map[];
    }

    /** Appends the reading to its user's window (creating the window on
      first sight), then applies the slope rule and the pre-exercise rule. */
    method EvaluateSoftTriggers(p: Telemetry, age: int, patterns: Result<seq<PatternRow>, string>)
      returns (task: Option<InvestigationTask>)
      requires Valid()
      modifies this
      ensures Valid()
      ensures windows == old(windows)[p.userId := Push(old(WindowOf(p.userId)), SampleOf(p))]
      ensures task == SoftOutcome(Push(old(WindowOf(p.userId)), SampleOf(p)), p, patterns)
    {
      var window := Remember(p);
      task := ApplySoftRules(window, p, patterns);
    }

    /** Appends the reading to the user's window, dropping the oldest sample
        when the window is full, and returns the new window. */
    method Remember(p: Telemetry) returns (window: seq<Sample>)
      requires Valid()
      modifies this
      ensures Valid()
      ensures window == Push(old(WindowOf(p.userId)), SampleOf(p))
      ensures windows == old(windows)[p.userId := window]
    {
      window := Push(WindowOf(p.userId), SampleOf(p));
      Store(p.userId, window);
    }

    /** Keeps `window` as the user's window. */
    method Store(userId: string, window: seq<Sample>)
      requires Valid() && 1 <= |window| <= SlidingWindowMaxLen
      modifies this
      ensures Valid()
      ensures windows == old(windows)[userId := window]
    {
      windows := windows[userId := window];
    }
  }

  /** The rule half of a soft evaluation, on the updated window: the slope
      rule first, then the pre-exercise rule. */
  method ApplySoftRules(window: seq<Sample>, p: Telemetry, patterns: Result<seq<PatternRow>, string>)
    returns (task: Option<InvestigationTask>)
    ensures task == SoftOutcome(window, p, patterns)
  {
    if |window| >= 3 {
      var xs, ys := Offsets(window), Glucoses(window);
      if xs[|xs| - 1] > 0 {
        assert SlopeRuleApplies(window);
        if 6 * LS.Covariation(xs, ys) + LS.Spread(xs) < 0 {
          task := Some(TaskFor(p, SlopeTrigger, SlopeNote(SlopePerMinute(window))));
          return;
        }
      }
    }

    assert !SlopeFires(window);
    if GlucoseSoftLowMin <= p.glucose <= GlucoseSoftLowMax && patterns.Success? {
      var upcoming := CheckUpcomingActivity(p.timestamp, patterns.value);
      if upcoming.Some? {
        task := Some(TaskFor(p, PreExerciseTrigger, UpcomingNote(UpcomingText(upcoming.value))));
        return;
      }
    }
    task := None;
  }

  /** After a soft evaluation the user's window ends with the new reading,
      holds at most 20 samples, and no other user's window has changed. */
  lemma WindowUpdateIsLocal(before: map<string, seq<Sample>>, p: Telemetry, u: string)
    requires forall v :: v in before ==> |before[v]| <= SlidingWindowMaxLen
    ensures var old_w := if p.userId in before then before[p.userId] else [];
      var after := before[p.userId := Push(old_w, SampleOf(p))];
      && p.userId in after
      && after[p.userId][|after[p.userId]| - 1] == SampleOf(p)
      && |after[p.userId]| <= SlidingWindowMaxLen
      && (|old_w| == SlidingWindowMaxLen ==> after[p.userId] == old_w[1..] + [SampleOf(p)])
      && (u != p.userId ==> (u in after <==> u in before) && (u in before ==> after[u] == before[u]))
  {
  }
}
