/** The patient-history service: the SQL safety check for generated queries,
    the patient context (the last day's readings, the most probable activity
    in the next hours, the latest exercise glucose drops) shaped from the
    rows of its three queries, and the natural-language query endpoint,
    which is not implemented. Rows are given in each query's ORDER BY order;
    the clock is a parameter. */
module PatientHistory {
  import opened Common
  import opened Wire
  import opened WeeklyPatterns

  // ---------------------------------------------------------------------------
  // SQL safety check

  const ForbiddenKeywords: set<string> := {"drop", "delete", "update", "insert", "alter", "truncate", "create"}
  const SqlMaxLength: nat := 2000

  datatype SqlError = ForbiddenOperation(keyword: string) | TooLong

  /** The keywords found in the lowered text, in the given order. */
  predicate HasForbiddenKeyword(sql: string) {
    exists k :: k in ForbiddenKeywords && Contains(Lower(sql), k)
  }

  /** What the check raises, or None when it returns normally. The keywords
      are tried in `order`, the iteration order of the keyword set, so the
      first one found there is the one named; the length is checked only
      when no keyword is found. */
  function SqlVerdict(sql: string, order: seq<string>): (r: Option<SqlError>) {
    if order == [] then (if |sql| > SqlMaxLength then Some(TooLong) else None)
    else if Contains(Lower(sql), order[0]) then Some(ForbiddenOperation(order[0]))
    else SqlVerdict(sql, order[1..])
  }

  /** `validate_sql`, with the set's iteration order as `order`. */
  method ValidateSql(sql: string, order: seq<string>) returns (r: Option<SqlError>)
    ensures r == SqlVerdict(sql, order)
  {
    var lower := Lower(sql);
    for i := 0 to |order|
      invariant SqlVerdict(sql, order) == SqlVerdict(sql, order[i..])
    {
      assert order[i..][1..] == order[i + 1..];
      if Contains(lower, order[i]) {
        return Some(ForbiddenOperation(order[i]));
      }
    }
    if |sql| > SqlMaxLength {
      return Some(TooLong);
    }
    return None;
  }

  /** Whatever the iteration order: the check rejects exactly the texts that
      contain a keyword in any letter case or are longer than 2000
      characters; it names a keyword the text contains, ahead of any length
      problem, and reports the length only for a keyword-free text. */
  lemma {:induction false} SqlVerdictMeaning(sql: string, order: seq<string>)
    requires forall k :: k in order <==> k in ForbiddenKeywords
    ensures SqlVerdict(sql, order).None? <==> !HasForbiddenKeyword(sql) && |sql| <= SqlMaxLength
    ensures SqlVerdict(sql, order) == Some(TooLong) <==> !HasForbiddenKeyword(sql) && |sql| > SqlMaxLength
    ensures var r := SqlVerdict(sql, order);
      r.Some? && r.value.ForbiddenOperation? ==> r.value.keyword in ForbiddenKeywords && Contains(Lower(sql), r.value.keyword)
  {
    VerdictOverSuffix(sql, order, order);
  }

  lemma {:induction false} VerdictOverSuffix(sql: string, order: seq<string>, all: seq<string>)
    requires forall k :: k in order ==> k in all
    ensures SqlVerdict(sql, order).None? || SqlVerdict(sql, order) == Some(TooLong) <==>
      (forall k :: k in order ==> !Contains(Lower(sql), k))
    ensures SqlVerdict(sql, order).None? ==> |sql| <= SqlMaxLength
    ensures (forall k :: k in order ==> !Contains(Lower(sql), k)) ==>
      (SqlVerdict(sql, order).None? <==> |sql| <= SqlMaxLength)
    ensures var r := SqlVerdict(sql, order);
      r.Some? && r.value.ForbiddenOperation? ==> r.value.keyword in order && Contains(Lower(sql), r.value.keyword)
  {
    if order != [] {
      VerdictOverSuffix(sql, order[1..], all);
      assert forall k :: k in order ==> k == order[0] || k in order[1..];
    }
  }

  /** The keywords are substrings, not words: a keyword anywhere in the
      text is rejected whatever surrounds it, so a column named
      `created_at` is rejected because it contains "create". */
  lemma KeywordInsideRejected(before: string, k: string, after: string, order: seq<string>)
    requires forall kw :: kw in order <==> kw in ForbiddenKeywords
    requires k in ForbiddenKeywords
    ensures var r := SqlVerdict(before + k + after, order);
      r.Some? && r.value.ForbiddenOperation?
  {
    assert forall j :: 0 <= j < |k| ==> !('A' <= k[j] <= 'Z');
    LowerKeepsLowercase(before, k, after);
    SqlVerdictMeaning(before + k + after, order);
  }

  /** Lowering a text leaves a part without capital letters where it was. */
  lemma LowerKeepsLowercase(a: string, sub: string, b: string)
    requires forall j :: 0 <= j < |sub| ==> !('A' <= sub[j] <= 'Z')
    ensures Contains(Lower(a + sub + b), sub)
  {
    var low := Lower(a + sub + b);
    forall j | 0 <= j < |sub|
      ensures low[|a|..|a| + |sub|][j] == sub[j]
    {
      assert (a + sub + b)[|a| + j] == sub[j];
    }
    assert OccursAt(sub, low, |a|);
  }

  /** The case of the letters does not matter. */
  lemma UpperCaseRejected(order: seq<string>)
    requires forall k :: k in order <==> k in ForbiddenKeywords
    ensures SqlVerdict("DROP TABLE t", order).Some?
  {
    var sql := "DROP TABLE t";
    assert Lower(sql)[0..4] == "drop";
    assert OccursAt("drop", Lower(sql), 0);
    SqlVerdictMeaning(sql, order);
  }

  /** A text of exactly 2000 characters passes; one more is too long. */
  lemma LengthLimitIsInclusive(order: seq<string>)
    requires forall k :: k in order <==> k in ForbiddenKeywords
    ensures SqlVerdict(seq(2000, _ => 's'), order).None?
    ensures SqlVerdict(seq(2001, _ => 's'), order) == Some(TooLong)
  {
    KeywordFree(2000);
    KeywordFree(2001);
    SqlVerdictMeaning(seq(2000, _ => 's'), order);
    SqlVerdictMeaning(seq(2001, _ => 's'), order);
  }

  /** No keyword fits in a run of "s": none of them is "s" repeated. */
  lemma KeywordFree(n: nat)
    ensures !HasForbiddenKeyword(seq(n, _ => 's'))
  {
    var sql := seq(n, _ => 's');
    assert Lower(sql) == sql;
    forall k | k in ForbiddenKeywords
      ensures !Contains(sql, k)
    {
      forall i | 0 <= i <= |sql|
        ensures !OccursAt(k, sql, i)
      {
        if i + |k| <= |sql| {
          assert sql[i..i + |k|][0] == 's' != k[0];
        }
      }
    }
  }

  // ---------------------------------------------------------------------------
  // Patient context

  /** The reference time, or the current time when `fromisoformat` rejects
      the text. */
  function ReferenceTime(stamp: IsoStamp, now: Time): (t: Time)
    ensures stamp.Iso? ==> t == stamp.t
    ensures stamp.Malformed? ==> t == now
  {
    match stamp
    case Iso(t) => t
    case Malformed => now
  }

  /** A row of `user_telemetry_log`; the glucose may be NULL. */
  datatype TelemetryLogRow = TelemetryLogRow(recordedAt: Time, glucose: Option<int>)

  const HistoryLimit: nat := 1000
  const HistoryWindowSeconds: nat := 24 * SecondsPerHour

  /** `WHERE recorded_at >= cutoff ... LIMIT 1000` over the rows, newest
      first. */
  function HistoryRows(rows: seq<TelemetryLogRow>, cutoff: int): (r: seq<TelemetryLogRow>)
    ensures |r| <= HistoryLimit
    ensures forall i :: 0 <= i < |r| ==> r[i] in rows && r[i].recordedAt >= cutoff
    ensures |r| == Min(HistoryLimit, |RecordedSince(rows, cutoff)|)
    ensures r == RecordedSince(rows, cutoff)[..|r|]
  {
    var recent := RecordedSince(rows, cutoff);
    recent[..Min(HistoryLimit, |recent|)]
  }

  /** The rows at or after the cutoff, in query order. */
  function RecordedSince(rows: seq<TelemetryLogRow>, cutoff: int): (r: seq<TelemetryLogRow>)
    ensures |r| <= |rows|
    ensures forall i :: 0 <= i < |r| ==> r[i] in rows && r[i].recordedAt >= cutoff
  {
    if rows == [] then []
    else (if rows[0].recordedAt >= cutoff then [rows[0]] else []) + RecordedSince(rows[1..], cutoff)
  }

  /** No recent row is lost: every row at or after the cutoff is kept. */
  lemma {:induction false} RecordedSinceKeepsRecent(rows: seq<TelemetryLogRow>, cutoff: int)
    ensures forall i :: 0 <= i < |rows| && rows[i].recordedAt >= cutoff ==> rows[i] in RecordedSince(rows, cutoff)
  {
    if rows != [] {
      RecordedSinceKeepsRecent(rows[1..], cutoff);
      forall i | 0 < i < |rows| && rows[i].recordedAt >= cutoff
        ensures rows[i] in RecordedSince(rows, cutoff)
      {
        assert rows[1..][i - 1] == rows[i];
      }
    }
  }

  /** The filter works row by row, so it keeps query order. */
  lemma {:induction false} RecordedSinceConcat(a: seq<TelemetryLogRow>, b: seq<TelemetryLogRow>, cutoff: int)
    ensures RecordedSince(a + b, cutoff) == RecordedSince(a, cutoff) + RecordedSince(b, cutoff)
  {
    if a != [] {
      var h := if a[0].recordedAt >= cutoff then [a[0]] else [];
      var ra, rb := RecordedSince(a[1..], cutoff), RecordedSince(b, cutoff);
      assert (a + b)[0] == a[0] && (a + b)[1..] == a[1..] + b;
      RecordedSinceConcat(a[1..], b, cutoff);
      assert RecordedSince(a + b, cutoff) == h + (ra + rb);
      assert RecordedSince(a, cutoff) == h + ra;
    } else {
      assert a + b == b;
    }
  }

  /** `ORDER BY recorded_at DESC`. */
  predicate NewestFirst(rows: seq<TelemetryLogRow>) {
    forall i, j :: 0 <= i < j < |rows| ==> rows[j].recordedAt <= rows[i].recordedAt
  }

  /** Rows newest first stay newest first after the filter. */
  lemma {:induction false} RecordedSinceNewestFirst(rows: seq<TelemetryLogRow>, cutoff: int)
    requires NewestFirst(rows)
    ensures NewestFirst(RecordedSince(rows, cutoff))
  {
    if rows != [] {
      var rest := RecordedSince(rows[1..], cutoff);
      RecordedSinceNewestFirst(rows[1..], cutoff);
      forall k | 0 <= k < |rest| ensures rest[k].recordedAt <= rows[0].recordedAt {
        var m :| 0 <= m < |rows[1..]| && rows[1..][m] == rest[k];
        assert rows[m + 1] == rest[k];
      }
      var r := RecordedSince(rows, cutoff);
      if rows[0].recordedAt >= cutoff {
        assert r == [rows[0]] + rest;
        forall i, j | 0 <= i < j < |r| ensures r[j].recordedAt <= r[i].recordedAt {
          assert r[j] == rest[j - 1];
          if i > 0 {
            assert r[i] == rest[i - 1];
          }
        }
      } else {
        assert r == rest;
      }
    }
  }

  /** With the rows newest first, the history holds the 1000 newest recent
      rows: no recent row left out is newer than one kept, and when there
      are at most 1000 recent rows none is left out. */
  lemma HistoryKeepsNewest(rows: seq<TelemetryLogRow>, cutoff: int)
    requires NewestFirst(rows)
    ensures var kept, recent := HistoryRows(rows, cutoff), RecordedSince(rows, cutoff);
      forall i, j :: 0 <= i < |kept| <= j < |recent| ==> recent[j].recordedAt <= kept[i].recordedAt
    ensures |RecordedSince(rows, cutoff)| <= HistoryLimit ==>
      forall i :: 0 <= i < |rows| && rows[i].recordedAt >= cutoff ==> rows[i] in HistoryRows(rows, cutoff)
  {
    RecordedSinceNewestFirst(rows, cutoff);
    RecordedSinceKeepsRecent(rows, cutoff);
    var kept, recent := HistoryRows(rows, cutoff), RecordedSince(rows, cutoff);
    forall i, j | 0 <= i < |kept| <= j < |recent| ensures recent[j].recordedAt <= kept[i].recordedAt {
      assert kept[i] == recent[i];
      assert recent[j].recordedAt <= recent[i].recordedAt;
    }
    if |recent| <= HistoryLimit {
      assert kept == recent;
    }
  }

  /** The readings of the rows whose glucose is not NULL, in row order. */
  function GlucoseHistory(rows: seq<TelemetryLogRow>): seq<GlucoseRecord> {
    if rows == [] then []
    else
      (if rows[0].glucose.Some? then [GlucoseRecord(rows[0].recordedAt, rows[0].glucose.value)] else [])
      + GlucoseHistory(rows[1..])
  }

  /** Shaping the history works row by row: over two runs of rows it is the
      history of the first followed by that of the second, so query order is
      kept and no row is merged with another. */
  lemma {:induction false} GlucoseHistoryConcat(a: seq<TelemetryLogRow>, b: seq<TelemetryLogRow>)
    ensures GlucoseHistory(a + b) == GlucoseHistory(a) + GlucoseHistory(b)
  {
    if a != [] {
      GlucoseHistoryConcat(a[1..], b);
      assert (a + b)[1..] == a[1..] + b;
    } else {
      assert a + b == b;
    }
  }

  /** A reading is in the history exactly when some row carries it with a
      non-NULL glucose. */
  lemma {:induction false} GlucoseHistoryMembers(rows: seq<TelemetryLogRow>, rec: GlucoseRecord)
    ensures rec in GlucoseHistory(rows) <==>
      exists i :: 0 <= i < |rows| && rows[i].glucose == Some(rec.glucose) && rows[i].recordedAt == rec.time
  {
    if rows != [] {
      GlucoseHistoryMembers(rows[1..], rec);
      if rec in GlucoseHistory(rows[1..]) {
        var i :| 0 <= i < |rows[1..]| && rows[1..][i].glucose == Some(rec.glucose) && rows[1..][i].recordedAt == rec.time;
        assert rows[i + 1] == rows[1..][i];
      }
      if exists i :: 0 <= i < |rows| && rows[i].glucose == Some(rec.glucose) && rows[i].recordedAt == rec.time {
        var i :| 0 <= i < |rows| && rows[i].glucose == Some(rec.glucose) && rows[i].recordedAt == rec.time;
        if i > 0 {
          assert rows[1..][i - 1] == rows[i];
        }
      }
    }
  }

  const UpcomingProbabilityMin: int := 500
  const LastHourOfDay: nat := 23

  /** The pattern query's window: the reference weekday and the hours from
      the current one to two later, cut at 23. */
  predicate UpcomingCandidate(ref: Time, row: PatternRow) {
    row.dayOfWeek == Some(Weekday(ref))
    && row.hourOfDay.Some? && Hour(ref) <= row.hourOfDay.value <= Min(Hour(ref) + 2, LastHourOfDay)
    && ProbabilityAtLeast(row, UpcomingProbabilityMin)
  }

  /** Why the service answers with an error: the most probable activity row
      has a NULL type, which the reply model refuses; or a cutoff computed
      from the reference time falls before the smallest representable
      instant, 0001-01-01 00:00:00, and the subtraction overflows. */
  datatype ContextError = ActivityTypeMissing | ReferenceTimeOutOfRange

  /** The week subtracted for the drops query, although that query does
      not use the result. */
  const DropsWindowSeconds: nat := 7 * 24 * SecondsPerHour

  /** The activity dict for the most probable row in the window, if any. */
  function UpcomingActivity(ref: Time, patterns: seq<PatternRow>): Result<Option<ActivityDict>, ContextError> {
    match TopByProbability(patterns, row => UpcomingCandidate(ref, row))
    case None => Success(None)
    case Some(row) =>
      if row.activityType.None? then Failure(ActivityTypeMissing)
      else Success(Some(ActivityDict(row.activityType, row.probability, row.hourOfDay,
                                     Some(row.avgGlucoseDrop.GetOr(0)), None)))
  }

  /** The activity reported is a row of the window with probability at least
      0.5 and the greatest probability there; its hour never wraps past
      midnight; a NULL average drop is reported as 0; and the dict has no
      `avg_drop` key. Nothing is reported only when no row is in the
      window. */
  lemma UpcomingActivityMeaning(ref: Time, patterns: seq<PatternRow>)
    ensures var r := UpcomingActivity(ref, patterns);
      r.Success? && r.value.Some? ==>
        exists row :: row in patterns && UpcomingCandidate(ref, row)
          && (forall x :: x in patterns && UpcomingCandidate(ref, x) ==> Rank(x) <= Rank(row))
          && r.value.value == ActivityDict(row.activityType, row.probability, row.hourOfDay,
                                           Some(row.avgGlucoseDrop.GetOr(0)), None)
    ensures var r := UpcomingActivity(ref, patterns);
      r.Success? && r.value.Some? ==>
        var a := r.value.value;
        a.kind.Some? && a.probability.Some? && a.probability.value >= UpcomingProbabilityMin
        && a.expectedStartHour.Some? && Hour(ref) <= a.expectedStartHour.value <= LastHourOfDay
        && a.avgDrop.None?
    ensures UpcomingActivity(ref, patterns) == Success(None) <==>
      forall x :: x in patterns ==> !UpcomingCandidate(ref, x)
  {
  }

  const DropsLimit: nat := 5

  /** `WHERE avg_glucose_drop IS NOT NULL ORDER BY id DESC LIMIT 5` over the
      rows, newest first. */
  function NonNullDrops(patterns: seq<PatternRow>): seq<int> {
    if patterns == [] then []
    else
      (if patterns[0].avgGlucoseDrop.Some? then [patterns[0].avgGlucoseDrop.value] else [])
      + NonNullDrops(patterns[1..])
  }

  function RecentDrops(patterns: seq<PatternRow>): (r: seq<int>)
    ensures |r| <= DropsLimit
  {
    var all := NonNullDrops(patterns);
    all[..Min(DropsLimit, |all|)]
  }

  /** The drops are the first five non-NULL averages (all of them when
      fewer), each taken from a row. */
  lemma {:induction false} RecentDropsMeaning(patterns: seq<PatternRow>)
    ensures var r, all := RecentDrops(patterns), NonNullDrops(patterns);
      |r| == Min(DropsLimit, |all|) && r == all[..|r|]
    ensures forall d :: d in RecentDrops(patterns) ==>
      exists i :: 0 <= i < |patterns| && patterns[i].avgGlucoseDrop == Some(d)
  {
    NonNullDropsFromRows(patterns);
    var all := NonNullDrops(patterns);
    forall d | d in RecentDrops(patterns)
      ensures d in all
    {
      var k :| 0 <= k < |RecentDrops(patterns)| && RecentDrops(patterns)[k] == d;
      assert all[k] == d;
    }
  }

  lemma {:induction false} NonNullDropsFromRows(patterns: seq<PatternRow>)
    ensures forall d :: d in NonNullDrops(patterns) ==>
      exists i :: 0 <= i < |patterns| && patterns[i].avgGlucoseDrop == Some(d)
  {
    if patterns != [] {
      NonNullDropsFromRows(patterns[1..]);
      forall d | d in NonNullDrops(patterns[1..])
        ensures exists i :: 0 <= i < |patterns| && patterns[i].avgGlucoseDrop == Some(d)
      {
        var i :| 0 <= i < |patterns[1..]| && patterns[1..][i].avgGlucoseDrop == Some(d);
        assert patterns[i + 1] == patterns[1..][i];
      }
    }
  }

  /** The reply body. */
  datatype PatientContextReply = PatientContextReply(
    glucoseHistory24h: seq<GlucoseRecord>,
    upcomingActivity: Option<ActivityDict>,
    recentExerciseDrops: seq<int>)

  /** `get_patient_context`. `telemetry` is the user's readings, newest
      first; `patterns` the user's weekly-pattern rows, newest first. The
      day is subtracted before any query and the week after the activity
      lookup, so a reference time less than a day after the smallest instant
      overflows first, and one less than a week after overflows only when
      the activity lookup has not failed already. */
  function PatientContext(referenceTime: IsoStamp, now: Time, telemetry: seq<TelemetryLogRow>, patterns: seq<PatternRow>)
    : (r: Result<PatientContextReply, ContextError>)
    ensures var ref := ReferenceTime(referenceTime, now);
      r.Success? <==> ref >= DropsWindowSeconds && UpcomingActivity(ref, patterns).Success?
    ensures var ref := ReferenceTime(referenceTime, now);
      r == Failure(ReferenceTimeOutOfRange) <==>
        ref < HistoryWindowSeconds || (ref < DropsWindowSeconds && UpcomingActivity(ref, patterns).Success?)
    ensures var ref := ReferenceTime(referenceTime, now);
      r.Success? ==>
        r.value.glucoseHistory24h == GlucoseHistory(HistoryRows(telemetry, ref - HistoryWindowSeconds))
        && r.value.upcomingActivity == UpcomingActivity(ref, patterns).value
        && r.value.recentExerciseDrops == RecentDrops(patterns)
  {
    var ref := ReferenceTime(referenceTime, now);
    if ref < HistoryWindowSeconds then Failure(ReferenceTimeOutOfRange)
    else
      var history := GlucoseHistory(HistoryRows(telemetry, ref - HistoryWindowSeconds));
      match UpcomingActivity(ref, patterns)
      case Failure(e) => Failure(e)
      case Success(upcoming) =>
        if ref < DropsWindowSeconds then Failure(ReferenceTimeOutOfRange)
        else Success(PatientContextReply(history, upcoming, RecentDrops(patterns)))
  }

  /** The reply as the investigator reads it: every key present. */
  function AsWire(reply: PatientContextReply): (w: HistoryReply)
    ensures w.glucoseHistory24h == Some(reply.glucoseHistory24h)
    ensures w.upcomingActivity == reply.upcomingActivity
    ensures w.recentExerciseDrops == Some(reply.recentExerciseDrops)
  {
    HistoryReply(Some(reply.glucoseHistory24h), reply.upcomingActivity, Some(reply.recentExerciseDrops))
  }

  /** Every history reading is at most a day older than the reference time
      and comes from a row with a glucose value; there are at most 1000. */
  lemma HistoryWithinDay(referenceTime: IsoStamp, now: Time, telemetry: seq<TelemetryLogRow>, rec: GlucoseRecord)
    ensures var ref := ReferenceTime(referenceTime, now);
      var h := GlucoseHistory(HistoryRows(telemetry, ref - HistoryWindowSeconds));
      rec in h ==> (rec.time >= ref - HistoryWindowSeconds
        && exists i :: 0 <= i < |telemetry| && telemetry[i] == TelemetryLogRow(rec.time, Some(rec.glucose)))
    ensures var ref := ReferenceTime(referenceTime, now);
      |GlucoseHistory(HistoryRows(telemetry, ref - HistoryWindowSeconds))| <= HistoryLimit
  {
    var ref := ReferenceTime(referenceTime, now);
    var rows := HistoryRows(telemetry, ref - HistoryWindowSeconds);
    GlucoseHistoryMembers(rows, rec);
    GlucoseHistoryShorter(rows);
    if rec in GlucoseHistory(rows) {
      var i :| 0 <= i < |rows| && rows[i].glucose == Some(rec.glucose) && rows[i].recordedAt == rec.time;
      assert rows[i] == TelemetryLogRow(rec.time, Some(rec.glucose));
      assert rows[i] in telemetry;
    }
  }

  /** Conversely, with at most 1000 readings in the last day, every one of
      them with a glucose value is in the history. */
  lemma HistoryComplete(referenceTime: IsoStamp, now: Time, telemetry: seq<TelemetryLogRow>, i: nat)
    requires i < |telemetry| && telemetry[i].glucose.Some?
    requires telemetry[i].recordedAt >= ReferenceTime(referenceTime, now) - HistoryWindowSeconds
    requires |RecordedSince(telemetry, ReferenceTime(referenceTime, now) - HistoryWindowSeconds)| <= HistoryLimit
    ensures var ref := ReferenceTime(referenceTime, now);
      GlucoseRecord(telemetry[i].recordedAt, telemetry[i].glucose.value)
        in GlucoseHistory(HistoryRows(telemetry, ref - HistoryWindowSeconds))
  {
    var cutoff := ReferenceTime(referenceTime, now) - HistoryWindowSeconds;
    var rows := HistoryRows(telemetry, cutoff);
    RecordedSinceKeepsRecent(telemetry, cutoff);
    assert rows == RecordedSince(telemetry, cutoff);
    var j :| 0 <= j < |rows| && rows[j] == telemetry[i];
    GlucoseHistoryMembers(rows, GlucoseRecord(telemetry[i].recordedAt, telemetry[i].glucose.value));
  }

  lemma {:induction false} GlucoseHistoryShorter(rows: seq<TelemetryLogRow>)
    ensures |GlucoseHistory(rows)| <= |rows|
  {
    if rows != [] {
      GlucoseHistoryShorter(rows[1..]);
    }
  }

  // ---------------------------------------------------------------------------
  // Natural-language queries

  datatype HttpError = HttpError(status: int, detail: string)

  const NotImplemented: int := 501

  /** `nl2sql_query`: not implemented; every request is answered 501. */
  function Nl2SqlQuery(userId: string, question: string): (r: Result<seq<string>, HttpError>)
    ensures r.Failure? && r.error.status == NotImplemented
  {
    Failure(HttpError(NotImplemented, "NL2SQL feature not yet implemented"))
  }
}
