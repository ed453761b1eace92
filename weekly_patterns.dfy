/** Rows of the `user_weekly_patterns` table and the "highest probability
    first, one row" selection both the trigger engine and the patient-history
    service run against it. Every column but the key may be NULL. */
module WeeklyPatterns {
  import opened Common

  datatype PatternRow = PatternRow(
    dayOfWeek: Option<int>,
    hourOfDay: Option<int>,
    activityType: Option<string>,
    probability: Option<int>,       // thousandths
    avgGlucoseDrop: Option<int>)    // hundredths of a mmol/L

  /** The ordering key of `ORDER BY probability DESC`; a NULL probability
      sorts last. */
  function Rank(row: PatternRow): int {
    match row.probability
    case Some(p) => p
    case None => -1
  }

  /** `probability >= threshold` in SQL: false when the probability is NULL. */
  predicate ProbabilityAtLeast(row: PatternRow, threshold: int) {
    row.probability.Some? && row.probability.value >= threshold
  }

  /** `... WHERE keep ORDER BY probability DESC LIMIT 1`: a kept row of the
      greatest probability, or nothing when no row is kept. SQL leaves the
      choice among equal probabilities open; this picks the earliest. */
  function TopByProbability(rows: seq<PatternRow>, keep: PatternRow -> bool): (r: Option<PatternRow>)
    ensures r.Some? ==> r.value in rows && keep(r.value)
    ensures r.Some? ==> forall x :: x in rows && keep(x) ==> Rank(x) <= Rank(r.value)
    ensures r.None? <==> forall x :: x in rows ==> !keep(x)
  {
    if rows == [] then None
    else
      var rest := TopByProbability(rows[1..], keep);
      assert forall x :: x in rows ==> x == rows[0] || x in rows[1..];
      if !keep(rows[0]) then rest
      else if rest.None? || Rank(rest.value) <= Rank(rows[0]) then Some(rows[0])
      else rest
  }
}
