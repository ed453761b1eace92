/** The JSON shapes exchanged between the agent and the two context services,
    and the outcome of an HTTP call to a service. Every key a reader may find
    missing is an `Option`; values keep the types the services declare.
    Glucose is in hundredths of a mmol/L, probabilities in thousandths. */
module Wire {
  import opened Common

  /** A timestamp sent as text (`trigger_at`, `reference_time`): an ISO
      instant, or text `fromisoformat` rejects. */
  datatype IsoStamp = Iso(t: Time) | Malformed

  /** `{"time": ..., "glucose": ...}`: one reading of the 24-hour history. */
  datatype GlucoseRecord = GlucoseRecord(time: Time, glucose: int)

  /** An upcoming-activity dict. The history service writes `type`,
      `probability`, `expected_start_hour` and `avg_glucose_drop`; `avg_drop`
      is the key the risk-assessment prompt reads. */
  datatype ActivityDict = ActivityDict(
    kind: Option<string>,
    probability: Option<int>,
    expectedStartHour: Option<int>,
    avgGlucoseDrop: Option<int>,
    avgDrop: Option<int>)
  {
    /** Python truthiness of a dict: it has at least one key. */
    predicate Truthy() {
      kind.Some? || probability.Some? || expectedStartHour.Some?
      || avgGlucoseDrop.Some? || avgDrop.Some?
    }
  }

  /** `{"name": ..., "distance_m": ..., "type": ...}`. */
  datatype NearbyPlace = NearbyPlace(name: string, distanceM: nat, kind: string)

  /** The body of a semantic-location reply. */
  datatype LocationReply = LocationReply(
    semanticLocation: Option<string>,
    isAtHome: Option<bool>,
    nearbyKnownPlaces: Option<seq<NearbyPlace>>)

  /** The body of a patient-context reply; `upcomingActivity` is None when the
      key is missing or its value is null, which `dict.get` cannot tell apart. */
  datatype HistoryReply = HistoryReply(
    glucoseHistory24h: Option<seq<GlucoseRecord>>,
    upcomingActivity: Option<ActivityDict>,
    recentExerciseDrops: Option<seq<int>>)

  /** What a POST to a context service comes to: a decoded body, a timeout,
      an error status (4xx or 5xx), or any other failure (connection refused,
      a body that is not JSON). */
  datatype HttpOutcome<T> =
    | Ok(body: T)
    | Timeout
    | StatusError(status: int)
    | Unexpected
}
