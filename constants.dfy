/** Clinical thresholds of the trigger engine, in exact units:
    glucose in hundredths of a mmol/L, probabilities in thousandths,
    heart-rate ratio and slope in tenths, durations in minutes. */
module Constants {
  /** 3.9 mmol/L: below it the hard trigger fires. */
  const GlucoseHardLow: int := 390
  /** 4.0 to 5.6 mmol/L, both inclusive: the pre-exercise band. */
  const GlucoseSoftLowMin: int := 400
  const GlucoseSoftLowMax: int := 560
  /** Maximum heart rate is (220 - age) * 0.90, i.e. 9 tenths. */
  const MaxHrRatioTenths: int := 9
  const TelemetryGapAlertMin: nat := 30
  const PreExerciseWarnMin: nat := 60
  /** 0.70 in thousandths. */
  const ActivityProbabilityThreshold: int := 700
  /** -0.1 mmol/L per minute, in tenths. */
  const GlucoseSlopeTriggerTenths: int := -1
  const SlidingWindowMaxLen: nat := 20
}
