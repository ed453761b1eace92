# diabetes-guardian, modelled in Dafny

This project models the core of diabetes-guardian, a service that watches a
stream of wearable readings (glucose, heart rate, position) per user and
decides whether to do one of three things:

- send an emergency alert at once;
- queue an investigation by an agent workflow;
- do nothing.

The model covers four parts.

- **Trigger engine** (`triage.dfy`, `least_squares.dfy`, `constants.dfy`,
  `weekly_patterns.dfy`):
  - The hard rules are critical glucose, an age-adjusted heart-rate limit and
    a data gap. They accumulate reasons, and a single alert joins them with "; ".
  - The per-user sliding windows are a class `TriageEngine` holding a map of
    bounded windows, updated in place.
  - The soft rules are checked in a fixed order: first the least-squares
    glucose slope, then the pre-exercise rule with its hour-bucket lookup.
- **Telemetry endpoint** (`telemetry_router.dfy`):
  - the age default;
  - the hard rules short-circuit the soft rules;
  - the response shape;
  - the external effects, in order.
- **Investigation workflow** (`agent_state.dfy`, `investigator.dfy`,
  `reflector.dfy`, `communicator.dfy`, `graph.dfy`):
  - The shared record and the partial-dict merges.
  - The three nodes, each mapping a failed outside call to its fixed fallback.
  - The graph: investigator, then reflector, then the communicator unless the
    action is `NO_ACTION`.
  - Runs are bounded by the runtime's recursion limit.
- **Context services** (`location_context.dfy`, `patient_history.dfy`):
  - Known-place resolution is an imperative loop with last-wins and ever-true
    flags, followed by a stable sort by distance and a cut to five.
  - The SQL safety check, the shaping of the patient context from query rows,
    and the unimplemented natural-language endpoint.

Units are exact integers:

| quantity | unit |
|---|---|
| glucose | hundredths of a mmol/L |
| probability | thousandths |
| heart-rate ratio | tenths |
| instant | whole seconds since 0001-01-01 (a Monday) |
| coordinates | integers |

- The heart-rate rule is `10 * hr > 9 * (220 - age)`.
- The slope is the exact least-squares quotient over the reals. Its
  threshold is decided in integers, as `6 * Cov + Spread < 0`.

Outside the process, the model takes the following as parameters or
returns them as recorded events:

- database rows and query outcomes;
- language-model replies;
- HTTP outcomes;
- whether storing and queueing succeed;
- the clock.

Behaviour of the code worth noting, which the model keeps:

- The reflector copies the three parsed keys unchecked
  (`agent/nodes/reflector.py:107-111`). The answer format in its prompt lists
  three actions (`agent/nodes/reflector.py:28`), but any string reaches the
  record. Every value other than `NO_ACTION` routes to the communicator
  (`agent/graph.py:35-40`).
- A failure to store a reading is logged and re-raised
  (`gateway/services/persistence.py:36-42`). The request then aborts after
  the hard rules have run.
- The two context calls fall back on any transport failure. The
  investigator node itself indexes the task and the replies directly
  (`agent/nodes/investigator.py:120-144`), so a missing key raises.
- The rule-based fallback's reasoning is the literal "LLM 不可用，执行规则兜底"
  (`agent/nodes/reflector.py:33-38`).
- The patient-history service subtracts a day from the reference time before
  its queries and a week after the activity lookup
  (`mcp_servers/patient_history_mcp.py:124`, `:173`). The week is never used,
  but the subtraction still overflows and the request fails for a reference
  time less than a week after 0001-01-01.
- The assessment prompt reads the activity key `avg_drop`
  (`agent/nodes/reflector.py:58-64`). The history service writes
  `avg_glucose_drop` (`mcp_servers/patient_history_mcp.py:164-170`), so the
  prompt's average drop always shows N/A.

## Model

| member | source | states |
|---|---|---|
| WeeklyPatterns.TopByProbability | diabetes-guardian/gateway/services/triage.py:209-221 | the row picked is a kept row of greatest probability (NULL last); nothing is picked exactly when no row is kept |
| Common.Weekday | diabetes-guardian/gateway/services/triage.py:199 | the weekday is in 0..6, counted from Monday |
| Common.Hour | diabetes-guardian/gateway/services/triage.py:200 | the hour of an instant is in 0..23 |
| Common.Minute | diabetes-guardian/gateway/services/triage.py:204 | the minute of an instant is in 0..59 |
| Common.DayStart | diabetes-guardian/gateway/services/triage.py:227-229 | midnight of the same date is at most the instant and less than a day before it |
| Common.ClockDecomposition | diabetes-guardian/gateway/services/triage.py:227-230 | an instant is its midnight plus its hours, minutes and seconds |
| Common.NatText | diabetes-guardian/mcp_servers/location_context_mcp.py:153 | `str(n)` is a non-empty run of digits with no leading zero, and is "0" only for 0 |
| Common.NatTextRoundTrip | diabetes-guardian/mcp_servers/location_context_mcp.py:153 | reading the digits back gives the number, so distinct distances print differently |
| Common.Join | diabetes-guardian/gateway/services/triage.py:93 | no parts give the empty text, a single part gives itself unchanged |
| Common.JoinContainsParts | diabetes-guardian/gateway/services/triage.py:93 | every part can be found in the joined text |
| Common.Lower | diabetes-guardian/mcp_servers/patient_history_mcp.py:101 | lowering keeps the length and lowers each character |
| Triage.RecentCount | diabetes-guardian/gateway/services/triage.py:71-80 | the count of the user's rows at or after the cutoff is 0 exactly when no row of the user is that recent |
| Triage.HardReasons | diabetes-guardian/gateway/services/triage.py:53-84 | each of the three reasons is present exactly when its rule holds (strict glucose and heart-rate limits, a successful empty gap query); the list is empty exactly when none holds, and has no duplicate |
| Triage.EvaluateHardTriggers | diabetes-guardian/gateway/services/triage.py:43-102 | returns true exactly when some rule holds; then exactly one alert is sent, to the reading's user, with the reasons joined by "; "; otherwise no alert |
| Triage.AlertNamesEveryReason | diabetes-guardian/gateway/services/triage.py:92-99 | every reason found can be read in the alert text |
| Triage.HardThresholdsAreStrict | diabetes-guardian/gateway/services/triage.py:56-66 | glucose 3.9 does not fire, heart rate 180 at age 20 does not fire, any glucose below 3.9 fires whatever the age and heart rate |
| Triage.HeartRateLimitForAge34 | diabetes-guardian/gateway/services/triage.py:62-66 | at age 34 the limit is 167.4: 170 fires, 167 does not, and the alert prints the limit as "167" |
| Triage.Push | diabetes-guardian/gateway/services/triage.py:116-121 | appending to the bounded deque ends with the new sample and holds 1 to 20 samples |
| Triage.PushKeepsNewest | diabetes-guardian/gateway/services/triage.py:116-121 | a push keeps exactly the newest 20 of the old window and the new sample |
| Triage.Replay | diabetes-guardian/gateway/services/triage.py:115-121 | after any series of readings a window holds at most 20 samples |
| Triage.ReplayKeepsNewest | diabetes-guardian/gateway/services/triage.py:115-121 | after any series of readings the window is exactly the newest 20 (or all), oldest first |
| Triage.SlopeDefined | diabetes-guardian/gateway/services/triage.py:124-131 | with three samples and the newest later than the oldest, the fit's denominator is positive, so the slope exists |
| Triage.SlopeFiresIffSteepDecline | diabetes-guardian/gateway/services/triage.py:130-132 | the integer test fires exactly when the least-squares slope in mmol/L per minute is below -0.1 |
| Triage.SteadyDeclineFires | diabetes-guardian/gateway/services/triage.py:124-132 | a window falling steadily by d hundredths every 5 minutes fires exactly when d > 50 (a fall faster than 0.1 per minute) |
| Triage.HoursToCheck | diabetes-guardian/gateway/services/triage.py:202-207 | the set is the current hour, the next hour (mod 24) when minute >= 30 and the previous hour (mod 24) when minute <= 30, and nothing else |
| Triage.CheckUpcomingActivity | diabetes-guardian/gateway/services/triage.py:189-240 | an activity found carries the hour and probability of a candidate row (same weekday, hour to check, probability >= 0.70), so its probability is at least 0.70; with no candidate row nothing is found |
| Triage.TopRowDecides | diabetes-guardian/gateway/services/triage.py:209-238 | an activity is found exactly when the most probable candidate row starts within 60 minutes; it then carries that row's type, probability, hour and average drop (NULL as 0), and is at least as probable as every candidate |
| Triage.CurrentHourAlwaysPasses | diabetes-guardian/gateway/services/triage.py:226-232 | the current hour always starts within 60 minutes |
| Triage.NextHourPassesBeforeMidnight | diabetes-guardian/gateway/services/triage.py:203-232 | from minute 30 on, the next hour passes when it is on the same date |
| Triage.MidnightWrapNeverPasses | diabetes-guardian/gateway/services/triage.py:203-232 | hour 0 seen from 23:30 on, and hour 23 seen up to 00:30, never pass, because the hour is replaced on the same date |
| Triage.PreviousHourPassesOnlyOnTheHour | diabetes-guardian/gateway/services/triage.py:206-232 | the previous hour passes exactly at hh:00:00 |
| Triage.OnlyTopRowIsExamined | diabetes-guardian/gateway/services/triage.py:209-238 | when the most probable candidate fails the 60-minute check nothing is found, even if another candidate would pass |
| Triage.TaskFor | diabetes-guardian/gateway/services/triage.py:140-149 | a task copies the reading's user, time, glucose, heart rate and position |
| Triage.SlopeRuleFirst | diabetes-guardian/gateway/services/triage.py:123-149 | when the slope rule fires the task is a slope task, whatever the glucose band and the pattern lookup |
| Triage.PreExerciseConditions | diabetes-guardian/gateway/services/triage.py:151-186 | without a slope task, a task comes exactly from glucose in 4.0..5.6 inclusive, a successful lookup and an upcoming activity, and is a pre-exercise task; a failing lookup gives none |
| Triage.TaskCopiesReading | diabetes-guardian/gateway/services/triage.py:140-178 | every task copies the reading and names one of the two soft triggers |
| Triage.TriageEngine.WindowOf | diabetes-guardian/gateway/services/triage.py:116-120 | an unseen user has an empty window |
| Triage.TriageEngine.Remember | diabetes-guardian/gateway/services/triage.py:115-121 | keeps every window at 1..20 samples and replaces only the reading's user's window, by the old window (empty when unseen) with the new sample pushed |
| Triage.TriageEngine.constructor | diabetes-guardian/gateway/services/triage.py:40 | the engine starts with no windows |
| Triage.TriageEngine.EvaluateSoftTriggers | diabetes-guardian/gateway/services/triage.py:105-186 | keeps every window at 1..20 samples, replaces only the reading's user's window by the pushed one, and returns the soft outcome on that window |
| Triage.ApplySoftRules | diabetes-guardian/gateway/services/triage.py:123-186 | the slope rule, then the pre-exercise rule, as the soft outcome defines them |
| Triage.WindowUpdateIsLocal | diabetes-guardian/gateway/services/triage.py:115-121 | after an update the user's window exists, ends with the new sample, holds at most 20, drops the oldest when full; every other user's window is unchanged |
| LeastSquares.ExactOnLine | diabetes-guardian/gateway/services/triage.py:131 | points on an exact line have that line's slope |
| LeastSquares.ShiftInvariant | diabetes-guardian/gateway/services/triage.py:125-127 | moving the time origin (the oldest sample in the source) keeps the spread and the covariation, hence the slope |
| LeastSquares.SpreadPositive | diabetes-guardian/gateway/services/triage.py:130-131 | abscissae that are not all equal give a positive denominator |
| LeastSquares.SpreadNonneg | diabetes-guardian/gateway/services/triage.py:131 | the denominator is never negative |
| TelemetryRouter.AgeOrDefault | diabetes-guardian/gateway/routers/telemetry.py:41-49 | a missing age becomes 30, a stored one is kept |
| TelemetryRouter.ReceiveTelemetry | diabetes-guardian/gateway/routers/telemetry.py:23-85 | the hard rules always run and alert; a storage failure aborts; a hard trigger answers "hard" and leaves the windows untouched; otherwise the soft rules update the user's window and a task is sent once, answering "soft" whether or not the queue accepts it |
| TelemetryRouter.ResponseFor | diabetes-guardian/gateway/routers/telemetry.py:52-85 | a stored reading always answers status "received", with trigger "hard", "soft" or no trigger key, and no other key |
| AgentState.Merge | diabetes-guardian/agent/state.py:12-32 | a node's partial dict sets exactly its own keys and leaves every other key, the task and the user id as they were |
| AgentState.MergeIdempotent | diabetes-guardian/agent/state.py:12-32 | merging the same partial dict again changes nothing |
| AgentState.MergesOfDifferentNodesCommute | diabetes-guardian/agent/state.py:19-32 | partial dicts of different nodes touch disjoint keys, so their order does not matter |
| AgentState.InitialState | diabetes-guardian/agent/main.py:37-54 | a task without `user_id` fails before the run; otherwise the record holds the task and its user id, every output None and `notification_sent` False |
| Investigator.LocationResult | diabetes-guardian/agent/nodes/investigator.py:33-71 | a successful call gives the body; a timeout, error status or other failure gives the unknown location, not at home, with no nearby places |
| Investigator.HistoryResult | diabetes-guardian/agent/nodes/investigator.py:74-111 | a successful call gives the body; any failure gives the fallback: an empty history, no activity and no drops |
| Investigator.InvestigatorNode | diabetes-guardian/agent/nodes/investigator.py:114-144 | raises exactly when a key the calls or the result need is missing; otherwise returns the four context fields copied from the replies, with upcoming defaulting to None and drops to [], and makes the calls with the task's user, position and trigger time |
| Investigator.BothCallsFailGiveFallback | diabetes-guardian/agent/nodes/investigator.py:20-30 | two failed calls give "未知位置", [], None and [] |
| Investigator.CallsFallBackIndependently | diabetes-guardian/agent/nodes/investigator.py:123-128 | the location field depends only on the location call, the three history fields only on the history call |
| Investigator.OutageNeverRaises | diabetes-guardian/agent/nodes/investigator.py:114-144 | with a complete task a service outage never makes the node raise |
| Reflector.BuildUserPrompt | diabetes-guardian/agent/nodes/reflector.py:44-70 | the prompt starts with the glucose, heart-rate, trigger and location lines and has at most three more |
| Reflector.PromptShowsTruthyFields | diabetes-guardian/agent/nodes/reflector.py:54-68 | the history, upcoming and drops lines each appear exactly when their field is truthy, in that order |
| Reflector.ReflectorNode | diabetes-guardian/agent/nodes/reflector.py:73-130 | never raises; a parsed reply with the three keys is copied unchanged, anything else gives MEDIUM, the rule-based reasoning and SOFT_REMIND |
| Reflector.FallbackIsRuleBased | diabetes-guardian/agent/nodes/reflector.py:34-38 | the fallback says it is rule based and does not choose NO_ACTION |
| Reflector.UpcomingDropAlwaysMissing | diabetes-guardian/agent/nodes/reflector.py:58-64 | for an activity without the `avg_drop` key the prompt's average drop is N/A |
| Communicator.BuildCommunicatorPrompt | diabetes-guardian/agent/nodes/communicator.py:36-51 | five fixed lines, and a sixth with the activity exactly when it is truthy |
| Communicator.InterventionRecordFor | diabetes-guardian/agent/nodes/communicator.py:54-86 | the record holds the user, the message, the task's trigger type and time (now when missing) and exactly the three reflector fields; an unparsable trigger time gives no record |
| Communicator.CommunicatorNode | diabetes-guardian/agent/nodes/communicator.py:89-139 | never raises; the message is the model's text or the template; it is pushed to the record's user; a record is logged only when storing succeeds; the node returns the message and `notification_sent` True |
| Communicator.FallbackNamesGlucose | diabetes-guardian/agent/nodes/communicator.py:113-122 | when the model fails the message contains the current glucose (or N/A) |
| Communicator.FallbackExample | diabetes-guardian/agent/nodes/communicator.py:120-122 | the template for glucose 4.8 reads "您当前血糖 4.8 mmol/L，建议适当补充碳水化合物。" |
| Graph.InvestigatorStep | diabetes-guardian/agent/nodes/investigator.py:123-144 | the investigator succeeds exactly when its node does, writes the context fields, and issues the location request then the history request |
| Graph.ReflectorStep | diabetes-guardian/agent/nodes/reflector.py:79-111 | the reflector writes the assessment fields and issues one request |
| Graph.CommunicatorStep | diabetes-guardian/agent/nodes/communicator.py:124-128 | the communicator writes the notification fields and records two or three events, the first its message request |
| Graph.Successor | diabetes-guardian/agent/graph.py:31-41 | investigator goes to reflector; reflector goes to the communicator exactly when the action is not "NO_ACTION" (None and unknown strings included), to the end otherwise; the communicator goes to the end |
| Graph.Run | diabetes-guardian/agent/graph.py:25-43 | a finished run never visits the end node and keeps the task and the user id |
| Graph.ActionChosen | diabetes-guardian/agent/nodes/reflector.py:98-130 | the action is the parsed one, or SOFT_REMIND when the reply does not parse |
| Graph.ReflectorChoosesAction | diabetes-guardian/agent/nodes/reflector.py:107-130 | the reflector writes the chosen action |
| Graph.RunFromCommunicate | diabetes-guardian/agent/graph.py:41 | from the communicator a run takes one step and ends |
| Graph.ReflectorWritesAction | diabetes-guardian/agent/nodes/reflector.py:107-121 | after the reflector's merge the record holds the chosen action |
| Graph.RunFromReflectStopping | diabetes-guardian/agent/graph.py:35-40 | with NO_ACTION a run from the reflector ends after it |
| Graph.RunFromReflectNotifying | diabetes-guardian/agent/graph.py:35-41 | with any other action a run from the reflector runs the communicator and ends |
| Graph.RunFromReflect | diabetes-guardian/agent/graph.py:35-41 | a run from the reflector is the reflector step then, unless NO_ACTION, the communicator step |
| Graph.InvokeIsExpected | diabetes-guardian/agent/graph.py:25-43 | a run of a runnable task succeeds and is exactly the node-by-node trace |
| Graph.ReflectTraceVisits | diabetes-guardian/agent/graph.py:35-41 | from the reflector the nodes visited are reflector, then communicator exactly when the action is not NO_ACTION |
| Graph.ExpectedVisits | diabetes-guardian/agent/graph.py:31-41 | the trace visits investigator, reflector, and communicator exactly when the action is not NO_ACTION |
| Graph.RunShape | diabetes-guardian/agent/graph.py:25-43 | every run of a runnable task succeeds, starts at the investigator, visits each node at most once and ends within 3 steps, well inside the limit of 25 |
| Graph.NoActionSendsNothing | diabetes-guardian/agent/graph.py:35-40 | on the NO_ACTION path nothing is pushed, the message stays None and `notification_sent` False |
| Graph.ReflectTracePushesOnce | diabetes-guardian/agent/nodes/communicator.py:124-128 | from the reflector with an action, the push is the only push and precedes any log record |
| Graph.ExpectedAfterInvestigator | diabetes-guardian/agent/graph.py:31-32 | the trace is the investigator's two requests followed by the trace from the reflector |
| Graph.ExpectedPushesOnce | diabetes-guardian/agent/graph.py:25-43 | with an action, the trace's fifth event is the push to the task's user of the final message, the only push, before any log record |
| Graph.OtherActionsPushOnce | diabetes-guardian/agent/nodes/communicator.py:124-139 | with any action but NO_ACTION a run pushes exactly once, to the task's user, the message it ends with, and logs only after that |
| Graph.NothingOverwritten | diabetes-guardian/agent/state.py:12-32 | at the end the task and user id are the initial ones and every context field and the action hold what their own node wrote |
| Graph.AssessmentOutageStillNotifies | diabetes-guardian/agent/nodes/reflector.py:113-130 | when the model fails the communicator still runs and the user is notified |
| Graph.FailsOnlyInInvestigator | diabetes-guardian/agent/nodes/investigator.py:120-144 | a run fails exactly when the task or a reply lacks a key the investigator needs, and then fails in the investigator |
| Graph.ServiceActivityShowsNoDrop | diabetes-guardian/agent/nodes/reflector.py:58-64 | an activity the history service reports has an average drop, yet once the investigator copies it into the record the assessment prompt shows its drop as N/A |
| LocationContext.OrDefault | diabetes-guardian/mcp_servers/location_context_mcp.py:135-137 | a name or type that is None or empty becomes the default |
| LocationContext.LastWithin | diabetes-guardian/mcp_servers/location_context_mcp.py:141-143 | the index found is of a row within 200 m with no later such row; none is found only when no row is within |
| LocationContext.InsertPermutes | diabetes-guardian/mcp_servers/location_context_mcp.py:148 | inserting adds exactly the new entry |
| LocationContext.InsertKeepsOrder | diabetes-guardian/mcp_servers/location_context_mcp.py:148 | inserting into a sorted list keeps it sorted |
| LocationContext.InsertKeepsTies | diabetes-guardian/mcp_servers/location_context_mcp.py:148 | the new entry goes after every entry at its own distance |
| LocationContext.SortOrders | diabetes-guardian/mcp_servers/location_context_mcp.py:148 | the sort orders by distance, ascending |
| LocationContext.SortPermutes | diabetes-guardian/mcp_servers/location_context_mcp.py:148 | the sort returns the same entries |
| LocationContext.SortIsStable | diabetes-guardian/mcp_servers/location_context_mcp.py:148 | entries at equal distance keep their query order |
| LocationContext.GetSemanticLocation | diabetes-guardian/mcp_servers/location_context_mcp.py:99-167 | the loop, sort, nearest-place text and cut to five give the reply the resolution defines |
| LocationContext.ListedRows | diabetes-guardian/mcp_servers/location_context_mcp.py:123-139 | exactly the rows with both coordinates are listed, as their entries |
| LocationContext.ResolvedLocation | diabetes-guardian/mcp_servers/location_context_mcp.py:141-153 | the location names the last place within 200 m; without one, the nearest place and its distance; with no place, "未知位置"; at home exactly when some place within 200 m is a home |
| LocationContext.ResolvedListing | diabetes-guardian/mcp_servers/location_context_mcp.py:148-166 | min(5, listed) entries, sorted by distance, taken from the listing, none farther than an entry left out, the first one a nearest place |
| LocationContext.SortedPrefix | diabetes-guardian/mcp_servers/location_context_mcp.py:166 | the first five of a sorted list are sorted, part of it, and no farther than the rest |
| LocationContext.FirstIsNearest | diabetes-guardian/mcp_servers/location_context_mcp.py:151-153 | the first entry after the sort is a nearest place |
| LocationContext.NothingListed | diabetes-guardian/mcp_servers/location_context_mcp.py:125-126 | rows without coordinates list nothing |
| LocationContext.NoPlacesGiveUnknown | diabetes-guardian/mcp_servers/location_context_mcp.py:108-166 | with no usable place the reply is "未知位置", not at home, no places |
| PatientHistory.ValidateSql | diabetes-guardian/mcp_servers/patient_history_mcp.py:95-106 | the loop raises as the verdict defines for the given keyword order |
| PatientHistory.SqlVerdictMeaning | diabetes-guardian/mcp_servers/patient_history_mcp.py:95-106 | in any keyword order, the text passes exactly when no keyword occurs in it in any case and it has at most 2000 characters; a keyword is named ahead of the length and is one the text contains |
| PatientHistory.KeywordInsideRejected | diabetes-guardian/mcp_servers/patient_history_mcp.py:101-104 | a keyword inside a longer word (`created_at`) is rejected |
| PatientHistory.UpperCaseRejected | diabetes-guardian/mcp_servers/patient_history_mcp.py:101-104 | "DROP TABLE t" is rejected |
| PatientHistory.LengthLimitIsInclusive | diabetes-guardian/mcp_servers/patient_history_mcp.py:105-106 | 2000 characters pass, 2001 are too long |
| PatientHistory.ReferenceTime | diabetes-guardian/mcp_servers/patient_history_mcp.py:119-122 | a parsable reference time is used, otherwise the current time |
| PatientHistory.HistoryRows | diabetes-guardian/mcp_servers/patient_history_mcp.py:128-136 | the first min(1000, n) of the n rows at or after the cutoff, in query order; each is a row of the log |
| PatientHistory.RecordedSince | diabetes-guardian/mcp_servers/patient_history_mcp.py:128-132 | every row kept is a row of the log at or after the cutoff, and there are no more than the rows |
| PatientHistory.RecordedSinceKeepsRecent | diabetes-guardian/mcp_servers/patient_history_mcp.py:128-132 | every row at or after the cutoff is kept |
| PatientHistory.RecordedSinceConcat | diabetes-guardian/mcp_servers/patient_history_mcp.py:128-132 | the filter works row by row, so query order is kept |
| PatientHistory.RecordedSinceNewestFirst | diabetes-guardian/mcp_servers/patient_history_mcp.py:128-133 | rows newest first stay newest first after the filter |
| PatientHistory.HistoryKeepsNewest | diabetes-guardian/mcp_servers/patient_history_mcp.py:128-136 | with the rows newest first, no recent row left out is newer than a kept one, and with at most 1000 recent rows every one is kept |
| PatientHistory.GlucoseHistoryConcat | diabetes-guardian/mcp_servers/patient_history_mcp.py:137-141 | the history is built row by row and keeps query order |
| PatientHistory.GlucoseHistoryMembers | diabetes-guardian/mcp_servers/patient_history_mcp.py:137-141 | a reading is in the history exactly when a row carries it with a non-NULL glucose |
| PatientHistory.HistoryComplete | diabetes-guardian/mcp_servers/patient_history_mcp.py:124-141 | with at most 1000 readings in the last day, every one of them with a glucose value is in the history |
| PatientHistory.GlucoseHistoryShorter | diabetes-guardian/mcp_servers/patient_history_mcp.py:137-141 | NULL filtering never adds readings |
| PatientHistory.UpcomingActivityMeaning | diabetes-guardian/mcp_servers/patient_history_mcp.py:144-170 | the activity is the most probable row of the weekday with hour in [h, min(h+2, 23)] and probability >= 0.5; a NULL drop becomes 0; nothing is reported only when no row qualifies |
| PatientHistory.RecentDrops | diabetes-guardian/mcp_servers/patient_history_mcp.py:174-183 | at most five drops |
| PatientHistory.RecentDropsMeaning | diabetes-guardian/mcp_servers/patient_history_mcp.py:174-183 | the drops are the first five non-NULL averages in query order, each from a row |
| PatientHistory.NonNullDropsFromRows | diabetes-guardian/mcp_servers/patient_history_mcp.py:176-183 | every drop is a row's non-NULL average |
| PatientHistory.PatientContext | diabetes-guardian/mcp_servers/patient_history_mcp.py:111-196 | the reply is the 24-hour history, the upcoming activity and the recent drops; it fails exactly when the activity row has no type or the reference time is too early to subtract a day (checked first) or a week (checked after the activity lookup) |
| PatientHistory.AsWire | diabetes-guardian/mcp_servers/patient_history_mcp.py:192-196 | the reply carries all three keys the investigator reads |
| PatientHistory.HistoryWithinDay | diabetes-guardian/mcp_servers/patient_history_mcp.py:124-141 | every reading is at most a day older than the reference time and comes from a log row with that glucose; there are at most 1000 |
| PatientHistory.Nl2SqlQuery | diabetes-guardian/mcp_servers/patient_history_mcp.py:199-211 | every request is answered with status 501 |

## Left out

- Floating point:
  - The `numpy.polyfit` slope is the exact least-squares quotient over the reals.
  - The slope in a context note is kept as a real, not as the four-decimal text.
  - The alert's heart-rate limit is printed by rounding exact tenths half to even.
  - Glucose and probabilities are printed as Python prints two- and three-decimal floats.
- The great-circle distance (`haversine_distance`) is a parameter `dist` from
  the two positions to whole metres. Coordinates are integers.
- Databases, SQL and the ORM:
  - every query is given as its rows, already filtered by user and in its
    ORDER BY order, or as its outcome;
  - "ORDER BY probability DESC LIMIT 1" leaves ties open, and the model picks the earliest row;
  - the history query's `week_ago` is computed but unused, and the model has no seven-day bound either.
- The iteration order of the SQL keyword set depends on string hashing. It is a parameter `order`.
- `str.lower` is modelled for ASCII letters only. Non-ASCII letters are left as they are.
- Language models: each call is given as its reply.
  - The assessment reply is given already decoded. JSON decoding is not modelled.
  - A decoded object's values are taken to be strings.
  - Prompts are sequences of structured lines, not rendered text. This leaves out the reprs of lists and dicts.
- HTTP and web frameworks:
  - httpx clients and their timeouts, FastAPI apps and request validation,
    and Celery are not modelled.
  - An HTTP call is given as its outcome.
  - Queueing a task is an event with a flag saying whether the queue accepted it.
- The push and emergency-alert stubs are recorded as events. structlog logging is not modelled.
- `asyncio.gather` runs its two calls in sequence. Storing a reading and the
  hard rules both complete before a storage failure aborts the request.
  Per-user locking is not modelled.
- `datetime.utcnow()` and `datetime.now()` are a parameter `now`.
  - The user's age is given as the profile lookup's result.
  - Instants are whole seconds with no time zone. Sub-second parts are not modelled.
- The reflector returns a fresh copy of its fallback. Values in the model are
  immutable, so the copy has nothing to model.
- The prompts' 'UNKNOWN' and 'N/A' defaults for record keys never show,
  because the initial record sets every key. A None shows as None.
- `list.sort` in place is a stable insertion-sort function over the listing.
  `LocationContext.GetSemanticLocation` sorts the sequence it built rather
  than an array in place.
- `Graph.Run` takes a fuel bound of 25 node executions, the runtime's
  default recursion limit. A run that needs more fails with
  `RecursionLimitReached`.
- The reply model refuses a NULL activity type. That answer is the error
  value `ActivityTypeMissing`, not an HTTP 500 response.
