# Smart traffic signals: timing engine and signal state machine

This project is a Dafny model of the timing core of a small traffic-signal
management system. Each signal cycles green, yellow and red. The length of
its green phase comes from a simulated vehicle count. A background ticker
runs the countdown down and starts a new cycle when it expires. Operators
can override a signal, re-simulate all signals, or pin a signal to green in
emergency mode.

The modules follow the program:

- `Timing` (`timing.dfy`) holds the pure timing policy. It maps a vehicle
  count to a green time (25, 45 or 70 s) and to a density class (Low,
  Medium, High), both with the same 20/40 thresholds. It also holds the
  cycle length (green + 10 s), the phase for a countdown (fixed 8 s and
  3 s thresholds), the 0..100 efficiency score and the density colour
  lookup. The simulated vehicle count is the subset type `Draw`, which
  holds 1..80.
- `Signals` (`signals.dfy`) holds the signal record, the history snapshot
  and the `FreshCycle` record that starts a cycle from a count. It also
  holds the two consistency conditions: the phase follows the countdown,
  and green time and density follow the count.
- `Store` (`store.dfy`) models the signal table as a `map<int, Signal>`.
  Its listing in id order is a sequence. `Sweep` is the loop the ticker,
  the start-up code and the simulate handler all share: it reads every
  listed signal once, writes back each signal's update under its id, and
  appends the snapshots that are due, in id order.
- `App` (`app.dfy`) holds the per-signal tick, the full ticker pass, the
  start-up cycle initialisation, and lemmas about one signal over many
  ticks.
- `Routes` (`routes.dfy`) holds the read-one-signal, override, simulate and
  emergency-toggle handlers, including their 400 and 404 guards.

Every history row the core writes records the final vehicle count, green
time and density of the signal it was taken for. So an update is modelled
as the new record plus a flag saying whether a snapshot of it is due.
Randomness is an input. A pass receives `draws: int -> Draw`, the count the
simulator would return for each signal id. Each signal draws at most once
per pass, so every run of the real simulator matches some such function.

Some facts about the code that the model keeps:

- The timing score truncates (`int(ratio * 100)`); it does not round. A
  green time of 60 s against an ideal of 25 s scores 41.
- The two phase-bonus conditions (more than 40 vehicles on green, fewer
  than 10 on red) cannot both hold, so the `elif` between them changes
  nothing.
- The two throughput-penalty conditions can both hold, and there the
  `elif` matters: 60 vehicles at a green time of 20 s lose 20 points, not
  35.
- A cycle's countdown starts at g + 10 for green time g. Countdown values
  g + 10 down to 9 show green, 8 to 4 yellow and 3 to 1 red. The ticker
  takes 3 s off every 3 s and restarts the cycle on the first tick that
  would reach zero or below. So every policy cycle shows yellow for two
  ticks (6 s) and red for one (3 s), and lasts 81 s at green time 70,
  57 s at 45 and 36 s at 25.
- The ticker's `try` wraps the whole pass, so it does not isolate errors
  per signal.
- An override accepts any integer green time the store's 64-bit columns
  hold, including zero and negative ones.

## Model

| member | source | states |
|---|---|---|
| Timing.GreenTime | traffic_logic.py:9-23 | the green time is always one of the three tiers 25, 45, 70 and never below 25 |
| Timing.GreenTimeTiers | traffic_logic.py:9-23 | green time is 70 iff more than 40 vehicles, 45 iff 20..40, 25 iff fewer than 20 |
| Timing.GreenTimeMonotone | traffic_logic.py:9-23 | more vehicles never give a shorter green |
| Timing.Classify | traffic_logic.py:26-33 | High iff more than 40 vehicles, Medium iff 20..40, Low iff fewer than 20 |
| Timing.DensityMatchesGreenTime | traffic_logic.py:18-33 | density is High exactly when green time is 70, Medium exactly at 45, Low exactly at 25; green time is the density's tier |
| Timing.DensityColor | traffic_logic.py:36-38 | Low maps to green, Medium to amber, High to red, each in both directions; any other text maps to gray |
| Timing.ColorOfDensity | traffic_logic.py:36-38 | every density class gets its own colour, never the gray fallback |
| Timing.SimulatedCycleBounds | traffic_logic.py:41-43 | a cycle started from any simulated count (1..80) has a cycle length (starting countdown) of 35 to 80 |
| Timing.PhaseOf | traffic_logic.py:46-57 | green iff countdown above 8, yellow iff 3 < countdown <= 8, red iff countdown <= 3 |
| Timing.PhaseIgnoresGreenTime | traffic_logic.py:46-57 | the phase is the same for every green time |
| Timing.PhaseOrder | traffic_logic.py:46-57 | as the countdown falls the phase only moves forward from green to yellow to red |
| Timing.CyclePhaseSplit | traffic_logic.py:46-62 | for green time g >= -1, the countdown values 9..g+10 show green, 4..8 yellow and 1..3 red |
| Timing.CycleStartsGreen | traffic_logic.py:46-62 | a full cycle starts green iff its green time is at least -1, so every tier's cycle starts green |
| Timing.TruncDiv | traffic_logic.py:80-81 | the quotient truncated toward zero: remainder bounds for both signs of the numerator |
| Timing.PercentOfLarger | traffic_logic.py:80-81 | the truncated percentage of the smaller value in the larger is at most 100, and exactly 100 iff they are equal |
| Timing.TimingScore | traffic_logic.py:76-81 | timing score at most 100, non-negative for a non-negative green time, and 100 iff the green time equals the ideal; the score is 100 * min / max truncated toward zero, bounded on both sides for either sign |
| Timing.TimingScoreTruncates | traffic_logic.py:80-81 | 60 s against an ideal of 25 s scores 41 and 45 s against 70 s scores 64: the fraction is cut off, not rounded |
| Timing.PhaseBonus | traffic_logic.py:83-88 | the bonus is 0, 5 or 10, never a sum; 10 iff more than 40 vehicles on green; 5 iff fewer than 10 vehicles on red |
| Timing.ThroughputPenalty | traffic_logic.py:90-95 | the penalty is 0, 15 or 20; 20 iff more than 50 vehicles with green under 45; 15 iff that does not hold but more than 30 vehicles with green under 25; any penalty needs green under 45 |
| Timing.PenaltyIsNotCumulative | traffic_logic.py:90-95 | with both penalty conditions true (60 vehicles, green 20) only the first, 20, applies |
| Timing.Efficiency | traffic_logic.py:65-98 | the efficiency score always lies in 0..100, and with no phase bonus and no throughput penalty it is exactly the timing score of the green time against the policy's |
| Timing.EfficiencyExamples | traffic_logic.py:74-98 | 60 vehicles at 20 s score 8 on yellow and 18 on green (one penalty of 20, not 35); 5 vehicles at 40 s on red score 67 (62 plus the red bonus) |
| Timing.IdealTimingScoresFull | traffic_logic.py:74-98 | a green time equal to the policy's green time scores exactly 100 in every phase |
| Timing.MistimingLosesScore | traffic_logic.py:74-98 | a green time different from the policy's, with no phase bonus, scores below 100 |
| Signals.FreshCycle | routes.py:95-105 | a new cycle keeps id and emergency flag, takes the count, pairs green time with its density tier, sets the countdown to a full cycle and a phase consistent with it |
| Signals.FreshCycleIsConsistent | app.py:43-47 | a new cycle has derived green time and density, a consistent phase, and starts green |
| Signals.FreshCycleBounds | app.py:43-46 | a new cycle from a simulated count has a countdown of 35 to 80 |
| Store.Sweep | app.py:34-35 | a pass gives each listed id its step's record and leaves every other entry alone |
| Store.SweepJournalSound | app.py:34-59 | each appended snapshot is of a listed signal whose step asked for one, and snapshot ids strictly increase |
| Store.SweepJournalComplete | app.py:34-59 | each listed signal whose step asks for a snapshot has it appended |
| Store.SweepTable | app.py:34-35 | a pass over a full id-ordered listing keeps the ids and gives every signal its step's record |
| Store.SweepSnapshotsSound | app.py:34-59 | over a full listing, every appended snapshot records a signal whose step asked for one, with its written-back values |
| Store.SweepSnapshotsComplete | app.py:34-59 | over a full listing, every signal whose step asks for a snapshot gets one |
| App.TickSignal | app.py:36-59 | emergency signal unchanged with no snapshot; otherwise countdown minus 3 with phase from it and nothing else changed, or at zero or below a fresh cycle from the draw (countdown 35..80) with a snapshot; the phase is consistent afterwards |
| App.TickPass | app.py:34-59 | every signal gets its tick; emergency signals are unchanged; afterwards every signal's phase is consistent; one snapshot, in id order, for each and only each signal that rolled over, holding its new values |
| App.InitSignal | app.py:82-93 | start-up keeps the count and emergency flag, derives green time and density, sets a full countdown and green, and records a snapshot |
| App.StartupPass | app.py:81-93 | every signal restarts its cycle from its own count; the history gains exactly one snapshot per signal, in id order, with the new values |
| App.EmergencyIgnoresTicks | app.py:36-38 | an emergency signal is unchanged and records nothing over any number of ticks |
| App.CountdownRunsDown | app.py:40-59 | while the countdown stays positive, n ticks take 3n seconds off it, the phase follows, nothing else changes and nothing is recorded |
| App.RolloverTick | app.py:40-59 | a running signal with countdown c > 0 records nothing for (c + 2) / 3 - 1 ticks and on tick (c + 2) / 3 restarts its cycle from that tick's draw with one snapshot |
| App.PolicyCycleTicks | app.py:21-59 | from a fresh cycle at any count, the ticker shows green, then yellow for exactly two ticks and red for one, and restarts with one snapshot on tick (g + 12) / 3: 81, 57 or 36 s for green time 70, 45 or 25 |
| App.CycleScenario | app.py:40-59 | a cycle at 45 vehicles starts at 80 s on green, is yellow with 5 s left after 25 ticks, red after 26, and restarts with one snapshot on the 27th |
| Store.ListingWellFormed | app.py:34-35 | in a full id-ordered listing of the table, every record is stored under its own id |
| Routes.OneSignal | routes.py:27-32 | 404 iff the id is absent; for a present id, 200 with exactly the record stored under it, whose id is the requested one |
| Routes.OverrideThenRead | routes.py:27-32 | after an override of a known signal, reading that signal returns the overridden record |
| Routes.OverrideSignal | routes.py:57-75 | a count sets count, density and green time from it; an explicit green time wins for green time; phase green and full countdown when anything was given; otherwise no change; emergency flag kept |
| Routes.Override | routes.py:45-83 | 400 iff there is no id, 404 for an unknown id, both with no change; otherwise only that signal changes, with one snapshot of its final record iff a field was given, carrying the requested id; every record stays under its own id |
| Routes.OverrideBothLeavesDensityStale | routes.py:60-75 | with both fields and a differing green time, density follows the count while green time does not match it |
| Routes.OverrideKeepsEmergency | routes.py:57-78 | an override leaves an emergency signal in emergency mode, on green, with its countdown reset to a full cycle of its new green time instead of the 999 s sentinel |
| Routes.OverridePhaseConsistency | routes.py:60-75 | outside emergency mode an override leaves the phase consistent iff no explicit green time below -1 was given |
| Routes.OverrideGreenScenario | routes.py:72-81 | overriding a 10-vehicle Low signal to 60 s gives green time 60, countdown 70, green, Low, and one snapshot (id, 10, 60, Low) |
| Routes.SimulateSignal | routes.py:91-106 | an emergency signal is skipped; any other gets the drawn count, derived green time and density, green, a full countdown of 35..80, and a snapshot |
| Routes.Simulate | routes.py:87-108 | always 200; emergency signals unchanged; every record stays under its own id; every other signal a fresh cycle from its draw; one snapshot per non-emergency signal, in id order |
| Routes.SetEmergency | routes.py:140-152 | enabling sets the flag, green and countdown 999 and keeps green time; disabling clears the flag and restarts the cycle from the stored count; count and density unchanged either way |
| Routes.ToggleEmergency | routes.py:129-154 | 400 iff there is no id, 404 for an unknown id, both with no change; otherwise only that signal is toggled; never a snapshot; every record stays under its own id |
| Routes.EnableEmergencyIdempotent | routes.py:140-141 | enabling emergency twice gives the same reply and table as enabling once |
| Routes.MissingEnableDisables | routes.py:131 | a missing enable field acts as enable = false |
| Routes.EmergencyRoundTrip | routes.py:140-152 | enable then disable gives green time and countdown derived from the count, green, a consistent phase and an unchanged count and density; it is exactly a fresh cycle when the density was consistent |
| Routes.SentinelOutlastsCycles | routes.py:141 | the 999 s emergency countdown is longer than any policy cycle (green time from any vehicle count) and shows green |

## Left out

- The SQLite store (`models.py`): connections, schema text, transactions and `datetime.now()` timestamps. The table is a map and the history is a sequence of appended snapshots. Snapshots carry no timestamp.
- Name, location and map coordinates of a signal, with `seed_signals`, `add_signal`, `delete_signal` and `relocate_signals`. They are descriptive or floating-point placement data, not timing.
- `get_all_signals`, `get_history`, the history and analytics routes, and `get_analytics`. These are read-only reporting. Analytics uses floating-point averages. A pass takes the id-ordered listing as an input with `IsListing`.
- The daemon thread, the `time.sleep` loop, process start-up and the dashboard page. One ticker pass is a function, and many ticks of one signal are `App.Ticks`.
- Routes.Override: the store's signed 64-bit INTEGER columns (models.py:31-36) are not modelled. In the code, an id, vehicle count or green time + 10 outside that range makes the store raise when binding it (models.py:146, 158). The request then answers 500 with no change and no history row. The model's integers are unbounded, so such a request gets the reply an in-range one would.
- Routes.OneSignal: for the same reason, an id outside the 64-bit range answers 500 in the code, where the model answers 404.
- Routes.ToggleEmergency: for the same reason, an id outside the 64-bit range answers 500 in the code, where the model answers 404.
- Exceptions. In the code one failing signal aborts the rest of its ticker pass. The model has no failures, so it neither models that nor claims per-signal isolation.
- Concurrency between the ticker and the request handlers. Each operation is modelled as one atomic step on the table.
- Real randomness. Each drawn count is an input of type `Draw` (1..80).
- HTTP and JSON: request parsing, `int(...)` coercion of fields and response bodies. Request fields are typed optional values, and `enable` is an optional boolean. Returned signal bodies are not modelled; they are the table entries after the request.
- Timing.TimingScore: exact integer truncation of 100 * min / max, not the floating-point ratio. Where the float product falls just below a whole number, the code's score can be one lower.
