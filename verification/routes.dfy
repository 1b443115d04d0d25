/** The request handlers that change signals: reading one signal, manual
    override, re-simulating every signal, and the emergency toggle. Request
    bodies arrive as already-typed optional fields; each handler returns
    its status, the table after the request and the history rows it
    appended. */
module Routes {
  import opened Timing
  import opened Signals
  import opened Store

  datatype Option<T> = None | Some(value: T)

  datatype Status = Ok | BadRequest | NotFound

  function StatusCode(st: Status): int
  {
    match st
    case Ok => 200
    case BadRequest => 400
    case NotFound => 404
  }

  /** The outcome of a request: its status, the table afterwards and the
      history rows appended, in order. */
  datatype Reply = Reply(status: Status, table: map<int, Signal>, appended: seq<Snapshot>)

  /** Countdown given to a signal in emergency mode: longer than any policy
      cycle. The ticker skips signals in emergency mode, so it does not run
      down; an override with a large explicit green time can set a longer
      cycle. */
  const EmergencyCountdown: int := 999

  // ---------------------------------------------------------------------
  // Reading one signal
  // ---------------------------------------------------------------------

  /** The signal stored under an id, or not found. */
  function OneSignal(table: map<int, Signal>, signalId: int): (r: (Status, Option<Signal>))
    requires WellFormed(table)
    ensures StatusCode(r.0) == 404 <==> signalId !in table
    ensures r.0 == Ok <==> r.1.Some?
    ensures r.1.Some? ==> signalId in table && r.1.value == table[signalId] && r.1.value.id == signalId
    ensures signalId in table ==> r == (Ok, Some(table[signalId]))
  {
    if signalId !in table then (NotFound, None) else (Ok, Some(table[signalId]))
  }

  // ---------------------------------------------------------------------
  // Override
  // ---------------------------------------------------------------------

  datatype OverrideRequest = OverrideRequest(signalId: Option<int>, vehicleCount: Option<int>, greenTime: Option<int>)

  /** The override applied to one signal. A vehicle count starts a fresh
      cycle from it; an explicit green time then replaces the green time and
      countdown, keeping the density the count gave. The emergency flag is
      not consulted. A snapshot is due when either field was given. */
  function OverrideSignal(s: Signal, vehicleCount: Option<int>, greenTime: Option<int>): (u: Update)
    ensures u.signal.id == s.id && u.signal.emergency == s.emergency
    ensures u.recorded <==> vehicleCount.Some? || greenTime.Some?
    ensures !u.recorded ==> u.signal == s
    ensures vehicleCount.Some? ==>
      u.signal.vehicleCount == vehicleCount.value && u.signal.density == Classify(vehicleCount.value)
    ensures vehicleCount.None? ==>
      u.signal.vehicleCount == s.vehicleCount && u.signal.density == s.density
    ensures greenTime.Some? ==> u.signal.greenTime == greenTime.value
    ensures greenTime.None? && vehicleCount.Some? ==> u.signal.greenTime == GreenTime(vehicleCount.value)
    ensures u.recorded ==> u.signal.phase == Green && u.signal.countdown == CycleLength(u.signal.greenTime)
  {
    var counted := if vehicleCount.Some? then FreshCycle(s, vehicleCount.value) else s;
    var timed := if greenTime.Some? then
        counted.(greenTime := greenTime.value, countdown := CycleLength(greenTime.value), phase := Green)
      else counted;
    Update(timed, vehicleCount.Some? || greenTime.Some?)
  }

  /** The override handler: 400 without a signal id, 404 for an unknown one,
      otherwise the override applied to that signal alone and, when anything
      was overridden, one snapshot of its final record. */
  function Override(table: map<int, Signal>, req: OverrideRequest): (r: Reply)
    requires WellFormed(table)
    ensures WellFormed(r.table)
    ensures StatusCode(r.status) == 400 <==> req.signalId.None?
    ensures req.signalId.None? ==> r == Reply(BadRequest, table, [])
    ensures req.signalId.Some? && req.signalId.value !in table ==> r == Reply(NotFound, table, [])
    ensures r.status == Ok <==> req.signalId.Some? && req.signalId.value in table
    ensures r.status == Ok ==>
      var id := req.signalId.value;
      var u := OverrideSignal(table[id], req.vehicleCount, req.greenTime);
      && r.table.Keys == table.Keys
      && r.table[id] == u.signal
      && (forall k | k in table && k != id :: r.table[k] == table[k])
      && r.appended == (if u.recorded then [SnapshotOf(u.signal)] else [])
    ensures req.vehicleCount.None? && req.greenTime.None? ==> r.table == table && r.appended == []
    ensures |r.appended| <= 1
    ensures |r.appended| == 1 ==>
      && r.status == Ok && r.appended[0].signalId == req.signalId.value
      && r.appended[0] == SnapshotOf(r.table[req.signalId.value])
  {
    if req.signalId.None? then Reply(BadRequest, table, [])
    else
      var id := req.signalId.value;
      if id !in table then Reply(NotFound, table, [])
      else
        var u := OverrideSignal(table[id], req.vehicleCount, req.greenTime);
        if u.recorded then Reply(Ok, table[id := u.signal], [SnapshotOf(u.signal)])
        else Reply(Ok, table, [])
  }

  /** Reading a signal back after a successful override returns the
      overridden record, as the override's own response does. */
  lemma OverrideThenRead(table: map<int, Signal>, req: OverrideRequest)
    requires WellFormed(table)
    requires req.signalId.Some? && req.signalId.value in table
    ensures var id := req.signalId.value;
      OneSignal(Override(table, req).table, id)
        == (Ok, Some(OverrideSignal(table[id], req.vehicleCount, req.greenTime).signal))
  {
  }

  /** When both fields are given and the explicit green time differs from
      the one the count implies, the stored density no longer matches the
      green time. */
  lemma OverrideBothLeavesDensityStale(s: Signal, v: int, g: int)
    requires g != GreenTime(v)
    ensures var r := OverrideSignal(s, Some(v), Some(g)).signal;
      && r.vehicleCount == v && r.density == Classify(v) && r.greenTime == g
      && r.greenTime != TierGreenTime(r.density)
      && !TimingDerived(r)
  {
    DensityMatchesGreenTime(v);
  }

  /** An override keeps a signal in emergency mode: it resets the countdown
      to a full cycle of the new green time and the phase to green, but
      leaves the flag set. */
  lemma OverrideKeepsEmergency(s: Signal, v: Option<int>, g: Option<int>)
    requires s.emergency && (v.Some? || g.Some?)
    ensures OverrideSignal(s, v, g).signal.emergency
    ensures OverrideSignal(s, v, g).signal.phase == Green
    ensures OverrideSignal(s, v, g).signal.countdown == CycleLength(OverrideSignal(s, v, g).signal.greenTime)
    ensures g.Some? ==> OverrideSignal(s, v, g).signal.countdown == CycleLength(g.value)
  {
  }

  /** An override of a signal outside emergency mode leaves its phase
      consistent with its countdown exactly when no explicit green time
      below -1 was given: a more negative one shows green with 8 or fewer
      seconds left. */
  lemma OverridePhaseConsistency(s: Signal, v: Option<int>, g: Option<int>)
    requires !s.emergency && (v.Some? || g.Some?)
    ensures PhaseConsistent(OverrideSignal(s, v, g).signal) <==> g.None? || g.value >= -1
  {
    var r := OverrideSignal(s, v, g).signal;
    if g.None? {
      CycleStartsGreen(r.greenTime);
    } else {
      CycleStartsGreen(g.value);
    }
  }

  /** Overriding the green time of a low-density signal to 60 seconds. */
  lemma OverrideGreenScenario(table: map<int, Signal>, id: int)
    requires WellFormed(table) && id in table
    requires table[id].vehicleCount == 10 && table[id].density == Low
    ensures var r := Override(table, OverrideRequest(Some(id), None, Some(60)));
      && r.status == Ok
      && r.table[id].greenTime == 60 && r.table[id].countdown == 70 && r.table[id].phase == Green
      && r.table[id].density == Low && r.table[id].vehicleCount == 10
      && r.appended == [Snapshot(id, 10, 60, Low)]
  {
  }

  // ---------------------------------------------------------------------
  // Simulate
  // ---------------------------------------------------------------------

  /** Re-simulation of one signal: emergency signals are skipped, every
      other one starts a fresh cycle from the drawn count and is snapshotted. */
  function SimulateSignal(s: Signal, draw: Draw): (u: Update)
    ensures u.signal.id == s.id && u.signal.emergency == s.emergency
    ensures s.emergency ==> u == Update(s, false)
    ensures !s.emergency ==>
      && u.recorded
      && u.signal.vehicleCount == draw
      && TimingDerived(u.signal)
      && u.signal.phase == Green
      && u.signal.countdown == CycleLength(u.signal.greenTime)
      && 35 <= u.signal.countdown <= 80
  {
    if s.emergency then Update(s, false)
    else
      FreshCycleIsConsistent(s, draw);
      Update(FreshCycle(s, draw), true)
  }

  /** The simulate handler: every signal, in id order, re-simulated with the
      count drawn for its id. It always succeeds. */
  function Simulate(table: map<int, Signal>, listed: seq<Signal>, draws: int -> Draw): (r: Reply)
    requires IsListing(table, listed)
    ensures r.status == Ok
    ensures WellFormed(r.table)
    ensures r.table.Keys == table.Keys
    ensures forall k | k in table && table[k].emergency :: r.table[k] == table[k]
    ensures forall k | k in table && !table[k].emergency ::
      r.table[k] == FreshCycle(table[k], draws(k)) && 35 <= r.table[k].countdown <= 80
    ensures forall j | 0 <= j < |r.appended| ::
      var k := r.appended[j].signalId;
      k in table && !table[k].emergency && r.appended[j] == SnapshotOf(r.table[k])
    ensures forall k | k in table && !table[k].emergency :: SnapshotOf(r.table[k]) in r.appended
    ensures forall j, j' | 0 <= j < j' < |r.appended| :: r.appended[j].signalId < r.appended[j'].signalId
  {
    var step := (s: Signal) => SimulateSignal(s, draws(s.id));
    ListingWellFormed(table, listed);
    SweepTable(table, listed, step);
    SweepSnapshotsSound(table, listed, step);
    SweepSnapshotsComplete(table, listed, step);
    SweepJournalSound(table, listed, step);
    var b := Sweep(table, listed, step);
    Reply(Ok, b.table, b.appended)
  }

  // ---------------------------------------------------------------------
  // Emergency toggle
  // ---------------------------------------------------------------------

  datatype EmergencyRequest = EmergencyRequest(signalId: Option<int>, enable: Option<bool>)

  /** Entering emergency mode pins the signal to green with the sentinel
      countdown; leaving it restarts a cycle from the stored count without
      touching the stored density. Neither records a snapshot. */
  function SetEmergency(s: Signal, enable: bool): (r: Signal)
    ensures r.id == s.id && r.vehicleCount == s.vehicleCount && r.density == s.density
    ensures r.emergency == enable && r.phase == Green
    ensures enable ==> r.countdown == EmergencyCountdown && r.greenTime == s.greenTime
    ensures !enable ==> r == FreshCycle(s, s.vehicleCount).(density := s.density, emergency := false)
  {
    if enable then s.(emergency := true, phase := Green, countdown := EmergencyCountdown)
    else
      var g := GreenTime(s.vehicleCount);
      s.(emergency := false, phase := Green, countdown := CycleLength(g), greenTime := g)
  }

  /** The emergency handler: 400 without a signal id, 404 for an unknown one,
      otherwise the toggle applied to that signal alone. A missing `enable`
      means disable. */
  function ToggleEmergency(table: map<int, Signal>, req: EmergencyRequest): (r: Reply)
    requires WellFormed(table)
    ensures WellFormed(r.table)
    ensures StatusCode(r.status) == 400 <==> req.signalId.None?
    ensures r.appended == []
    ensures req.signalId.None? ==> r == Reply(BadRequest, table, [])
    ensures req.signalId.Some? && req.signalId.value !in table ==> r == Reply(NotFound, table, [])
    ensures r.status == Ok <==> req.signalId.Some? && req.signalId.value in table
    ensures r.status == Ok ==>
      var id := req.signalId.value;
      r.table == table[id := SetEmergency(table[id], req.enable == Some(true))]
  {
    var enable := if req.enable.Some? then req.enable.value else false;
    if req.signalId.None? then Reply(BadRequest, table, [])
    else
      var id := req.signalId.value;
      if id !in table then Reply(NotFound, table, [])
      else Reply(Ok, table[id := SetEmergency(table[id], enable)], [])
  }

  /** Enabling emergency mode twice leaves the table as enabling it once. */
  lemma EnableEmergencyIdempotent(table: map<int, Signal>, id: int)
    requires WellFormed(table)
    ensures var req := EmergencyRequest(Some(id), Some(true));
      ToggleEmergency(ToggleEmergency(table, req).table, req) == ToggleEmergency(table, req)
  {
    var req := EmergencyRequest(Some(id), Some(true));
    if id in table {
      var once := ToggleEmergency(table, req).table;
      assert SetEmergency(once[id], true) == once[id];
      assert once[id := once[id]] == once;
    }
  }

  /** A missing `enable` field behaves as an explicit disable. */
  lemma MissingEnableDisables(table: map<int, Signal>, id: int)
    requires WellFormed(table)
    ensures ToggleEmergency(table, EmergencyRequest(Some(id), None))
         == ToggleEmergency(table, EmergencyRequest(Some(id), Some(false)))
  {
  }

  /** Entering and then leaving emergency mode gives the signal a fresh
      cycle from its own count; vehicle count and density are untouched, and
      if density was consistent beforehand the result is exactly a fresh
      cycle outside emergency mode. */
  lemma EmergencyRoundTrip(s: Signal)
    ensures var r := SetEmergency(SetEmergency(s, true), false);
      && r.vehicleCount == s.vehicleCount && r.density == s.density
      && r.greenTime == GreenTime(s.vehicleCount)
      && r.countdown == CycleLength(r.greenTime) && r.phase == Green && !r.emergency
      && PhaseConsistent(r)
    ensures s.density == Classify(s.vehicleCount) ==>
      SetEmergency(SetEmergency(s, true), false) == FreshCycle(s, s.vehicleCount).(emergency := false)
  {
    FreshCycleIsConsistent(s, s.vehicleCount);
  }

  /** The emergency sentinel outlasts any policy cycle and shows green. */
  lemma SentinelOutlastsCycles(v: int)
    ensures EmergencyCountdown > CycleLength(GreenTime(v))
    ensures PhaseOf(EmergencyCountdown, GreenTime(v)) == Green
  {
  }
}
