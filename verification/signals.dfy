/** One signal record, the history snapshot taken of it, and the
    consistency conditions the timing policy imposes on a record. */
module Signals {
  import opened Timing

  /** The timing fields of one intersection's row. Name, location and map
      coordinates are not part of this model. */
  datatype Signal = Signal(
    id: int,
    vehicleCount: int,
    greenTime: int,
    density: Density,
    phase: Phase,
    countdown: int,
    emergency: bool)

  /** One history row: what was recorded about a signal at a cycle start or
      an override. The timestamp is not modelled. */
  datatype Snapshot = Snapshot(signalId: int, vehicleCount: int, greenTime: int, density: Density)

  /** What one operation writes back for one signal, and whether it records
      a history snapshot of the written record. */
  datatype Update = Update(signal: Signal, recorded: bool)

  /** The history row recording a signal's current demand and timing. */
  function SnapshotOf(s: Signal): (h: Snapshot)
    ensures h.signalId == s.id
    ensures h.vehicleCount == s.vehicleCount && h.greenTime == s.greenTime && h.density == s.density
  {
    Snapshot(s.id, s.vehicleCount, s.greenTime, s.density)
  }

  /** The record after starting a new cycle for vehicle count `v`: demand,
      green time and density derived from `v`, the countdown at a full cycle,
      and the phase green. Identity and emergency flag are kept. */
  function FreshCycle(s: Signal, v: int): (r: Signal)
    ensures r.id == s.id && r.emergency == s.emergency
    ensures r.vehicleCount == v
    ensures r.greenTime == TierGreenTime(r.density)
    ensures r.phase == PhaseOf(r.countdown, r.greenTime)
    ensures r.countdown - r.greenTime == CycleExtra
  {
    var g := GreenTime(v);
    DensityMatchesGreenTime(v);
    s.(vehicleCount := v, greenTime := g, density := Classify(v),
       countdown := CycleLength(g), phase := Green)
  }

  /** The invariant every signal outside emergency mode keeps: its phase is
      the one its countdown determines. */
  predicate PhaseConsistent(s: Signal)
  {
    !s.emergency ==> s.phase == PhaseOf(s.countdown, s.greenTime)
  }

  /** Green time and density are the ones the vehicle count determines. */
  predicate TimingDerived(s: Signal)
  {
    s.greenTime == GreenTime(s.vehicleCount) && s.density == Classify(s.vehicleCount)
  }

  /** A fresh cycle is consistent in every respect, and it starts a full
      cycle from green. */
  lemma FreshCycleIsConsistent(s: Signal, v: int)
    ensures PhaseConsistent(FreshCycle(s, v))
    ensures TimingDerived(FreshCycle(s, v))
    ensures FreshCycle(s, v).phase == Green
  {
  }

  /** A fresh cycle from a simulated count has a cycle length (starting
      countdown) of 35 to 80. */
  lemma FreshCycleBounds(s: Signal, v: Draw)
    ensures 35 <= FreshCycle(s, v).countdown <= 80
  {
  }
}
