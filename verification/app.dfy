/** The background ticker and start-up cycle initialisation. One ticker
    pass is a function of the table, its listing in id order and the
    vehicle counts the simulator would draw; sleeping between passes is
    not modelled. */
module App {
  import opened Timing
  import opened Signals
  import opened Store

  /** Seconds between two ticker passes, and so the countdown decrement per pass. */
  const TickInterval: int := 3

  /** A tick starts a new cycle for this signal: it is not in emergency mode
      and its countdown would reach zero or below. */
  predicate RollsOver(s: Signal)
  {
    !s.emergency && s.countdown - TickInterval <= 0
  }

  /** One signal's share of a ticker pass. `draw` is the count the simulator
      would return; it is used only when the cycle rolls over. */
  function TickSignal(s: Signal, draw: Draw): (u: Update)
    ensures u.signal.id == s.id && u.signal.emergency == s.emergency
    ensures s.emergency ==> u == Update(s, false)
    ensures !s.emergency && !RollsOver(s) ==>
      && !u.recorded
      && u.signal.countdown == s.countdown - TickInterval
      && u.signal.phase == PhaseOf(u.signal.countdown, s.greenTime)
      && u.signal.(countdown := s.countdown, phase := s.phase) == s
    ensures RollsOver(s) ==> u.recorded && u.signal == FreshCycle(s, draw)
    ensures RollsOver(s) ==> 35 <= u.signal.countdown <= 80
    ensures PhaseConsistent(u.signal)
  {
    if s.emergency then Update(s, false)
    else
      var countdown := s.countdown - TickInterval;
      if countdown <= 0 then
        var g := GreenTime(draw);
        var next := CycleLength(g);
        Update(s.(vehicleCount := draw, greenTime := g, density := Classify(draw),
                  countdown := next, phase := PhaseOf(next, g)), true)
      else
        Update(s.(countdown := countdown, phase := PhaseOf(countdown, s.greenTime)), false)
  }

  /** One full ticker pass over every signal, listed in id order. `draws`
      gives the count the simulator would return for each signal id. */
  function TickPass(table: map<int, Signal>, listed: seq<Signal>, draws: int -> Draw): (b: Batch)
    requires IsListing(table, listed)
    ensures WellFormed(b.table)
    ensures b.table.Keys == table.Keys
    ensures forall k | k in table :: b.table[k] == TickSignal(table[k], draws(k)).signal
    ensures forall k | k in table && table[k].emergency :: b.table[k] == table[k]
    ensures forall k | k in table :: PhaseConsistent(b.table[k])
    ensures forall j | 0 <= j < |b.appended| ::
      var k := b.appended[j].signalId;
      k in table && RollsOver(table[k]) && b.appended[j] == SnapshotOf(b.table[k])
    ensures forall k | k in table && RollsOver(table[k]) :: SnapshotOf(b.table[k]) in b.appended
    ensures forall j, j' | 0 <= j < j' < |b.appended| :: b.appended[j].signalId < b.appended[j'].signalId
  {
    var step := (s: Signal) => TickSignal(s, draws(s.id));
    ListingWellFormed(table, listed);
    SweepTable(table, listed, step);
    SweepSnapshotsSound(table, listed, step);
    SweepSnapshotsComplete(table, listed, step);
    SweepJournalSound(table, listed, step);
    Sweep(table, listed, step)
  }

  /** The start-up initialisation of one signal: a full cycle from its
      stored vehicle count, and a snapshot of it. */
  function InitSignal(s: Signal): (u: Update)
    ensures u.recorded
    ensures u.signal == FreshCycle(s, s.vehicleCount)
    ensures TimingDerived(u.signal) && PhaseConsistent(u.signal)
  {
    var g := GreenTime(s.vehicleCount);
    Update(s.(greenTime := g, density := Classify(s.vehicleCount),
              countdown := CycleLength(g), phase := Green), true)
  }

  /** Start-up initialisation over every signal in id order. */
  function StartupPass(table: map<int, Signal>, listed: seq<Signal>): (b: Batch)
    requires IsListing(table, listed)
    ensures WellFormed(b.table)
    ensures b.table.Keys == table.Keys
    ensures forall k | k in table :: b.table[k] == FreshCycle(table[k], table[k].vehicleCount)
    ensures forall k | k in table :: b.table[k].vehicleCount == table[k].vehicleCount
    ensures forall k | k in table :: b.table[k].emergency == table[k].emergency
    ensures |b.appended| == |table|
    ensures forall j | 0 <= j < |b.appended| ::
      b.appended[j].signalId in table && b.appended[j] == SnapshotOf(b.table[b.appended[j].signalId])
    ensures forall j, j' | 0 <= j < j' < |b.appended| :: b.appended[j].signalId < b.appended[j'].signalId
  {
    ListingWellFormed(table, listed);
    SweepTable(table, listed, InitSignal);
    SweepSnapshotsSound(table, listed, InitSignal);
    SweepSnapshotsComplete(table, listed, InitSignal);
    SweepJournalSound(table, listed, InitSignal);
    var b := Sweep(table, listed, InitSignal);
    JournalCoversKeys(table, b);
    b
  }

  /** A strictly increasing journal holding the snapshot of every key and
      nothing else has exactly one entry per key. */
  lemma JournalCoversKeys(table: map<int, Signal>, b: Batch)
    requires forall j | 0 <= j < |b.appended| :: b.appended[j].signalId in table
    requires forall k | k in table :: k in b.table && b.table[k].id == k
    requires forall k | k in table :: SnapshotOf(b.table[k]) in b.appended
    requires forall j, j' | 0 <= j < j' < |b.appended| :: b.appended[j].signalId < b.appended[j'].signalId
    ensures |b.appended| == |table|
  {
    var ids := set j | 0 <= j < |b.appended| :: b.appended[j].signalId;
    assert ids == table.Keys by {
      forall k | k in table ensures k in ids {
        var j :| 0 <= j < |b.appended| && b.appended[j] == SnapshotOf(b.table[k]);
      }
    }
    DistinctCount(b.appended);
  }

  /** Strictly increasing ids are distinct, so there are as many ids as entries. */
  lemma {:induction false} DistinctCount(hs: seq<Snapshot>)
    requires forall j, j' | 0 <= j < j' < |hs| :: hs[j].signalId < hs[j'].signalId
    ensures |set j | 0 <= j < |hs| :: hs[j].signalId| == |hs|
  {
    if |hs| > 0 {
      var rest := hs[1..];
      DistinctCount(rest);
      var all := set j | 0 <= j < |hs| :: hs[j].signalId;
      var tail := set j | 0 <= j < |rest| :: rest[j].signalId;
      assert all == {hs[0].signalId} + tail by {
        forall k | k in all ensures k in {hs[0].signalId} + tail {
          var j :| 0 <= j < |hs| && hs[j].signalId == k;
          if j > 0 { assert rest[j - 1].signalId == k; }
        }
        forall k | k in tail ensures k in all {
          var j :| 0 <= j < |rest| && rest[j].signalId == k;
          assert hs[j + 1].signalId == k;
        }
      }
      assert hs[0].signalId !in tail by {
        forall j | 0 <= j < |rest| ensures rest[j].signalId != hs[0].signalId {
          assert rest[j] == hs[j + 1];
        }
      }
    }
  }

  // ---------------------------------------------------------------------
  // One signal over many ticks
  // ---------------------------------------------------------------------

  /** A signal after consecutive ticks, one simulated count per tick, and
      the snapshots recorded on the way. */
  function Ticks(s: Signal, draws: seq<Draw>): (r: (Signal, seq<Snapshot>))
    decreases |draws|
  {
    if |draws| == 0 then (s, [])
    else
      var u := TickSignal(s, draws[0]);
      var rest := Ticks(u.signal, draws[1..]);
      (rest.0, (if u.recorded then [SnapshotOf(u.signal)] else []) + rest.1)
  }

  /** An emergency signal is untouched by any number of ticks. */
  lemma {:induction false} EmergencyIgnoresTicks(s: Signal, draws: seq<Draw>)
    requires s.emergency
    ensures Ticks(s, draws) == (s, [])
    decreases |draws|
  {
    if |draws| > 0 {
      var none: seq<Snapshot> := [];
      assert TickSignal(s, draws[0]) == Update(s, false);
      EmergencyIgnoresTicks(s, draws[1..]);
      assert Ticks(s, draws) == (s, none + none);
      assert none + none == none;
    }
  }

  /** While the countdown stays above zero, each tick takes the interval off
      it, the phase follows it, and nothing else changes or is recorded. */
  lemma {:induction false} CountdownRunsDown(s: Signal, draws: seq<Draw>)
    requires !s.emergency && |draws| > 0
    requires s.countdown - TickInterval * |draws| > 0
    ensures Ticks(s, draws).1 == []
    ensures Ticks(s, draws).0 == s.(countdown := s.countdown - TickInterval * |draws|,
                                    phase := PhaseOf(s.countdown - TickInterval * |draws|, s.greenTime))
    decreases |draws|
  {
    var u := TickSignal(s, draws[0]);
    if |draws| > 1 {
      CountdownRunsDown(u.signal, draws[1..]);
    }
  }

  /** A signal starting a cycle at 45 vehicles shows green at 80 seconds,
      yellow with 5 seconds left after 25 ticks, red after 26, and starts a
      new cycle, with one snapshot, at the 27th tick. */
  lemma CycleScenario(s: Signal, d: Draw)
    requires !s.emergency
    ensures var f := FreshCycle(s, 45);
      && f.greenTime == 70 && f.density == High && f.countdown == 80 && f.phase == Green
      && Ticks(f, seq(25, _ => d)).0.countdown == 5
      && Ticks(f, seq(25, _ => d)).0.phase == Yellow
      && Ticks(f, seq(25, _ => d)).1 == []
      && Ticks(f, seq(26, _ => d)).0.phase == Red
      && Ticks(f, seq(27, _ => d)).0 == FreshCycle(s, d)
      && Ticks(f, seq(27, _ => d)).1 == [SnapshotOf(FreshCycle(s, d))]
  {
    var f := FreshCycle(s, 45);
    var ds27: seq<Draw> := seq(27, _ => d);
    CountdownRunsDown(f, seq(25, _ => d));
    CountdownRunsDown(f, seq(26, _ => d));
    TicksSplit(f, seq(26, _ => d), [d]);
    assert seq(26, _ => d) + [d] == ds27;
  }

  /** A running signal with countdown `c` > 0 starts a new cycle on tick
      (c + 2) / 3, the first whose decrement reaches zero or below: the
      ticks before it record nothing, and that tick restarts the cycle from
      its own draw and records one snapshot of it. */
  lemma {:induction false} RolloverTick(s: Signal, draws: seq<Draw>)
    requires !s.emergency && s.countdown > 0
    requires |draws| == (s.countdown + 2) / TickInterval
    ensures Ticks(s, draws[..|draws| - 1]).1 == []
    ensures Ticks(s, draws).0 == FreshCycle(s, draws[|draws| - 1])
    ensures Ticks(s, draws).1 == [SnapshotOf(FreshCycle(s, draws[|draws| - 1]))]
  {
    var n := |draws|;
    var pre, d := draws[..n - 1], draws[n - 1];
    var last := Ticks(s, pre).0;
    if n > 1 {
      CountdownRunsDown(s, pre);
    }
    assert last.id == s.id && !last.emergency && 0 < last.countdown <= TickInterval;
    var u := TickSignal(last, d);
    assert RollsOver(last);
    assert u.signal == FreshCycle(s, d);
    assert Ticks(last, [d]) == (u.signal, [SnapshotOf(u.signal)] + Ticks(u.signal, []).1);
    TicksSplit(s, pre, [d]);
    assert pre + [d] == draws;
  }

  /** The whole cycle of a policy green time as the ticker sees it. The
      countdown is sampled every 3 seconds, so each tier shows green, then
      yellow for exactly two ticks and red for exactly one, and starts its
      next cycle on tick (g + 12) / 3: 81 seconds for 70, 57 for 45 and 36
      for 25, each a little longer than the countdown's g + 10. */
  lemma PolicyCycleTicks(s: Signal, v: int, draws: seq<Draw>)
    requires !s.emergency
    requires |draws| == (GreenTime(v) + 12) / TickInterval
    ensures var f, n := FreshCycle(s, v), |draws|;
      && n >= 4
      && TickInterval * n == (if v > HighAbove then 81 else if v >= MediumFrom then 57 else 36)
      && (forall k | 0 <= k <= n - 4 :: Ticks(f, draws[..k]).0.phase == Green)
      && Ticks(f, draws[..n - 3]).0.phase == Yellow
      && Ticks(f, draws[..n - 2]).0.phase == Yellow
      && Ticks(f, draws[..n - 1]).0.phase == Red
      && Ticks(f, draws[..n - 1]).1 == []
      && Ticks(f, draws).0 == FreshCycle(s, draws[n - 1])
      && Ticks(f, draws).1 == [SnapshotOf(FreshCycle(s, draws[n - 1]))]
  {
    var f, n := FreshCycle(s, v), |draws|;
    GreenTimeTiers(v);
    assert n == (f.countdown + 2) / TickInterval;
    RolloverTick(f, draws);
    assert FreshCycle(f, draws[n - 1]) == FreshCycle(s, draws[n - 1]);
    forall k | 1 <= k <= n - 1
      ensures Ticks(f, draws[..k]).0.phase == PhaseOf(f.countdown - TickInterval * k, f.greenTime)
    {
      CountdownRunsDown(f, draws[..k]);
    }
    assert draws[..0] == [];
  }

  /** Ticking through two runs of draws is ticking through their concatenation. */
  lemma {:induction false} TicksSplit(s: Signal, first: seq<Draw>, second: seq<Draw>)
    ensures Ticks(s, first + second).0 == Ticks(Ticks(s, first).0, second).0
    ensures Ticks(s, first + second).1 == Ticks(s, first).1 + Ticks(Ticks(s, first).0, second).1
    decreases |first|
  {
    if |first| > 0 {
      var u := TickSignal(s, first[0]);
      assert (first + second)[1..] == first[1..] + second;
      TicksSplit(u.signal, first[1..], second);
    } else {
      assert first + second == second;
    }
  }
}
