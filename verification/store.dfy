/** The signal table as an abstract store: a map from signal id to record,
    its listing in id order, and one pass that reads every listed signal
    once, writes back each signal's update and appends the snapshots due. */
module Store {
  import opened Signals

  /** The table after a pass, and the history rows the pass appended, in order. */
  datatype Batch = Batch(table: map<int, Signal>, appended: seq<Snapshot>)

  /** Listed ids are strictly increasing, as a listing ordered by id is. */
  ghost predicate IdsIncreasing(listed: seq<Signal>)
  {
    forall i, j | 0 <= i < j < |listed| :: listed[i].id < listed[j].id
  }

  ghost function ListedIds(listed: seq<Signal>): set<int>
  {
    set i | 0 <= i < |listed| :: listed[i].id
  }

  /** Every entry of the table is stored under its own id. */
  ghost predicate WellFormed(table: map<int, Signal>)
  {
    forall k | k in table :: table[k].id == k
  }

  /** `listed` is what listing every signal of `table` in id order returns. */
  ghost predicate IsListing(table: map<int, Signal>, listed: seq<Signal>)
  {
    && IdsIncreasing(listed)
    && ListedIds(listed) == table.Keys
    && forall i | 0 <= i < |listed| :: listed[i].id in table && table[listed[i].id] == listed[i]
  }

  lemma ListedIdsCons(listed: seq<Signal>)
    requires |listed| > 0
    ensures ListedIds(listed) == {listed[0].id} + ListedIds(listed[1..])
  {
    var rest := listed[1..];
    forall k | k in ListedIds(listed)
      ensures k in {listed[0].id} + ListedIds(rest)
    {
      var i :| 0 <= i < |listed| && listed[i].id == k;
      if i > 0 {
        assert rest[i - 1].id == k;
      }
    }
    forall k | k in ListedIds(rest)
      ensures k in ListedIds(listed)
    {
      var i :| 0 <= i < |rest| && rest[i].id == k;
      assert listed[i + 1].id == k;
    }
  }

  /** The table a listing describes stores every record under its own id. */
  lemma ListingWellFormed(table: map<int, Signal>, listed: seq<Signal>)
    requires IsListing(table, listed)
    ensures WellFormed(table)
  {
    forall k | k in table
      ensures table[k].id == k
    {
      var i := IndexOf(listed, k);
    }
  }

  /** The position in the listing of a listed id. */
  lemma IndexOf(listed: seq<Signal>, k: int) returns (i: int)
    requires k in ListedIds(listed)
    ensures 0 <= i < |listed| && listed[i].id == k
  {
    i :| 0 <= i < |listed| && listed[i].id == k;
  }

  /** `h` is the snapshot of one listed signal whose step records one. */
  ghost predicate RecordedBy(h: Snapshot, listed: seq<Signal>, step: Signal -> Update)
  {
    exists i | 0 <= i < |listed| :: step(listed[i]).recorded && h == SnapshotOf(step(listed[i]).signal)
  }

  /** A snapshot recorded by the tail of an increasing listing is recorded by
      the whole listing and carries an id above the head's. */
  lemma RecordedByTail(h: Snapshot, listed: seq<Signal>, step: Signal -> Update)
    requires |listed| > 0 && IdsIncreasing(listed)
    requires forall i | 0 <= i < |listed| :: step(listed[i]).signal.id == listed[i].id
    requires RecordedBy(h, listed[1..], step)
    ensures RecordedBy(h, listed, step)
    ensures listed[0].id < h.signalId
  {
    var i :| 0 <= i < |listed[1..]| && step(listed[1..][i]).recorded && h == SnapshotOf(step(listed[1..][i]).signal);
    assert listed[1..][i] == listed[i + 1];
  }

  /** One pass over the listed signals, in listing order: each signal's new
      record is computed from the record as listed, written back under its
      id, and snapshotted when its update asks for it. */
  function Sweep(table: map<int, Signal>, listed: seq<Signal>, step: Signal -> Update): (b: Batch)
    requires IdsIncreasing(listed)
    requires forall i | 0 <= i < |listed| :: step(listed[i]).signal.id == listed[i].id
    ensures b.table.Keys == table.Keys + ListedIds(listed)
    ensures forall i | 0 <= i < |listed| :: b.table[listed[i].id] == step(listed[i]).signal
    ensures forall k | k in table && k !in ListedIds(listed) :: b.table[k] == table[k]
    decreases |listed|
  {
    if |listed| == 0 then Batch(table, [])
    else
      var u := step(listed[0]);
      var rest := Sweep(table[listed[0].id := u.signal], listed[1..], step);
      ListedIdsCons(listed);
      assert forall i | 1 <= i < |listed| :: listed[i] == listed[1..][i - 1];
      Batch(rest.table, (if u.recorded then [SnapshotOf(u.signal)] else []) + rest.appended)
  }

  /** Every snapshot a pass appends is the record written back for a listed
      signal whose step asked for one, and the snapshots come in id order. */
  lemma {:induction false} SweepJournalSound(table: map<int, Signal>, listed: seq<Signal>, step: Signal -> Update)
    requires IdsIncreasing(listed)
    requires forall i | 0 <= i < |listed| :: step(listed[i]).signal.id == listed[i].id
    ensures forall j | 0 <= j < |Sweep(table, listed, step).appended| ::
      RecordedBy(Sweep(table, listed, step).appended[j], listed, step)
    ensures forall j, j' | 0 <= j < j' < |Sweep(table, listed, step).appended| ::
      Sweep(table, listed, step).appended[j].signalId < Sweep(table, listed, step).appended[j'].signalId
    decreases |listed|
  {
    if |listed| > 0 {
      var u := step(listed[0]);
      var table' := table[listed[0].id := u.signal];
      var rest := Sweep(table', listed[1..], step);
      SweepJournalSound(table', listed[1..], step);
      forall j | 0 <= j < |rest.appended|
        ensures RecordedBy(rest.appended[j], listed, step) && listed[0].id < rest.appended[j].signalId
      {
        RecordedByTail(rest.appended[j], listed, step);
      }
      assert u.recorded ==> RecordedBy(SnapshotOf(u.signal), listed, step);
    }
  }

  /** Every listed signal whose step asks for a snapshot has its snapshot
      appended by the pass. */
  lemma {:induction false} SweepJournalComplete(table: map<int, Signal>, listed: seq<Signal>, step: Signal -> Update)
    requires IdsIncreasing(listed)
    requires forall i | 0 <= i < |listed| :: step(listed[i]).signal.id == listed[i].id
    ensures forall i | 0 <= i < |listed| && step(listed[i]).recorded ::
      SnapshotOf(step(listed[i]).signal) in Sweep(table, listed, step).appended
    decreases |listed|
  {
    if |listed| > 0 {
      var u := step(listed[0]);
      var table' := table[listed[0].id := u.signal];
      SweepJournalComplete(table', listed[1..], step);
      assert forall i | 1 <= i < |listed| :: listed[i] == listed[1..][i - 1];
    }
  }

  /** A full pass gives every signal of the table its step's record and
      keeps the set of ids. */
  lemma SweepTable(table: map<int, Signal>, listed: seq<Signal>, step: Signal -> Update)
    requires IsListing(table, listed)
    requires forall i | 0 <= i < |listed| :: step(listed[i]).signal.id == listed[i].id
    ensures Sweep(table, listed, step).table.Keys == table.Keys
    ensures forall k | k in table :: Sweep(table, listed, step).table[k] == step(table[k]).signal
  {
    var b := Sweep(table, listed, step);
    forall k | k in table
      ensures b.table[k] == step(table[k]).signal
    {
      var i := IndexOf(listed, k);
    }
  }

  /** Every snapshot a full pass appends is the record of a signal whose
      step asked for one, as written back. */
  lemma SweepSnapshotsSound(table: map<int, Signal>, listed: seq<Signal>, step: Signal -> Update)
    requires IsListing(table, listed)
    requires forall i | 0 <= i < |listed| :: step(listed[i]).signal.id == listed[i].id
    ensures forall j | 0 <= j < |Sweep(table, listed, step).appended| ::
      var h := Sweep(table, listed, step).appended[j];
      h.signalId in table && step(table[h.signalId]).recorded && h == SnapshotOf(step(table[h.signalId]).signal)
  {
    var b := Sweep(table, listed, step);
    SweepJournalSound(table, listed, step);
    forall j | 0 <= j < |b.appended|
      ensures b.appended[j].signalId in table
      ensures step(table[b.appended[j].signalId]).recorded
      ensures b.appended[j] == SnapshotOf(step(table[b.appended[j].signalId]).signal)
    {
      assert RecordedBy(b.appended[j], listed, step);
      var i :| 0 <= i < |listed| && step(listed[i]).recorded && b.appended[j] == SnapshotOf(step(listed[i]).signal);
      assert b.appended[j].signalId == listed[i].id;
    }
  }

  /** Every signal whose step asks for a snapshot gets one from a full pass. */
  lemma SweepSnapshotsComplete(table: map<int, Signal>, listed: seq<Signal>, step: Signal -> Update)
    requires IsListing(table, listed)
    requires forall i | 0 <= i < |listed| :: step(listed[i]).signal.id == listed[i].id
    ensures forall k | k in table && step(table[k]).recorded ::
      SnapshotOf(step(table[k]).signal) in Sweep(table, listed, step).appended
  {
    SweepJournalComplete(table, listed, step);
    forall k | k in table && step(table[k]).recorded
      ensures SnapshotOf(step(table[k]).signal) in Sweep(table, listed, step).appended
    {
      var i := IndexOf(listed, k);
    }
  }
}
