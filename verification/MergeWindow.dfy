/** Merge records over runs: how long a merge can be reversed, and how often. */
module MergeWindow {
  import opened Common
  import opened MergeModel
  import opened MergeRuns

  /** A reversal of the record commits as event i. */
  ghost predicate ReversesRecord(states: seq<State>, events: seq<Event>, i: nat, record: RowId)
    requires |states| == |events| + 1 && i < |events|
  {
    events[i].Reversing? && events[i].reversed == record && exists snap :: ReversesAt(states, events, i, snap)
  }

  /** Some reversal of the record commits after event j and before the state m. */
  ghost predicate ReversedBetween(states: seq<State>, events: seq<Event>, j: nat, m: nat, record: RowId)
    requires |states| == |events| + 1 && j < m < |states|
  {
    exists i :: j < i < m && ReversesRecord(states, events, i, record)
  }

  /** What the record of the merge at j says by the time m. */
  ghost predicate RecordIs(states: seq<State>, events: seq<Event>, j: nat, m: nat)
    requires |states| == |events| + 1 && j < m < |states| && events[j].Merging?
  {
    var call, rs := events[j].call, states[m].records;
    && call.record in rs && rs[call.record].reversibleUntil == call.now + 604_800_000
    && (rs[call.record].reversedAt != None <==> ReversedBetween(states, events, j, m, call.record))
  }

  lemma RecordWritten(states: seq<State>, events: seq<Event>, j: nat)
    requires Run(states, events) && j < |events| && events[j].Merging? && Commits(states[j], events[j].call)
    ensures RecordIs(states, events, j, j + 1)
  {
    hide ValidState, CanMerge, MergedCore, SnapshotOf, ReversesRecord, Confirmed;
    RunValid(states, events, j);
  }

  lemma RecordStep(states: seq<State>, events: seq<Event>, j: nat, m: nat)
    requires Run(states, events) && j < m < |events| && events[j].Merging? && RecordIs(states, events, j, m)
    ensures RecordIs(states, events, j, m + 1)
  {
    hide ValidState, Commits, ReversalCommits, ReversesRecord, Confirmed, MergedCore, ReversedCore, SnapshotOf, Run,
      Happens;
    SameLength(states, events);
    var record := events[j].call.record;
    RunValid(states, events, m);
    OneRecord(states, events, m, record);
    if ReversesRecord(states, events, m, record) {
      assert ReversedBetween(states, events, j, m + 1, record);
    }
    assert ReversedBetween(states, events, j, m + 1, record) <==>
           ReversedBetween(states, events, j, m, record) || ReversesRecord(states, events, m, record);
  }

  /** A step stamps the record if it reverses it, and leaves it alone otherwise. */
  lemma OneRecord(states: seq<State>, events: seq<Event>, i: nat, record: RowId)
    requires Run(states, events) && i < |events| && ValidState(states[i]) && record in states[i].records
    ensures |states| == |events| + 1 && record in states[i + 1].records
    ensures var a, b := states[i].records[record], states[i + 1].records[record];
            && b.reversibleUntil == a.reversibleUntil
            && (ReversesRecord(states, events, i, record) ==> b.reversedAt != None)
            && (!ReversesRecord(states, events, i, record) ==> b.reversedAt == a.reversedAt)
  {
    hide ValidState, CanMerge, MergedCore, SnapshotOf, ReversalCommits, ReversedCore, Confirmed;
    match events[i]
    case Merging(call, look) =>
    case Reversing(r, now, look) =>
      var snap := states[look].records[r].snapshot;
      if ReversalCommits(states[i], r, snap) {
        assert ReversesAt(states, events, i, snap);
      } else {
        assert forall x :: !ReversesAt(states, events, i, x);
      }
    case _ =>
  }

  lemma {:induction false} RecordHistory(states: seq<State>, events: seq<Event>, j: nat, m: nat)
    requires Run(states, events) && j < m < |states| && events[j].Merging? && Commits(states[j], events[j].call)
    ensures RecordIs(states, events, j, m)
    decreases m
  {
    hide Run, Commits, RecordIs;
    SameLength(states, events);
    if m == j + 1 {
      RecordWritten(states, events, j);
    } else {
      RecordHistory(states, events, j, m - 1);
      RecordStep(states, events, j, m - 1);
    }
  }

  /**
   What a look at the record of a committed merge answers, at any later moment of any run: already reversed
   if a reversal of it has committed, whatever the time; else passed from seven days after the merge on; else
   the reversal goes ahead.
   */
  lemma LookAnswersExactly(states: seq<State>, events: seq<Event>, j: nat, m: nat, at: int)
    requires Run(states, events) && j < m < |states| && events[j].Merging? && Commits(states[j], events[j].call)
    ensures LookFailure(states[m], events[j].call.record, at) ==
            if ReversedBetween(states, events, j, m, events[j].call.record) then Some(AlreadyReversed)
            else if at >= events[j].call.now + 604_800_000 then Some(WindowPassed)
            else None
  {
    hide Run, Commits, ReversedBetween;
    RecordHistory(states, events, j, m);
  }

  /** A reversal that goes ahead looked after the merge, less than seven days after it, and before any
      reversal of the same record committed. */
  lemma ReversedInWindow(states: seq<State>, events: seq<Event>, j: nat, k: nat)
    requires Run(states, events) && j < |events| && events[j].Merging? && Commits(states[j], events[j].call)
    requires k < |events| && events[k].Reversing? && events[k].reversed == events[j].call.record
    ensures var look := events[k].look;
            && j < look < k && events[look].Looking? && events[look].at < events[j].call.now + 604_800_000
            && (forall i :: 0 <= i < |events| && ReversesRecord(states, events, i, events[k].reversed) ==> look < i)
  {
    hide ReversalCommits, ReversedWith, AfterMerge, OtherActivity, Confirmed, Commits, ValidState, ReversesRecord;
    var look, record := events[k].look, events[k].reversed;
    RunValid(states, events, k);
    RunValid(states, events, j);
    if look <= j {
      SnapshotKept(states, events, look, j, record);
      FreshRecord(states[j], events[j].call);
      assert false;
    }
    LookAnswersExactly(states, events, j, look, events[look].at);
    forall i | 0 <= i < |events| && ReversesRecord(states, events, i, record) ensures look < i {
      ReversedLater(states, events, j, i, record);
      assert ReversesRecord(states, events, i, record) && !(j < i < look);
      if i == look { NotLooking(states, events, i, record); }
    }
  }

  lemma FreshRecord(st: State, call: MergeCall)
    requires Commits(st, call)
    ensures call.record !in st.records
  {
  }

  lemma NotLooking(states: seq<State>, events: seq<Event>, i: nat, record: RowId)
    requires |states| == |events| + 1 && i < |events| && ReversesRecord(states, events, i, record)
    ensures events[i].Reversing?
  {
  }

  /** A record is reversed only after it was written. */
  lemma ReversedLater(states: seq<State>, events: seq<Event>, j: nat, i: nat, record: RowId)
    requires Run(states, events) && j < |events| && events[j].Merging? && Commits(states[j], events[j].call)
    requires record == events[j].call.record && i < |events| && ReversesRecord(states, events, i, record)
    ensures j < i
  {
    hide ValidState, CanMerge, ReversedWith, AfterMerge, OtherActivity, Confirmed, CanReverse;
    RunValid(states, events, i);
    if i <= j { SnapshotKept(states, events, i, j, record); }
  }
}
