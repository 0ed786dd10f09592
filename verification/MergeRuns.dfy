/**
 Whole runs of merges, reversals and other activity: stacked merges unwind, session generations
 only grow, and the tombstone graph stays a forest except in one exactly described race.
 */
module MergeRuns {
  import opened Common
  import opened MergeModel
  import MergeLaws
  import MergeRoundTrip
  import MergeOrder

  // ---------------------------------------------------------------------------
  // Stacked merges reversed last-in-first-out
  // ---------------------------------------------------------------------------

  datatype MergeCall = MergeCall(s: UserId, d: UserId, subs: map<ClientId, Sub>, now: int, record: RowId)

  ghost predicate Commits(st: State, call: MergeCall) {
    ValidState(st) && call.record !in st.records && CanMerge(st.core, call.s, call.d, call.subs)
  }

  ghost function AfterMerge(st: State, call: MergeCall): State
    requires Commits(st, call)
  {
    MergedState(st, call.s, call.d, call.subs, call.now, call.record)
  }

  ghost predicate AllCommit(st: State, calls: seq<MergeCall>)
    decreases |calls|
  {
    calls == [] || (Commits(st, calls[0]) && AllCommit(AfterMerge(st, calls[0]), calls[1..]))
  }

  ghost function AfterMerges(st: State, calls: seq<MergeCall>): State
    requires AllCommit(st, calls)
    decreases |calls|
  {
    if calls == [] then st else AfterMerges(AfterMerge(st, calls[0]), calls[1..])
  }

  /** Reverse the records of the calls, latest first, each at its own time; None if any is refused. */
  ghost function Unwind(st: State, calls: seq<MergeCall>, times: seq<int>): Option<State>
    requires |times| == |calls|
    decreases |calls|
  {
    if calls == [] then Some(st) else
      match Unwind(st, calls[1..], times[1..])
      case None => None
      case Some(x) =>
        if ValidState(x) && ReverseFailure(x, calls[0].record, times[0]) == None
        then Some(ReversedState(x, calls[0].record, times[0])) else None
  }

  /** How many of the merges took part in by a user. */
  ghost function Involvements(calls: seq<MergeCall>, u: UserId): nat {
    if calls == [] then 0 else
      (if u == calls[0].s || u == calls[0].d then 1 else 0) + Involvements(calls[1..], u)
  }

  /** Reversing one merge from any state whose tables are as the merge left them: accepted exactly in the
      seven days after the merge, and then never again. */
  lemma ReversalUndoes(st: State, call: MergeCall, x: State, now: int)
    requires Commits(st, call) && ValidState(x)
    requires x.core == AfterMerge(st, call).core
    requires call.record in x.records && x.records[call.record] == AfterMerge(st, call).records[call.record]
    ensures ReverseFailure(x, call.record, now) == if now < call.now + 604_800_000 then None else Some(WindowPassed)
    ensures now < call.now + 604_800_000 ==>
              && ReversedState(x, call.record, now).core == st.core
              && forall later :: LookFailure(ReversedState(x, call.record, now), call.record, later) ==
                   Some(AlreadyReversed)
  {
    hide CanReverse, ReversedCore, Constraints, MergedCore, MergeFailure;
    MergeRoundTrip.RoundTrip(st.core, call.s, call.d, call.subs);
    assert CanReverse(x.core, x.records[call.record].snapshot);
    StillMergedOf(x.core, x.records[call.record].snapshot);
  }

  lemma StillMergedOf(c: Core, snap: Snapshot)
    requires snap.survivor != snap.donor && CanReverse(c, snap)
    ensures StillMerged(c, snap)
  {
  }

  /** Any stack of committed merges, unwound in time, gives the original tables back; each user's
      generation has gone up by two for every merge it took part in. */
  lemma {:induction false} UnwindRestores(st: State, calls: seq<MergeCall>, times: seq<int>)
    requires ValidState(st) && AllCommit(st, calls) && |times| == |calls|
    requires forall i :: 0 <= i < |calls| ==> times[i] < calls[i].now + 604_800_000
    ensures var back := Unwind(AfterMerges(st, calls), calls, times);
            && back.Some? && ValidState(back.value)
            && back.value.core == st.core
            && (forall u :: u in st.generation ==>
                  u in back.value.generation &&
                  back.value.generation[u] == st.generation[u] + 2 * Involvements(calls, u))
            && (forall r :: r in st.records ==> r in back.value.records && back.value.records[r] == st.records[r])
    decreases |calls|
  {
    hide ValidState, Commits, ReverseFailure, AfterMerge, ReversedState, ReversedWith, ReversalCommits;
    if calls != [] {
      var call := calls[0];
      CommitsFacts(st, call);
      var st1 := AfterMerge(st, call);
      var now := times[0];
      UnwindRestores(st1, calls[1..], times[1..]);
      var x := Unwind(AfterMerges(st1, calls[1..]), calls[1..], times[1..]).value;
      ReversalUndoes(st, call, x, now);
      var snap := x.records[call.record].snapshot;
      Unhidden(x, call.record, now);
      MergeLaws.ReversedStateValid(x, call.record, snap, now);
      ReversalFacts(x, call.record, snap, now);
    }
  }

  lemma Unhidden(st: State, record: RowId, now: int)
    requires ValidState(st) && ReverseFailure(st, record, now) == None
    ensures record in st.records && ReversalCommits(st, record, st.records[record].snapshot)
    ensures ReversedState(st, record, now) == ReversedWith(st, record, st.records[record].snapshot, now)
  {
    hide ReversedCore, CanReverse, Constraints;
  }

  lemma CommitsFacts(st: State, call: MergeCall)
    requires Commits(st, call)
    ensures ValidState(AfterMerge(st, call)) && call.s != call.d
    ensures call.s in st.generation && call.d in st.generation
    ensures AfterMerge(st, call).generation == Bump(st.generation, call.s, call.d)
    ensures var rs := AfterMerge(st, call).records;
            && call.record in rs
            && rs[call.record].snapshot.survivor == call.s && rs[call.record].snapshot.donor == call.d
            && (forall r :: r in st.records ==> r in rs && rs[r] == st.records[r] && r != call.record)
  {
    hide Constraints, MergedCore, LostEligibilities, LostRedemptions, GrantSplits;
    MergeLaws.MergedStateValid(st, call.s, call.d, call.subs, call.now, call.record);
  }

  lemma ReversalFacts(st: State, record: RowId, snap: Snapshot, now: int)
    requires ValidState(st) && ReversalCommits(st, record, snap)
    ensures var r := ReversedWith(st, record, snap, now);
            && snap.survivor != snap.donor && snap.survivor in st.generation && snap.donor in st.generation
            && r.generation == Bump(st.generation, snap.survivor, snap.donor)
            && (forall k :: k in st.records && k != record ==> k in r.records && r.records[k] == st.records[k])
  {
    hide Constraints, CanReverseClaims, CanRekey, CanSplit, ReversedCore;
  }

  // ---------------------------------------------------------------------------
  // Two merges reversed first-in-first-out
  // ---------------------------------------------------------------------------

  /** Any two committed merges whose records are reversed in the order they were made: the tables are
      back if and only if the two snapshots are untangled. */
  lemma ReversedInOrder(st: State, one: MergeCall, two: MergeCall, now: int, now': int)
    requires Commits(st, one) && Commits(AfterMerge(st, one), two)
    requires var st2 := AfterMerge(AfterMerge(st, one), two);
             && ValidState(st2) && ReverseFailure(st2, one.record, now) == None
             && var st3 := ReversedState(st2, one.record, now);
             ValidState(st3) && ReverseFailure(st3, two.record, now') == None
    ensures var st1 := AfterMerge(st, one); var st2 := AfterMerge(st1, two);
            var st3 := ReversedState(st2, one.record, now);
            ReversedState(st3, two.record, now').core == st.core <==>
            MergeOrder.Untangled(st1.records[one.record].snapshot, st2.records[two.record].snapshot)
  {
    hide Constraints, MergedCore, ReversedCore, SnapshotOf, CanReverse, MergeFailure, MergeOrder.Untangled;
    var st1 := AfterMerge(st, one);
    var st2 := AfterMerge(st1, two);
    var st3 := ReversedState(st2, one.record, now);
    MergeOrder.InOrderRestoresExactly(st.core, one.s, one.d, one.subs, st1.core, two.s, two.d, two.subs, st2.core,
      st3.core);
  }

  // ---------------------------------------------------------------------------
  // The tombstone graph
  // ---------------------------------------------------------------------------

  /** Every tombstone points at an account of strictly smaller rank. */
  ghost predicate Ranked(users: map<UserId, User>, rank: map<UserId, nat>) {
    && rank.Keys == users.Keys
    && (forall u :: u in users && users[u].mergedInto.Some? ==>
          users[u].mergedInto.value in users && rank[users[u].mergedInto.value] < rank[u])
  }

  ghost predicate Forest(users: map<UserId, User>) {
    exists rank :: Ranked(users, rank)
  }

  /** The account at the end of the chain of tombstones; it is always a live one. */
  ghost function Root(users: map<UserId, User>, rank: map<UserId, nat>, u: UserId): (r: UserId)
    requires Ranked(users, rank) && u in users
    ensures r in users && users[r].mergedInto == None
    decreases rank[u]
  {
    if users[u].mergedInto == None then u else Root(users, rank, users[u].mergedInto.value)
  }

  lemma {:induction false} RankFallsToRoot(
    users: map<UserId, User>, rank: map<UserId, nat>, s: UserId, d: UserId, rank': map<UserId, nat>, u: UserId)
    requires Ranked(users, rank) && u in users && s in users && d in users && users[d].mergedInto == None && s != d
    requires Ranked(MergedUsers(users, s, d), rank')
    ensures rank'[Root(users, rank, u)] <= rank'[u]
    decreases rank[u]
  {
    if users[u].mergedInto != None {
      assert MergedUsers(users, s, d)[u].mergedInto == users[u].mergedInto;
      RankFallsToRoot(users, rank, s, d, rank', users[u].mergedInto.value);
    }
  }

  lemma GraftKeepsForest(users: map<UserId, User>, rank: map<UserId, nat>, s: UserId, d: UserId)
    requires Ranked(users, rank) && s in users && d in users && users[d].mergedInto == None && s != d
    requires Root(users, rank, s) != d
    ensures Forest(MergedUsers(users, s, d))
  {
    var after := MergedUsers(users, s, d);
    var rank' := map u | u in users ::
      if Root(users, rank, u) == d then rank[u] + rank[s] + 1 else rank[u];
    forall u | u in after && after[u].mergedInto.Some?
      ensures after[u].mergedInto.value in after && rank'[after[u].mergedInto.value] < rank'[u]
    {
      if u == d {
        assert after[u].mergedInto.value == s;
      } else {
        assert after[u].mergedInto == users[u].mergedInto;
      }
    }
    assert Ranked(after, rank');
  }

  /** The merge transaction never looks at the survivor's own tombstone. It keeps the graph a
      forest exactly when the survivor's chain does not end at the donor. */
  lemma MergeKeepsForestExactly(users: map<UserId, User>, rank: map<UserId, nat>, s: UserId, d: UserId)
    requires Ranked(users, rank) && s in users && d in users && users[d].mergedInto == None && s != d
    ensures Forest(MergedUsers(users, s, d)) <==> Root(users, rank, s) != d
  {
    if Root(users, rank, s) != d {
      GraftKeepsForest(users, rank, s, d);
    } else if Forest(MergedUsers(users, s, d)) {
      var rank' := SomeRank(MergedUsers(users, s, d));
      assert MergedUsers(users, s, d)[d].mergedInto == Some(s);
      RankFallsToRoot(users, rank, s, d, rank', s);
      assert false;
    }
  }

  /** The chain of tombstones from u ends at r. */
  ghost predicate EndsAt(users: map<UserId, User>, u: UserId, r: UserId) {
    exists rank :: Ranked(users, rank) && u in users && Root(users, rank, u) == r
  }

  lemma {:induction false} RootUnique(
    users: map<UserId, User>, rank: map<UserId, nat>, rank': map<UserId, nat>, u: UserId)
    requires Ranked(users, rank) && Ranked(users, rank') && u in users
    ensures Root(users, rank, u) == Root(users, rank', u)
    decreases rank[u]
  {
    if users[u].mergedInto != None { RootUnique(users, rank, rank', users[u].mergedInto.value); }
  }

  // ---------------------------------------------------------------------------
  // Runs
  // ---------------------------------------------------------------------------

  /**
   confirmMerge reads that both accounts are live and only then starts the merge, whose transaction
   does not look at the survivor's tombstone again; reverseMerge reads the record before its
   transaction. So each is two events, with anything in between.
   */
  datatype Event =
    | Confirming(s: UserId, d: UserId)
    | Merging(call: MergeCall, look: nat)
    | Looking(record: RowId, at: int)
    | Reversing(reversed: RowId, now: int, look: nat)
    | Other

  /** What confirmMerge reads. */
  ghost predicate Confirmed(st: State, s: UserId, d: UserId) {
    && s != d && s in st.core.users && d in st.core.users
    && st.core.users[s].mergedInto == None && st.core.users[d].mergedInto == None
  }

  /** Anything else the application does: accounts may appear, generations may grow, tables may
      change within their constraints, but tombstones are written by merges and reversals alone. */
  ghost predicate OtherActivity(st: State, st': State)
    requires ValidState(st)
  {
    && ValidState(st') && st'.records == st.records
    && (forall u :: u in st.core.users ==>
          u in st'.core.users && st'.core.users[u].mergedInto == st.core.users[u].mergedInto &&
          st.generation[u] <= st'.generation[u])
    && (forall u :: u in st'.core.users && u !in st.core.users ==> st'.core.users[u].mergedInto == None)
  }

  ghost predicate Happens(states: seq<State>, events: seq<Event>, i: nat)
    requires |states| == |events| + 1 && i < |events| && ValidState(states[i])
  {
    var st, st' := states[i], states[i + 1];
    match events[i]
    case Confirming(_, _) => st' == st
    case Merging(call, look) =>
      && look < i && events[look] == Confirming(call.s, call.d) && Confirmed(states[look], call.s, call.d)
      && (if Commits(st, call) then st' == AfterMerge(st, call) else st' == st)
    case Looking(_, _) => st' == st
    case Reversing(record, now, look) =>
      && look < i && events[look].Looking? && events[look].record == record
      && LookFailure(states[look], record, events[look].at) == None
      && var snap := states[look].records[record].snapshot;
      (if ReversalCommits(st, record, snap) then st' == ReversedWith(st, record, snap, now) else st' == st)
    case Other => OtherActivity(st, st')
  }

  ghost predicate Run(states: seq<State>, events: seq<Event>) {
    && |states| == |events| + 1 && ValidState(states[0])
    && (forall i :: 0 <= i < |events| && ValidState(states[i]) ==> Happens(states, events, i))
  }

  lemma {:induction false} RunValid(states: seq<State>, events: seq<Event>, i: nat)
    requires Run(states, events) && i < |states|
    ensures ValidState(states[i])
  {
    hide ValidState, Commits, AfterMerge, ReversalCommits, ReversedWith, OtherActivity, Confirmed;
    if i > 0 {
      RunValid(states, events, i - 1);
      StepValid(states, events, i - 1);
    }
  }

  lemma StepValid(states: seq<State>, events: seq<Event>, i: nat)
    requires |states| == |events| + 1 && i < |events| && ValidState(states[i]) && Happens(states, events, i)
    ensures ValidState(states[i + 1])
  {
    hide ValidState, ReversalCommits, ReversedWith, Confirmed, CanMerge, MergedState;
    var st := states[i];
    match events[i]
    case Merging(call, look) =>
      if Commits(st, call) { MergeLaws.MergedStateValid(st, call.s, call.d, call.subs, call.now, call.record); }
    case Reversing(record, now, look) =>
      var snap := states[look].records[record].snapshot;
      if ReversalCommits(st, record, snap) { MergeLaws.ReversedStateValid(st, record, snap, now); }
    case _ =>
  }

  // ---------------------------------------------------------------------------
  // The forest over runs
  // ---------------------------------------------------------------------------

  /** A merge commits although the survivor's own chain of tombstones ends at the donor. */
  ghost predicate ClosesLoop(st: State, e: Event) {
    e.Merging? && Commits(st, e.call) && EndsAt(st.core.users, e.call.s, e.call.d)
  }

  lemma MergeStepForest(st: State, call: MergeCall)
    requires Commits(st, call) && Forest(st.core.users)
    ensures Forest(AfterMerge(st, call).core.users) <==> !EndsAt(st.core.users, call.s, call.d)
  {
    hide Forest, Ranked, Constraints, MergedClaims, MergedGrants, MergedOverrides, LostEligibilities, LostRedemptions,
      Root;
    var users := st.core.users;
    var rank := SomeRank(users);
    MergeKeepsForestExactly(users, rank, call.s, call.d);
    if EndsAt(users, call.s, call.d) {
      var rank' :| Ranked(users, rank') && Root(users, rank', call.s) == call.d;
      RootUnique(users, rank, rank', call.s);
    }
  }

  lemma SomeRank(users: map<UserId, User>) returns (rank: map<UserId, nat>)
    requires Forest(users)
    ensures Ranked(users, rank)
  {
    rank :| Ranked(users, rank);
  }

  lemma ReversalStepForest(st: State, record: RowId, snap: Snapshot, now: int)
    requires ValidState(st) && ReversalCommits(st, record, snap) && Forest(st.core.users)
    ensures Forest(ReversedWith(st, record, snap, now).core.users)
  {
    hide Constraints, CanReverseClaims, CanRekey, CanSplit, SplitGrants, RekeyPresent, DropEntries, Forest,
      ReversedUsers;
    FewerTombstonesForest(st.core.users, snap);
  }

  lemma FewerTombstonesForest(users: map<UserId, User>, snap: Snapshot)
    requires Forest(users) && snap.survivor in users && snap.donor in users
    ensures Forest(ReversedUsers(users, snap))
  {
    hide Forest;
    ClearedForest(users, ReversedUsers(users, snap));
  }

  lemma ClearedForest(before: map<UserId, User>, after: map<UserId, User>)
    requires Forest(before) && after.Keys == before.Keys
    requires forall u :: u in after ==>
      after[u].mergedInto == None || after[u].mergedInto == before[u].mergedInto
    ensures Forest(after)
  {
    var rank := SomeRank(before);
    forall u | u in after && after[u].mergedInto.Some?
      ensures after[u].mergedInto.value in after && rank[after[u].mergedInto.value] < rank[u]
    {
      assert before[u].mergedInto.value in before;
    }
    assert Ranked(after, rank);
  }

  lemma OtherStepForest(st: State, st': State)
    requires ValidState(st) && OtherActivity(st, st') && Forest(st.core.users)
    ensures Forest(st'.core.users)
  {
    hide Constraints, Forest;
    MoreAccountsForest(st.core.users, st'.core.users);
  }

  lemma MoreAccountsForest(before: map<UserId, User>, after: map<UserId, User>)
    requires Forest(before)
    requires forall u :: u in before ==> u in after && after[u].mergedInto == before[u].mergedInto
    requires forall u :: u in after && u !in before ==> after[u].mergedInto == None
    ensures Forest(after)
  {
    var rank := SomeRank(before);
    var rank': map<UserId, nat> := map u | u in after :: if u in rank then rank[u] else 0;
    forall u | u in after && after[u].mergedInto.Some?
      ensures after[u].mergedInto.value in after && rank'[after[u].mergedInto.value] < rank'[u]
    {
      assert u in before && before[u].mergedInto.value in before;
    }
    assert Ranked(after, rank');
  }

  lemma StepKeepsForestExactly(states: seq<State>, events: seq<Event>, i: nat)
    requires Run(states, events) && i < |events| && Forest(states[i].core.users)
    ensures Forest(states[i + 1].core.users) <==> !ClosesLoop(states[i], events[i])
  {
    hide Forest, ValidState, Commits, AfterMerge, ReversalCommits, ReversedWith, OtherActivity, Confirmed, EndsAt;
    RunValid(states, events, i);
    var st := states[i];
    match events[i]
    case Merging(call, look) =>
      if Commits(st, call) { MergeStepForest(st, call); }
    case Reversing(record, now, look) =>
      var snap := states[look].records[record].snapshot;
      if ReversalCommits(st, record, snap) { ReversalStepForest(st, record, snap, now); }
    case Other => OtherStepForest(st, states[i + 1]);
    case _ =>
  }

  /** The tombstones form a forest with live roots at every moment of a run, if and only if no merge
      of the run commits for a survivor whose chain then ends at the donor. */
  lemma RunKeepsForestExactly(states: seq<State>, events: seq<Event>)
    requires Run(states, events) && Forest(states[0].core.users)
    ensures (forall i :: 0 <= i < |states| ==> Forest(states[i].core.users)) <==>
            (forall i :: 0 <= i < |events| ==> !ClosesLoop(states[i], events[i]))
  {
    hide Forest, Run, ClosesLoop;
    SameLength(states, events);
    if forall i :: 0 <= i < |states| ==> Forest(states[i].core.users) {
      forall i | 0 <= i < |events| ensures !ClosesLoop(states[i], events[i]) {
        assert Forest(states[i + 1].core.users);
        StepKeepsForestExactly(states, events, i);
      }
    }
    if forall i :: 0 <= i < |events| ==> !ClosesLoop(states[i], events[i]) {
      forall i | 0 <= i < |states| ensures Forest(states[i].core.users) { LoopFree(states, events, i); }
    }
  }

  lemma SameLength(states: seq<State>, events: seq<Event>)
    requires Run(states, events)
    ensures |states| == |events| + 1
  {
  }

  lemma {:induction false} LoopFree(states: seq<State>, events: seq<Event>, i: nat)
    requires Run(states, events) && Forest(states[0].core.users) && i < |states|
    requires forall j :: 0 <= j < i && j < |events| ==> !ClosesLoop(states[j], events[j])
    ensures Forest(states[i].core.users)
  {
    hide Forest, ClosesLoop;
    if i > 0 {
      LoopFree(states, events, i - 1);
      StepKeepsForestExactly(states, events, i - 1);
    }
  }

  /** The only way to close a loop is a race: between its look and its transaction, another merge
      with the survivor as donor commits. */
  lemma LoopNeedsRace(states: seq<State>, events: seq<Event>, i: nat) returns (j: nat)
    requires Run(states, events) && i < |events| && ClosesLoop(states[i], events[i])
    ensures events[i].look < j < i
    ensures events[j].Merging? && Commits(states[j], events[j].call) && events[j].call.d == events[i].call.s
  {
    hide ValidState, AfterMerge, ReversedWith, Forest, Commits, ReversalCommits, OtherActivity, EndsAt;
    RunValid(states, events, i);
    var call, look := events[i].call, events[i].look;
    LoopedSurvivor(states[i], call);
    j := TombstonedBetween(states, events, look, i, call.s);
  }

  lemma LoopedSurvivor(st: State, call: MergeCall)
    requires Commits(st, call) && EndsAt(st.core.users, call.s, call.d)
    ensures call.s in st.core.users && st.core.users[call.s].mergedInto.Some?
  {
    hide ValidState;
    var rank :| Ranked(st.core.users, rank) && Root(st.core.users, rank, call.s) == call.d;
  }

  /** An account that is live at one moment and a tombstone later was the donor of a merge in between. */
  lemma {:induction false} TombstonedBetween(states: seq<State>, events: seq<Event>, i: nat, k: nat, u: UserId)
    returns (j: nat)
    requires Run(states, events) && i <= k < |states|
    requires u in states[i].core.users && states[i].core.users[u].mergedInto == None
    requires u in states[k].core.users && states[k].core.users[u].mergedInto.Some?
    ensures i <= j < k && events[j].Merging? && Commits(states[j], events[j].call) && events[j].call.d == u
    decreases k
  {
    hide ValidState, Commits, AfterMerge, ReversedWith, ReversalCommits, OtherActivity, Confirmed;
    RunValid(states, events, k - 1);
    if events[k - 1].Merging? && Commits(states[k - 1], events[k - 1].call) && events[k - 1].call.d == u {
      return k - 1;
    }
    StaysTombstone(states, events, k - 1, u);
    j := TombstonedBetween(states, events, i, k - 1, u);
  }

  lemma StaysTombstone(states: seq<State>, events: seq<Event>, k: nat, u: UserId)
    requires |states| == |events| + 1 && k < |events| && ValidState(states[k]) && Happens(states, events, k)
    requires u in states[k + 1].core.users && states[k + 1].core.users[u].mergedInto.Some?
    requires !(events[k].Merging? && Commits(states[k], events[k].call) && events[k].call.d == u)
    ensures u in states[k].core.users && states[k].core.users[u].mergedInto.Some?
  {
    hide Constraints, MergedClaims, MergedGrants, MergedOverrides, LostEligibilities, LostRedemptions, GrantSplits,
      CanReverse, SplitGrants, RekeyPresent, DropEntries, ReversedClaims, MergeFailure;
    match events[k]
    case Merging(call, look) =>
      if Commits(states[k], call) { CommitsFacts(states[k], call); }
    case Reversing(record, now, look) =>
      var snap := states[look].records[record].snapshot;
      if ReversalCommits(states[k], record, snap) { ReversalFacts(states[k], record, snap, now); }
    case _ =>
  }

  // ---------------------------------------------------------------------------
  // Generations
  // ---------------------------------------------------------------------------

  /** The users whose credentials a committed event touches. */
  ghost function Touched(states: seq<State>, events: seq<Event>, i: nat): set<UserId>
    requires |states| == |events| + 1 && i < |events| && ValidState(states[i]) && Happens(states, events, i)
  {
    match events[i]
    case Merging(call, _) => if Commits(states[i], call) then {call.s, call.d} else {}
    case Reversing(record, now, look) =>
      var snap := states[look].records[record].snapshot;
      if ReversalCommits(states[i], record, snap) then {snap.survivor, snap.donor} else {}
    case _ => {}
  }

  /** No generation ever goes down, and a committed merge or reversal moves both up. */
  lemma StepRaisesGenerations(states: seq<State>, events: seq<Event>, i: nat)
    requires |states| == |events| + 1 && i < |events| && ValidState(states[i]) && Happens(states, events, i)
    ensures forall u :: u in states[i].generation ==>
              u in states[i + 1].generation && states[i].generation[u] <= states[i + 1].generation[u]
    ensures forall u :: u in Touched(states, events, i) ==>
              u in states[i].generation && u in states[i + 1].generation &&
                states[i].generation[u] < states[i + 1].generation[u]
  {
    hide ValidState, Commits, ReversalCommits, AfterMerge, ReversedWith, OtherActivity, Confirmed;
    var st := states[i];
    match events[i]
    case Merging(call, look) =>
      if Commits(st, call) { CommitsFacts(st, call); }
    case Reversing(record, now, look) =>
      var snap := states[look].records[record].snapshot;
      if ReversalCommits(st, record, snap) { ReversalFacts(st, record, snap, now); }
    case Other => OtherRaisesGenerations(st, states[i + 1]);
    case _ =>
  }

  lemma OtherRaisesGenerations(st: State, st': State)
    requires ValidState(st) && OtherActivity(st, st')
    ensures forall u :: u in st.generation ==> u in st'.generation && st.generation[u] <= st'.generation[u]
  {
    hide Constraints;
  }

  lemma {:induction false} RunRaisesGenerations(states: seq<State>, events: seq<Event>, i: nat, j: nat, u: UserId)
    requires Run(states, events) && i <= j < |states| && u in states[i].generation
    ensures u in states[j].generation && states[i].generation[u] <= states[j].generation[u]
    decreases j
  {
    hide ValidState, Happens;
    if i < j {
      RunRaisesGenerations(states, events, i, j - 1, u);
      RunValid(states, events, j - 1);
      StepRaisesGenerations(states, events, j - 1);
    }
  }

  /** getCurrentSession accepts a token stamped g for u. */
  ghost predicate SessionAccepted(st: State, u: UserId, g: nat) {
    && u in st.core.users && u in st.generation && st.generation[u] == g
    && !st.core.users[u].isBanned && st.core.users[u].mergedInto == None
  }

  /** A session stamped before a committed merge or reversal of its user is never accepted again. */
  lemma OldSessionsStayDead(states: seq<State>, events: seq<Event>, i: nat, k: nat, j: nat, u: UserId)
    requires Run(states, events) && i <= k < j < |states|
    requires ValidState(states[k]) && u in Touched(states, events, k)
    requires u in states[i].generation
    ensures !SessionAccepted(states[j], u, states[i].generation[u])
  {
    hide Happens, Touched, ValidState;
    RunRaisesGenerations(states, events, i, k, u);
    StepRaisesGenerations(states, events, k);
    RunRaisesGenerations(states, events, k + 1, j, u);
  }

  /** A step that does not touch u, and is not other activity, leaves its generation alone. */
  lemma StepLeavesGeneration(states: seq<State>, events: seq<Event>, k: nat, u: UserId)
    requires Run(states, events) && k < |events| && ValidState(states[k]) && u in states[k].generation
    requires !events[k].Other? && u !in Touched(states, events, k)
    ensures u in states[k + 1].generation && states[k + 1].generation[u] == states[k].generation[u]
  {
    hide ValidState, Commits, AfterMerge, ReversalCommits, ReversedWith, Confirmed;
    match events[k]
    case Merging(call, look) =>
      if Commits(states[k], call) { CommitsFacts(states[k], call); }
    case Reversing(record, now, look) =>
      var snap := states[look].records[record].snapshot;
      if ReversalCommits(states[k], record, snap) { ReversalFacts(states[k], record, snap, now); }
    case _ =>
  }

  /** Event k is no committed merge or reversal of u and does not raise its generation otherwise. */
  ghost predicate LeavesAlone(states: seq<State>, events: seq<Event>, k: nat, u: UserId)
    requires Run(states, events) && k < |events|
  {
    RunValid(states, events, k);
    if events[k].Other? then
      u in states[k].generation && u in states[k + 1].generation &&
      states[k + 1].generation[u] == states[k].generation[u]
    else u !in Touched(states, events, k)
  }

  ghost predicate LeftAlone(states: seq<State>, events: seq<Event>, i: nat, j: nat, u: UserId)
    requires Run(states, events) && i <= j < |states|
  {
    forall k :: i <= k < j ==> LeavesAlone(states, events, k, u)
  }

  lemma {:induction false} GenerationKept(states: seq<State>, events: seq<Event>, i: nat, j: nat, u: UserId)
    requires Run(states, events) && i <= j < |states| && u in states[i].generation
    requires LeftAlone(states, events, i, j, u)
    ensures u in states[j].generation && states[j].generation[u] == states[i].generation[u]
    decreases j
  {
    hide Happens, Touched, ValidState;
    if i < j {
      GenerationKept(states, events, i, j - 1, u);
      RunValid(states, events, j - 1);
      assert LeavesAlone(states, events, j - 1, u);
      if !events[j - 1].Other? { StepLeavesGeneration(states, events, j - 1, u); }
    }
  }

  /** Nobody is signed out for nothing: as long as the account is left alone, a session goes on being accepted
      exactly while the account is neither banned nor merged. */
  lemma SessionsLiveOn(states: seq<State>, events: seq<Event>, i: nat, j: nat, u: UserId)
    requires Run(states, events) && i <= j < |states| && u in states[i].generation
    requires LeftAlone(states, events, i, j, u)
    ensures u in states[j].core.users
    ensures SessionAccepted(states[j], u, states[i].generation[u]) <==>
            !states[j].core.users[u].isBanned && states[j].core.users[u].mergedInto == None
  {
    hide Run, Happens, Touched, LeftAlone;
    SameLength(states, events);
    GenerationKept(states, events, i, j, u);
    RunValid(states, events, j);
  }

  // ---------------------------------------------------------------------------
  // Re-running a reversal
  // ---------------------------------------------------------------------------

  /** Event i is a reversal that commits, for the snapshot it read. */
  ghost predicate ReversesAt(states: seq<State>, events: seq<Event>, i: nat, snap: Snapshot)
    requires |states| == |events| + 1 && i < |events|
  {
    && events[i].Reversing? && events[i].look < i && events[i].reversed in states[events[i].look].records
    && snap == states[events[i].look].records[events[i].reversed].snapshot
    && ReversalCommits(states[i], events[i].reversed, snap)
  }

  /** Event i is a merge of d into s that commits. */
  ghost predicate MergesAt(states: seq<State>, events: seq<Event>, i: nat, s: UserId, d: UserId)
    requires |states| == |events| + 1 && i < |events|
  {
    events[i].Merging? && Commits(states[i], events[i].call) && events[i].call.s == s && events[i].call.d == d
  }

  /** Event i takes u's tombstone away. */
  ghost predicate ReleasesAt(states: seq<State>, events: seq<Event>, i: nat, u: UserId)
    requires |states| == |events| + 1 && i < |events|
  {
    exists snap :: ReversesAt(states, events, i, snap) && snap.donor == u
  }

  /** Between events i and k the pair was merged again, and that merge still stands. */
  ghost predicate MergedSince(states: seq<State>, events: seq<Event>, i: nat, k: nat, s: UserId, d: UserId)
    requires |states| == |events| + 1 && i < k < |events|
  {
    exists j :: i < j < k && MergesAt(states, events, j, s, d) &&
      forall m :: j < m < k ==> !ReleasesAt(states, events, m, d)
  }

  /** What a record says of its merge never changes. */
  lemma {:induction false} SnapshotKept(states: seq<State>, events: seq<Event>, i: nat, k: nat, record: RowId)
    requires Run(states, events) && i <= k < |states| && record in states[i].records
    ensures record in states[k].records && states[k].records[record].snapshot == states[i].records[record].snapshot
    decreases k
  {
    hide ValidState, Happens;
    if i < k {
      SnapshotKept(states, events, i, k - 1, record);
      RunValid(states, events, k - 1);
      StepKeepsSnapshot(states, events, k - 1, record);
    }
  }

  lemma StepKeepsSnapshot(states: seq<State>, events: seq<Event>, i: nat, record: RowId)
    requires |states| == |events| + 1 && i < |events| && ValidState(states[i]) && Happens(states, events, i)
    requires record in states[i].records
    ensures record in states[i + 1].records
    ensures states[i + 1].records[record].snapshot == states[i].records[record].snapshot
  {
    hide ValidState, CanMerge, MergedCore, SnapshotOf, ReversalCommits, ReversedCore, Confirmed;
  }

  /** Two reversals of one record work from the same snapshot. */
  lemma SameSnapshot(states: seq<State>, events: seq<Event>, i: nat, k: nat)
    requires Run(states, events) && i < |events| && k < |events|
    requires events[i].Reversing? && events[k].Reversing? && events[i].reversed == events[k].reversed
    ensures var r, x, y := events[i].reversed, events[i].look, events[k].look;
            && x < i && y < k && r in states[x].records && r in states[y].records && r in states[k].records
            && states[x].records[r].snapshot == states[y].records[r].snapshot
            && states[x].records[r].snapshot.survivor != states[x].records[r].snapshot.donor
  {
    hide ReversalCommits, ReversedWith, AfterMerge, Commits, OtherActivity, Confirmed, Constraints;
    RunValid(states, events, i);
    RunValid(states, events, k);
    var r, x, y := events[i].reversed, events[i].look, events[k].look;
    RunValid(states, events, x);
    SnapshotKept(states, events, y, k, r);
    if x <= y { SnapshotKept(states, events, x, y, r); } else { SnapshotKept(states, events, y, x, r); }
  }

  /** A tombstone changes only by a merge of its account or by a reversal that releases it. */
  lemma TargetKept(states: seq<State>, events: seq<Event>, i: nat, u: UserId)
    requires |states| == |events| + 1 && i < |events| && ValidState(states[i]) && Happens(states, events, i)
    requires u in states[i].core.users
    ensures u in states[i + 1].core.users
    ensures (exists s :: MergesAt(states, events, i, s, u)) || ReleasesAt(states, events, i, u) ||
            states[i + 1].core.users[u].mergedInto == states[i].core.users[u].mergedInto
    ensures forall s :: MergesAt(states, events, i, s, u) ==> states[i].core.users[u].mergedInto == None
    ensures forall s :: MergesAt(states, events, i, s, u) ==> states[i + 1].core.users[u].mergedInto == Some(s)
    ensures ReleasesAt(states, events, i, u) ==> states[i + 1].core.users[u].mergedInto == None
  {
    hide Constraints, MergedClaims, MergedGrants, MergedOverrides, LostEligibilities, LostRedemptions, GrantSplits,
      CanReverse, SplitGrants, RekeyPresent, DropEntries, ReversedClaims, TokenClients;
    match events[i]
    case Merging(call, look) =>
      if Commits(states[i], call) {
        CommitsFacts(states[i], call);
        assert MergesAt(states, events, i, call.s, call.d);
      }
    case Reversing(record, now, look) =>
      var snap := states[look].records[record].snapshot;
      if ReversalCommits(states[i], record, snap) {
        ReversalFacts(states[i], record, snap, now);
        assert ReversesAt(states, events, i, snap);
      }
    case _ =>
  }

  /** A merge that nobody releases stands. */
  lemma {:induction false} MergeStands(states: seq<State>, events: seq<Event>, j: nat, k: nat, s: UserId, d: UserId)
    requires Run(states, events) && j < k < |states| && MergesAt(states, events, j, s, d)
    requires forall m :: j < m < k ==> !ReleasesAt(states, events, m, d)
    ensures d in states[k].core.users && states[k].core.users[d].mergedInto == Some(s)
    decreases k
  {
    hide ValidState, Happens, MergesAt, ReleasesAt;
    RunValid(states, events, k - 1);
    if k - 1 > j {
      MergeStands(states, events, j, k - 1, s, d);
    } else {
      DonorKnown(states, events, j, s, d);
    }
    TargetKept(states, events, k - 1, d);
  }

  lemma DonorKnown(states: seq<State>, events: seq<Event>, i: nat, s: UserId, d: UserId)
    requires |states| == |events| + 1 && i < |events| && MergesAt(states, events, i, s, d)
    ensures d in states[i].core.users
  {
    hide ValidState, TokenClients;
  }

  /** An account that is live at one moment and merged into s later was merged into s in between, and has
      not been released since. */
  lemma {:induction false} LastMerge(
    states: seq<State>, events: seq<Event>, i: nat, k: nat, s: UserId, d: UserId) returns (j: nat)
    requires Run(states, events) && i <= k < |states| && d in states[i].core.users
    requires states[i].core.users[d].mergedInto == None
    requires d in states[k].core.users && states[k].core.users[d].mergedInto == Some(s)
    ensures i <= j < k && MergesAt(states, events, j, s, d)
    ensures forall m :: j < m < k ==> !ReleasesAt(states, events, m, d)
    decreases k
  {
    hide ValidState, Happens, MergesAt, ReleasesAt;
    j := k - 1;
    RunValid(states, events, j);
    StillThere(states, events, i, j, d);
    TargetKept(states, events, j, d);
    if !(exists t :: MergesAt(states, events, j, t, d)) {
      j := LastMerge(states, events, i, j, s, d);
    }
  }

  lemma {:induction false} StillThere(states: seq<State>, events: seq<Event>, i: nat, k: nat, u: UserId)
    requires Run(states, events) && i <= k < |states| && u in states[i].core.users
    ensures u in states[k].core.users
    decreases k
  {
    hide ValidState, Happens, MergesAt, ReleasesAt;
    if i < k {
      StillThere(states, events, i, k - 1, u);
      RunValid(states, events, k - 1);
      TargetKept(states, events, k - 1, u);
    }
  }

  /**
   A reversal that has committed is run again, on a look from any time. It commits again if and only if
   the pair has been merged anew in between, that merge still stands, and no constraint is in the way;
   otherwise it changes nothing.
   */
  lemma RerunCommitsExactly(states: seq<State>, events: seq<Event>, i: nat, k: nat, snap: Snapshot)
    requires Run(states, events) && i < k < |events| && ReversesAt(states, events, i, snap)
    requires events[k].Reversing? && events[k].reversed == events[i].reversed
    ensures ReversesAt(states, events, k, snap) <==>
            MergedSince(states, events, i, k, snap.survivor, snap.donor) && CanReverse(states[k].core, snap)
    ensures !ReversesAt(states, events, k, snap) ==> states[k + 1] == states[k]
  {
    hide ValidState, CanReverse, ReversedWith, AfterMerge, Commits, OtherActivity, Confirmed;
    RunValid(states, events, i);
    RunValid(states, events, k);
    SameSnapshot(states, events, i, k);
    GuardExactly(states, events, i, k, snap);
    assert ReversesAt(states, events, k, snap) <==> ReversalCommits(states[k], events[k].reversed, snap);
    CanReverseGuard(states[k].core, snap);
  }

  lemma CanReverseGuard(c: Core, snap: Snapshot)
    requires snap.survivor != snap.donor
    ensures TxFailure(c, snap) == None <==> StillMerged(c, snap) && CanReverse(c, snap)
  {
    hide CanReverse;
  }

  /** The guard inside the transaction: the donor is merged into the survivor. */
  lemma GuardExactly(states: seq<State>, events: seq<Event>, i: nat, k: nat, snap: Snapshot)
    requires Run(states, events) && i < k < |events| && ReversesAt(states, events, i, snap)
    ensures StillMerged(states[k].core, snap) <==> MergedSince(states, events, i, k, snap.survivor, snap.donor)
  {
    hide ValidState, Happens, MergesAt, Commits, ReversesAt;
    var s, d := snap.survivor, snap.donor;
    RunValid(states, events, i);
    ReleasedDonor(states, events, i, snap);
    TargetKept(states, events, i, d);
    if StillMerged(states[k].core, snap) {
      var j := LastMerge(states, events, i + 1, k, s, d);
    }
    if MergedSince(states, events, i, k, s, d) {
      var j :| i < j < k && MergesAt(states, events, j, s, d) &&
        forall m :: j < m < k ==> !ReleasesAt(states, events, m, d);
      MergeStands(states, events, j, k, s, d);
    }
  }

  lemma ReleasedDonor(states: seq<State>, events: seq<Event>, i: nat, snap: Snapshot)
    requires |states| == |events| + 1 && i < |events| && ReversesAt(states, events, i, snap)
    ensures ReleasesAt(states, events, i, snap.donor) && snap.donor in states[i].core.users
  {
    hide CanReverse;
  }

  /** The four transactions of the run below. */
  lemma RerunSteps(st: State, call: MergeCall, again: MergeCall, now: int)
    requires Commits(st, call) && again == MergeCall(call.s, call.d, call.subs, again.now, again.record)
    requires again.record != call.record && again.record !in st.records && now < call.now + 604_800_000
    ensures var st1 := AfterMerge(st, call);
            && ValidState(st1) && ReverseFailure(st1, call.record, now) == None
            && var snap := st1.records[call.record].snapshot; var st2 := ReversedState(st1, call.record, now);
            && st2.core == st.core && Commits(st2, again)
            && var st3 := AfterMerge(st2, again);
            && ValidState(st3) && ReversalCommits(st3, call.record, snap)
            && var st4 := ReversedWith(st3, call.record, snap, now);
            && ValidState(st4) && st4.core == st.core
            && st4.records[again.record].reversedAt == None
            && TxFailure(st4.core, st4.records[again.record].snapshot) == Some(NoLongerMerged)
  {
    hide CanReverse, ReversedCore, Constraints, MergedCore, MergeFailure, SnapshotOf;
    var st1 := AfterMerge(st, call);
    MergeLaws.MergedStateValid(st, call.s, call.d, call.subs, call.now, call.record);
    ReversalUndoes(st, call, st1, now);
    var snap := st1.records[call.record].snapshot;
    MergeLaws.ReversedStateValid(st1, call.record, snap, now);
    var st2 := ReversedState(st1, call.record, now);
    assert Commits(st2, again);
    var st3 := AfterMerge(st2, again);
    MergeLaws.MergedStateValid(st2, again.s, again.d, again.subs, again.now, again.record);
    assert TxFailure(st3.core, snap) == None;
    MergeLaws.ReversedStateValid(st3, call.record, snap, now);
    DonorLive(st.core, call.s, call.d, call.subs);
  }

  lemma DonorLive(c: Core, s: UserId, d: UserId, subs: map<ClientId, Sub>)
    requires CanMerge(c, s, d, subs)
    ensures !StillMerged(c, SnapshotOf(c, s, d, subs))
  {
    hide LostEligibilities, LostRedemptions, GrantSplits;
  }

  /**
   From every database and for every merge that commits in it: two reversals look at the record, the
   first commits, the accounts are merged again, and the second commits too. It undoes the new merge,
   whose own record stays open but can no longer be reversed.
   */
  lemma RerunUndoesNextMerge(st: State, call: MergeCall, again: MergeCall, now: int)
    returns (states: seq<State>, events: seq<Event>, snap: Snapshot)
    requires Commits(st, call) && Confirmed(st, call.s, call.d)
    requires again == MergeCall(call.s, call.d, call.subs, again.now, again.record)
    requires again.record != call.record && again.record !in st.records && now < call.now + 604_800_000
    ensures Run(states, events) && |events| == 8 && states[0] == st
    ensures MergesAt(states, events, 1, call.s, call.d) && ReversesAt(states, events, 4, snap)
    ensures MergesAt(states, events, 6, call.s, call.d) && ReversesAt(states, events, 7, snap)
    ensures events[4].reversed == events[7].reversed == call.record
    ensures states[8].core == st.core && again.record in states[8].records
    ensures states[8].records[again.record].reversedAt == None
    ensures var open := states[8].records[again.record].snapshot;
            open.survivor != open.donor && TxFailure(states[8].core, open) == Some(NoLongerMerged)
  {
    hide ValidState, CanReverse, ReversedCore, MergedCore, MergeFailure, SnapshotOf, CanMerge, TxFailure;
    RerunSteps(st, call, again, now);
    CommitsFacts(st, call);
    var st1 := AfterMerge(st, call);
    snap := st1.records[call.record].snapshot;
    var st2 := ReversedState(st1, call.record, now);
    CommitsFacts(st2, again);
    var st3 := AfterMerge(st2, again);
    var st4 := ReversedWith(st3, call.record, snap, now);
    events := [Confirming(call.s, call.d), Merging(call, 0), Looking(call.record, now), Looking(call.record, now),
               Reversing(call.record, now, 2), Confirming(call.s, call.d), Merging(again, 5),
               Reversing(call.record, now, 3)];
    states := [st, st, st1, st1, st1, st2, st2, st3, st4];
  }
}
