/** Bans across merges and reversals: whoever absorbs a banned account should be banned. */
module MergeBans {
  import opened Common
  import opened MergeModel
  import opened MergeRuns
  import MergeLaws

  /** A tombstone points at an account, which is banned if the tombstone is. */
  ghost predicate BansFollow(users: map<UserId, User>) {
    forall u :: u in users && users[u].mergedInto.Some? ==> Follows(users, u, users[u].mergedInto.value)
  }

  predicate Follows(users: map<UserId, User>, u: UserId, v: UserId)
    requires u in users
  {
    v in users && (users[u].isBanned ==> users[v].isBanned)
  }

  /** Then a ban reaches the live account at the end of the chain. */
  lemma {:induction false} RootBanned(users: map<UserId, User>, rank: map<UserId, nat>, u: UserId)
    requires Ranked(users, rank) && BansFollow(users) && u in users && users[u].isBanned
    ensures users[Root(users, rank, u)].isBanned
    decreases rank[u]
  {
    if users[u].mergedInto.Some? {
      assert Follows(users, u, users[u].mergedInto.value);
      RootBanned(users, rank, users[u].mergedInto.value);
    }
  }

  // ---------------------------------------------------------------------------
  // One transaction
  // ---------------------------------------------------------------------------

  /** The survivor, banned from now on, is itself merged into an account that is not. */
  ghost predicate MergeStopsBan(users: map<UserId, User>, s: UserId, d: UserId)
    requires s in users && d in users
  {
    && users[d].isBanned && users[s].mergedInto.Some? && users[s].mergedInto.value in users
    && users[s].mergedInto.value != s && !users[users[s].mergedInto.value].isBanned
  }

  /** The ban flag put back disagrees with an account merged into the survivor, or with one the survivor
      is merged into. */
  ghost predicate ReversalStopsBan(users: map<UserId, User>, snap: Snapshot)
    requires snap.survivor in users && snap.donor in users
  {
    var s, d := snap.survivor, snap.donor;
    if snap.survivorWasBanned then
      && users[s].mergedInto.Some? && users[s].mergedInto.value in users
      && users[s].mergedInto.value != s && !users[users[s].mergedInto.value].isBanned
    else
      exists u :: u in users && u != s && u != d && users[u].isBanned && users[u].mergedInto == Some(s)
  }

  lemma MergeKeepsBansExactly(users: map<UserId, User>, after: map<UserId, User>, s: UserId, d: UserId)
    requires BansFollow(users) && s in users && d in users && s != d && users[d].mergedInto == None
    requires after.Keys == users.Keys && after[d].mergedInto == Some(s)
    requires after[s].isBanned <==> users[s].isBanned || users[d].isBanned
    requires forall u :: u in users && u != s ==> after[u].isBanned == users[u].isBanned
    requires forall u :: u in users && u != d ==> after[u].mergedInto == users[u].mergedInto
    ensures BansFollow(after) <==> !MergeStopsBan(users, s, d)
  {
    forall u | u in users && users[u].mergedInto.Some? ensures Follows(users, u, users[u].mergedInto.value) { }
    if BansFollow(after) {
      forall v | users[s].mergedInto == Some(v) ensures Follows(after, s, v) { assert after[s].mergedInto == Some(v); }
    } else {
      var u :| u in after && after[u].mergedInto.Some? && !Follows(after, u, after[u].mergedInto.value);
      assert u != d && Follows(users, u, users[u].mergedInto.value);
    }
  }

  lemma ReversalKeepsBansExactly(users: map<UserId, User>, snap: Snapshot)
    requires snap.survivor in users && snap.donor in users && snap.survivor != snap.donor && BansFollow(users)
    ensures BansFollow(ReversedUsers(users, snap)) <==> !ReversalStopsBan(users, snap)
  {
    var s, d, after := snap.survivor, snap.donor, ReversedUsers(users, snap);
    if ReversalStopsBan(users, snap) {
      var u :| u in users && u != d && after[u].mergedInto.Some? && !Follows(after, u, after[u].mergedInto.value);
    } else {
      forall u | u in after && after[u].mergedInto.Some? ensures Follows(after, u, after[u].mergedInto.value) {
        assert Follows(users, u, users[u].mergedInto.value);
      }
    }
  }

  // ---------------------------------------------------------------------------
  // Runs
  // ---------------------------------------------------------------------------

  /** Event i commits and leaves a ban behind. */
  ghost predicate StopsBan(states: seq<State>, events: seq<Event>, i: nat)
    requires Run(states, events) && i < |events|
  {
    RunValid(states, events, i);
    match events[i]
    case Merging(call, _) => Commits(states[i], call) && MergeStopsBan(states[i].core.users, call.s, call.d)
    case Reversing(record, _, look) =>
      var snap := states[look].records[record].snapshot;
      ReversalCommits(states[i], record, snap) && ReversalStopsBan(states[i].core.users, snap)
    case _ => false
  }

  /** No administrator bans or unbans anybody. */
  ghost predicate Quiet(states: seq<State>, events: seq<Event>)
    requires |states| == |events| + 1
  {
    forall i :: 0 <= i < |events| && events[i].Other? ==> SameBans(states[i].core.users, states[i + 1].core.users)
  }

  ghost predicate SameBans(before: map<UserId, User>, after: map<UserId, User>) {
    forall u :: u in before && u in after ==> after[u].isBanned == before[u].isBanned
  }

  lemma OtherKeepsBans(before: map<UserId, User>, after: map<UserId, User>)
    requires BansFollow(before) && SameBans(before, after)
    requires forall u :: u in before ==> u in after && after[u].mergedInto == before[u].mergedInto
    requires forall u :: u in after && u !in before ==> after[u].mergedInto == None
    ensures BansFollow(after)
  {
    forall u | u in after && after[u].mergedInto.Some? ensures Follows(after, u, after[u].mergedInto.value) {
      assert Follows(before, u, before[u].mergedInto.value);
    }
  }

  lemma MergeStepBans(st: State, call: MergeCall)
    requires Commits(st, call) && BansFollow(st.core.users)
    ensures call.s in st.core.users && call.d in st.core.users
    ensures BansFollow(AfterMerge(st, call).core.users) <==> !MergeStopsBan(st.core.users, call.s, call.d)
  {
    hide BansFollow, MergeStopsBan, Constraints, MergedClaims, MergedGrants, MergedOverrides, LostEligibilities,
      LostRedemptions, GrantSplits, RePoint, MergedEmails, TokenClients;
    MergeLaws.BanSticksAdminDoesNot(st.core, call.s, call.d, call.subs);
    MergeKeepsBansExactly(st.core.users, AfterMerge(st, call).core.users, call.s, call.d);
  }

  lemma ReversalStepBans(st: State, record: RowId, snap: Snapshot, now: int)
    requires ValidState(st) && ReversalCommits(st, record, snap) && BansFollow(st.core.users)
    ensures snap.survivor in st.core.users && snap.donor in st.core.users
    ensures BansFollow(ReversedWith(st, record, snap, now).core.users) <==> !ReversalStopsBan(st.core.users, snap)
  {
    hide BansFollow, ReversalStopsBan, Constraints, CanReverseClaims, CanRekey, CanSplit, SplitGrants, RekeyPresent,
      DropEntries, ReversedUsers;
    ReversalKeepsBansExactly(st.core.users, snap);
  }

  lemma StepKeepsBansExactly(states: seq<State>, events: seq<Event>, i: nat)
    requires Run(states, events) && Quiet(states, events) && i < |events| && BansFollow(states[i].core.users)
    ensures BansFollow(states[i + 1].core.users) <==> !StopsBan(states, events, i)
  {
    hide BansFollow, ValidState, Commits, AfterMerge, ReversalCommits, ReversedWith, Confirmed, MergeStopsBan,
      ReversalStopsBan, SameBans;
    RunValid(states, events, i);
    var st := states[i];
    match events[i]
    case Merging(call, look) =>
      if Commits(st, call) { MergeStepBans(st, call); }
    case Reversing(record, now, look) =>
      var snap := states[look].records[record].snapshot;
      if ReversalCommits(st, record, snap) { ReversalStepBans(st, record, snap, now); }
    case Other => OtherKeepsBans(st.core.users, states[i + 1].core.users);
    case _ =>
  }

  /**
   Through every run of merges and reversals, as long as administrators leave bans alone: an account that
   absorbed a banned one is banned at every moment, if and only if no merge commits into a tombstone of an
   unbanned account, and no reversal puts back a flag that disagrees with another merge.
   */
  lemma RunKeepsBansExactly(states: seq<State>, events: seq<Event>)
    requires Run(states, events) && Quiet(states, events) && BansFollow(states[0].core.users)
    ensures (forall i :: 0 <= i < |states| ==> BansFollow(states[i].core.users)) <==>
            (forall i :: 0 <= i < |events| ==> !StopsBan(states, events, i))
  {
    hide BansFollow, Run, Quiet, StopsBan;
    SameLength(states, events);
    if forall i :: 0 <= i < |events| ==> !StopsBan(states, events, i) {
      forall i | 0 <= i < |states| ensures BansFollow(states[i].core.users) {
        BansUpTo(states, events, i);
      }
    }
    if forall i :: 0 <= i < |states| ==> BansFollow(states[i].core.users) {
      forall i | 0 <= i < |events| ensures !StopsBan(states, events, i) {
        assert BansFollow(states[i + 1].core.users);
        StepKeepsBansExactly(states, events, i);
      }
    }
  }

  lemma {:induction false} BansUpTo(states: seq<State>, events: seq<Event>, n: nat)
    requires Run(states, events) && Quiet(states, events) && BansFollow(states[0].core.users) && n < |states|
    requires forall i :: 0 <= i < |events| ==> !StopsBan(states, events, i)
    ensures BansFollow(states[n].core.users)
  {
    hide BansFollow, Run, Quiet, StopsBan;
    SameLength(states, events);
    if n > 0 {
      BansUpTo(states, events, n - 1);
      StepKeepsBansExactly(states, events, n - 1);
    }
  }
}
