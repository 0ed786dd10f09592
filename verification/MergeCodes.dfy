/** Authorization codes across merges and reversals: a merged account has none. */
module MergeCodes {
  import opened Common
  import opened MergeModel
  import opened MergeRuns

  ghost predicate Tombstone(st: State, u: UserId) {
    u in st.core.users && st.core.users[u].mergedInto.Some?
  }

  /** No authorization code belongs to an account that was merged away. */
  ghost predicate NoDeadCodes(st: State) {
    forall k :: k in st.authCodes ==> !Tombstone(st, st.authCodes[k])
  }

  /** A code that was not there before is given to such an account. */
  ghost predicate IssuesDeadCode(before: State, after: State) {
    exists k :: k in after.authCodes && !(k in before.authCodes && before.authCodes[k] == after.authCodes[k])
      && Tombstone(after, after.authCodes[k])
  }

  lemma MergeStep(st: State, call: MergeCall)
    requires Commits(st, call)
    ensures var after := AfterMerge(st, call);
            && (forall u :: Tombstone(after, u) <==> Tombstone(st, u) || u == call.d)
            && (forall k :: k in after.authCodes <==> k in st.authCodes && st.authCodes[k] != call.d)
            && (forall k :: k in after.authCodes ==> after.authCodes[k] == st.authCodes[k])
  {
    hide Constraints, MergedClaims, MergedGrants, MergedOverrides, LostEligibilities, LostRedemptions, GrantSplits,
      RePoint, MergedEmails, TokenClients;
  }

  lemma ReversalStep(st: State, record: RowId, snap: Snapshot, now: int)
    requires ValidState(st) && ReversalCommits(st, record, snap)
    ensures var after := ReversedWith(st, record, snap, now);
            && (forall u :: Tombstone(after, u) <==> Tombstone(st, u) && u != snap.donor)
            && after.authCodes == st.authCodes
  {
    hide Constraints, CanReverseClaims, CanRekey, CanSplit, SplitGrants, RekeyPresent, DropEntries, ReversedClaims;
  }

  lemma OtherStep(st: State, after: State)
    requires ValidState(st) && OtherActivity(st, after) && NoDeadCodes(st)
    ensures NoDeadCodes(after) <==> !IssuesDeadCode(st, after)
  {
    hide ValidState;
    forall k | k in st.authCodes && k in after.authCodes && st.authCodes[k] == after.authCodes[k]
      ensures !Tombstone(after, after.authCodes[k])
    {
      assert !Tombstone(st, st.authCodes[k]);
    }
  }

  lemma StepKeepsCodesExactly(states: seq<State>, events: seq<Event>, i: nat)
    requires Run(states, events) && i < |events| && NoDeadCodes(states[i])
    ensures NoDeadCodes(states[i + 1]) <==> !(events[i].Other? && IssuesDeadCode(states[i], states[i + 1]))
  {
    hide ValidState, Commits, AfterMerge, ReversalCommits, ReversedWith, OtherActivity, Confirmed, Tombstone,
      IssuesDeadCode;
    RunValid(states, events, i);
    match events[i]
    case Merging(call, look) =>
      if Commits(states[i], call) { MergeStep(states[i], call); }
    case Reversing(record, now, look) =>
      var snap := states[look].records[record].snapshot;
      if ReversalCommits(states[i], record, snap) { ReversalStep(states[i], record, snap, now); }
    case Other => OtherStep(states[i], states[i + 1]);
    case _ =>
  }

  /** Over every run, at no moment does an authorization code belong to a merged account, if and only if
      nothing else the application does ever issues one to such an account. */
  lemma RunKeepsCodesExactly(states: seq<State>, events: seq<Event>)
    requires Run(states, events) && NoDeadCodes(states[0])
    ensures (forall i :: 0 <= i < |states| ==> NoDeadCodes(states[i])) <==>
            (forall i :: 0 <= i < |events| && events[i].Other? ==> !IssuesDeadCode(states[i], states[i + 1]))
  {
    hide Run, NoDeadCodes, IssuesDeadCode;
    SameLength(states, events);
    if forall i :: 0 <= i < |states| ==> NoDeadCodes(states[i]) {
      forall i | 0 <= i < |events| && events[i].Other? ensures !IssuesDeadCode(states[i], states[i + 1]) {
        assert NoDeadCodes(states[i + 1]);
        StepKeepsCodesExactly(states, events, i);
      }
    }
    if forall i :: 0 <= i < |events| && events[i].Other? ==> !IssuesDeadCode(states[i], states[i + 1]) {
      forall i | 0 <= i < |states| ensures NoDeadCodes(states[i]) { CodesUpTo(states, events, i); }
    }
  }

  lemma {:induction false} CodesUpTo(states: seq<State>, events: seq<Event>, n: nat)
    requires Run(states, events) && NoDeadCodes(states[0]) && n < |states|
    requires forall i :: 0 <= i < |events| && i + 1 < |states| && events[i].Other? ==>
      !IssuesDeadCode(states[i], states[i + 1])
    ensures NoDeadCodes(states[n])
  {
    hide Run, NoDeadCodes, IssuesDeadCode;
    SameLength(states, events);
    if n > 0 {
      CodesUpTo(states, events, n - 1);
      StepKeepsCodesExactly(states, events, n - 1);
    }
  }

  /** The code k of account u is there. */
  ghost predicate HasCode(st: State, k: RowId, u: UserId) {
    k in st.authCodes && st.authCodes[k] == u
  }

  /** Nothing else the application does between i and j uses up the code or issues it again. */
  ghost predicate Unused(states: seq<State>, events: seq<Event>, i: nat, j: nat, k: RowId, u: UserId)
    requires |states| == |events| + 1 && i <= j < |states|
  {
    forall m :: i <= m < j && events[m].Other? ==> (HasCode(states[m + 1], k, u) <==> HasCode(states[m], k, u))
  }

  /** A code that nothing else uses up is lost exactly when its own account is merged away. */
  lemma {:induction false} CodeLostExactly(
    states: seq<State>, events: seq<Event>, i: nat, j: nat, k: RowId, u: UserId)
    requires Run(states, events) && i <= j < |states| && HasCode(states[i], k, u)
    requires Unused(states, events, i, j, k, u)
    ensures HasCode(states[j], k, u) <==> forall m, s :: i <= m < j ==> !MergesAt(states, events, m, s, u)
    decreases j
  {
    hide ValidState, Commits, AfterMerge, ReversalCommits, ReversedWith, OtherActivity, Confirmed;
    if i < j {
      var last := j - 1;
      CodeLostExactly(states, events, i, last, k, u);
      RunValid(states, events, last);
      if events[last].Other? {
        assert forall s :: !MergesAt(states, events, last, s, u);
      } else {
        CodeStep(states, events, last, k, u);
      }
    }
  }

  lemma CodeStep(states: seq<State>, events: seq<Event>, i: nat, k: RowId, u: UserId)
    requires Run(states, events) && i < |events| && ValidState(states[i]) && !events[i].Other?
    ensures HasCode(states[i + 1], k, u) <==>
            HasCode(states[i], k, u) && forall s :: !MergesAt(states, events, i, s, u)
  {
    hide ValidState, Commits, AfterMerge, ReversalCommits, ReversedWith, OtherActivity, Confirmed, Tombstone;
    match events[i]
    case Merging(call, look) =>
      if Commits(states[i], call) {
        MergeStep(states[i], call);
        if call.d == u { assert MergesAt(states, events, i, call.s, u); }
      }
    case Reversing(record, now, look) =>
      var snap := states[look].records[record].snapshot;
      if ReversalCommits(states[i], record, snap) { ReversalStep(states[i], record, snap, now); }
    case _ =>
  }
}
