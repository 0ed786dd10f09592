/**
 The database object: mergeAccounts and reverseMerge as transactions over its tables. The sub
 precompute is a separate step, so the tables may change between it and the transaction.
 */
module MergeDatabase {
  import opened Common
  import opened MergeModel
  import opened MergeOps
  import MergeLaws

  /** Rows of the collision-free tables the reversal pushes back to the donor. */
  ghost function RestoredOwners(c: Core, snap: Snapshot): nat {
    |snap.rows * c.rows.Keys| + |snap.tokens * c.tokens.Keys| + |snap.emails * c.emails.Keys|
    + |snap.authenticators * OwnedBy(c.authenticators, snap.survivor)|
  }

  ghost function RestoredCollisions(c: Core, snap: Snapshot): nat {
    |snap.redemptions * c.redemptions.Keys| + |snap.eligibilities * c.eligibilities.Keys|
    + |snap.overrides * ClientsOf(c.overrides, snap.survivor)| + |snap.grants * ClientsOf(c.grants, snap.survivor)|
  }

  ghost function RestoredRows(c: Core, snap: Snapshot): nat {
    RestoredOwners(c, snap) + RestoredCollisions(c, snap)
  }

  datatype ReverseResult = Refused(error: ReverseError) | Reversed(restoredRows: nat, recreatedDeleted: nat)

  // ---------------------------------------------------------------------------
  // The merge transaction on its own copy of the tables
  // ---------------------------------------------------------------------------

  /** Both accounts exist, the donor is live, and no token appeared at a new client since the precompute. */
  method CheckGuards(c: Core, s: UserId, d: UserId, subs: map<ClientId, Sub>) returns (r: Option<MergeError>)
    ensures r == if MergeFailure(c, s, d, subs) == Some(OverrideExists) then None else MergeFailure(c, s, d, subs)
    ensures r == None ==> s != d && s in c.users && d in c.users
  {
    hide TokenClients;
    if s == d { return Some(SameAccount); }
    if s !in c.users { return Some(SurvivorMissing); }
    if d !in c.users { return Some(DonorMissing); }
    if c.users[d].mergedInto.Some? { return Some(DonorTombstoned); }
    var current := TokenClients(c.tokens, d);
    if |current| != |subs.Keys| || exists cl :: cl in current && cl !in subs.Keys {
      assert current != subs.Keys;
      return Some(TokenDrift);
    }
    SubsetSameSize(current, subs.Keys);
    return None;
  }

  /** Split the precomputed clients into donor-only ones and ones the survivor has used. */
  method ClassifyClients(c: Core, s: UserId, subs: map<ClientId, Sub>)
    returns (created: map<ClientId, Sub>, stranded: map<ClientId, Sub>)
    ensures created == CreatedOverrides(c, s, subs)
    ensures stranded == StrandedClients(c, s, subs)
  {
    var used := TokenClients(c.tokens, s) + ClientsOf(c.overrides, s);
    created, stranded := map[], map[];
    var todo := subs.Keys;
    while todo != {}
      invariant todo <= subs.Keys
      invariant created.Keys == subs.Keys - todo - used
      invariant stranded.Keys == (subs.Keys - todo) * used
      invariant forall cl :: cl in created ==> created[cl] == subs[cl]
      invariant forall cl :: cl in stranded ==> stranded[cl] == subs[cl]
    {
      var cl :| cl in todo;
      todo := todo - {cl};
      if cl in used {
        stranded := stranded[cl := subs[cl]];
      } else {
        created := created[cl := subs[cl]];
      }
    }
  }

  /** Eligibility and InviteRedemption: delete the losers, then move what the donor has left. */
  method MergeClaims(c: Core, s: UserId, d: UserId)
    returns (e: ClaimTable<Eligible>, lostE: ClaimTable<Eligible>, moveE: set<RowId>,
             r: ClaimTable<int>, lostR: ClaimTable<int>, moveR: set<RowId>)
    requires s != d && UniqueSlots(c.eligibilities)
    ensures lostE == LostEligibilities(c.eligibilities, s, d) && moveE == OwnedBy(c.eligibilities, d) - lostE.Keys
    ensures lostR == LostRedemptions(c.redemptions, s, d) && moveR == OwnedBy(c.redemptions, d) - lostR.Keys
    ensures e == MergedClaims(c.eligibilities, lostE.Keys, s, d)
    ensures r == MergedClaims(c.redemptions, lostR.Keys, s, d)
  {
    hide UniqueSlots, MergedClaims, LostEligibilities, LostRedemptions, PointTo, OwnedBy;
    lostE, moveE := ResolveEligibilities(c.eligibilities, s, d);
    e := PointTo(c.eligibilities - lostE.Keys, moveE, s);
    MoveIsRePoint(c.eligibilities, lostE.Keys, s, d);
    lostR, moveR := ResolveRedemptions(c.redemptions, s, d);
    r := PointTo(c.redemptions - lostR.Keys, moveR, s);
    MoveIsRePoint(c.redemptions, lostR.Keys, s, d);
  }

  /** The donor's own overrides move, except where the survivor has one; then the donor-only
      clients get theirs, which fails on a client whose override was just moved. */
  method MergeOverrides(c: Core, s: UserId, d: UserId, subs: map<ClientId, Sub>, created: map<ClientId, Sub>)
    returns (ok: bool, o: PerClient<Sub>, moveO: set<ClientId>)
    requires s != d && created == CreatedOverrides(c, s, subs)
    ensures ok <==> !exists cl :: cl in CreatedOverrides(c, s, subs) && (d, cl) in c.overrides
    ensures ok ==> o == MergedOverrides(c, s, d, subs) && moveO == MovedOverrides(c, s, d)
  {
    hide Rekey, CreatedOverrides, ClientsOf, AddEntries;
    moveO := ClientsOf(c.overrides, d) - ClientsOf(c.overrides, s);
    var n;
    ok, o, n := MoveEach(c.overrides, moveO, d, s);
    assert ok;
    MoveAllPresent(c.overrides, moveO, d, s);
    ok, o := CreateOverrides(o, s, created);
    CreateFailsExactly(c, s, d, subs);
  }

  /** Re-point the addresses, then clear the primary flag of those that were primary on the donor. */
  method MergeEmails(t: Table<RowId, Email>, s: UserId, d: UserId)
    returns (r: Table<RowId, Email>, moved: set<RowId>, demoted: set<RowId>)
    ensures r == MergedEmails(t, s, d) && moved == OwnedBy(t, d) && demoted == PrimaryEmails(t, d)
  {
    moved, demoted := OwnedBy(t, d), PrimaryEmails(t, d);
    r := RePoint(t, d, s);
    r := map k | k in r :: if k in demoted then Owned(r[k].owner, r[k].data.(isPrimary := false)) else r[k];
  }

  method MergeTx(c: Core, s: UserId, d: UserId, subs: map<ClientId, Sub>)
    returns (error: Option<MergeError>, c': Core, snap: Snapshot)
    requires Constraints(c)
    ensures error == MergeFailure(c, s, d, subs)
    ensures error.None? ==> c' == MergedCore(c, s, d, subs) && snap == SnapshotOf(c, s, d, subs)
  {
    hide UniqueSlots, UniqueGrantIds, MergedClaims, MergedGrants, LostEligibilities, LostRedemptions, TokenClients,
      ClientsOf, Rekey, RePoint, OwnedBy, CreatedOverrides, StrandedClients, MovedGrants, GrantSplits, MergedEmails,
      PrimaryEmails, AddEntries, MergedOverrides, MovedOverrides;
    c', snap := c, Snapshot(s, d, {}, {}, {}, {}, {}, {}, {}, {}, map[], map[], map[], map[], map[], {}, false);
    error := CheckGuards(c, s, d, subs);
    if error.Some? { return; }
    var created, stranded := ClassifyClients(c, s, subs);
    var e, lostE, moveE, r, lostR, moveR := MergeClaims(c, s, d);
    var rows := RePointTables(c.rows, d, s);
    var authenticators := RePoint(c.authenticators, d, s);
    var tokens := RePoint(c.tokens, d, s);
    var grants, moveG, merged := MergeGrants(c.grants, s, d);
    var ok, overrides, moveO := MergeOverrides(c, s, d, subs, created);
    if !ok { error := Some(OverrideExists); return; }
    var emails, moveM, demoted := MergeEmails(c.emails, s, d);
    var users := c.users[s := c.users[s].(isBanned := c.users[s].isBanned || c.users[d].isBanned)];
    users := users[d := users[d].(mergedInto := Some(s))];
    c' := Core(users, rows, tokens, emails, authenticators, e, r, grants, overrides);
    snap := Snapshot(
      s, d, OwnedBy(c.rows, d), OwnedBy(c.tokens, d), moveM, OwnedBy(c.authenticators, d),
      moveE, moveR, moveG, moveO, lostE, lostR, merged, created, stranded, demoted, c.users[s].isBanned);
  }

  // ---------------------------------------------------------------------------
  // The reversal transaction on its own copy of the tables
  // ---------------------------------------------------------------------------

  /** Move the listed rows back, then recreate the deleted ones. */
  method ReverseClaims<V>(t: ClaimTable<V>, moved: set<RowId>, lost: ClaimTable<V>, d: UserId)
    returns (ok: bool, r: ClaimTable<V>, count: nat)
    ensures ok <==> CanReverseClaims(t, moved, lost, d)
    ensures ok ==> r == ReversedClaims(t, moved, lost, d) && count == |moved * t.Keys|
  {
    r, count := PointTo(t, moved, d), |moved * t.Keys|;
    ok := UniqueSlots(r);
    if ok {
      ok, r := Recreate(r, lost);
    }
  }

  /** One update per credential, guarded on the current owner. */
  method ReverseAuthenticators(t: Table<RowId, string>, ids: set<RowId>, s: UserId, d: UserId)
    returns (r: Table<RowId, string>, count: nat)
    requires s != d
    ensures r == PointFrom(t, ids, s, d) && count == |ids * OwnedBy(t, s)|
  {
    hide PointTo, OwnedBy, Done;
    r, count := t, 0;
    var todo := ids;
    ghost var done: set<RowId> := {};
    PointToTwice(t, {}, {}, d);
    NoneDone(ids, OwnedBy(t, s));
    while todo != {}
      invariant todo <= ids && done == Done(ids, todo, OwnedBy(t, s))
      invariant r == PointTo(t, done, d) && count == |done|
    {
      var k :| k in todo;
      OneMoreDone(ids, todo, k, OwnedBy(t, s));
      StillOwned(t, done, k, s, d);
      todo := todo - {k};
      if k in r && r[k].owner == Some(s) {
        PointToTwice(t, done, {k}, d);
        r := PointTo(r, {k}, d);
        count := count + 1;
        done := done + {k};
      }
    }
  }

  lemma StillOwned<V>(t: Table<RowId, V>, done: set<RowId>, k: RowId, s: UserId, d: UserId)
    requires s != d
    ensures k !in done ==> (k in PointTo(t, done, d) && PointTo(t, done, d)[k].owner == Some(s) <==> k in OwnedBy(t, s))
  {
  }

  lemma RekeyKeepsIds(g: PerClient<Grant>, cs: set<ClientId>, s: UserId, d: UserId)
    requires s != d && UniqueGrantIds(g) && CanRekey(g, cs, s, d)
    ensures UniqueGrantIds(RekeyPresent(g, cs, s, d))
  {
    hide Rekey, ClientsOf;
    var r := RekeyPresent(g, cs, s, d);
    forall k | k in r
      ensures var o := if k.0 == d && k.1 in cs && k !in g then (s, k.1) else k;
              o in g && r[k] == g[o]
    {
      assert k == (k.0, k.1);
    }
  }

  /** Donor-only grants go back; union-merged ones are split again. */
  method ReverseGrants(g: PerClient<Grant>, snap: Snapshot) returns (ok: bool, r: PerClient<Grant>, count: nat)
    requires UniqueGrantIds(g) && snap.survivor != snap.donor
    ensures ok <==> CanRekey(g, snap.grants, snap.survivor, snap.donor) &&
                    CanSplit(RekeyPresent(g, snap.grants, snap.survivor, snap.donor),
                             snap.survivor, snap.donor, snap.grantMerged)
    ensures ok ==> r == SplitGrants(RekeyPresent(g, snap.grants, snap.survivor, snap.donor),
                                    snap.survivor, snap.donor, snap.grantMerged)
    ensures ok ==> count == |snap.grants * ClientsOf(g, snap.survivor)|
  {
    hide UniqueGrantIds, CanRekey, RekeyPresent, CanSplit, SplitGrants, ClientsOf;
    ok, r, count := MoveEach(g, snap.grants, snap.survivor, snap.donor);
    if ok {
      RekeyKeepsIds(g, snap.grants, snap.survivor, snap.donor);
      ok, r := SplitEach(r, snap.survivor, snap.donor, snap.grantMerged);
    }
  }

  /** The donor's own overrides go back; the ones the merge created are deleted. */
  method ReverseOverrides(o: PerClient<Sub>, snap: Snapshot) returns (ok: bool, r: PerClient<Sub>, count: nat)
    requires snap.survivor != snap.donor
    ensures ok <==> CanRekey(o, snap.overrides, snap.survivor, snap.donor)
    ensures ok ==> r == DropEntries(RekeyPresent(o, snap.overrides, snap.survivor, snap.donor),
                                    snap.survivor, snap.overridesCreated)
    ensures ok ==> count == |snap.overrides * ClientsOf(o, snap.survivor)|
  {
    hide CanRekey, RekeyPresent, DropEntries, ClientsOf;
    ok, r, count := MoveEach(o, snap.overrides, snap.survivor, snap.donor);
    if ok {
      r := DeleteOverrides(r, snap.survivor, snap.overridesCreated);
    }
  }

  /** Restore the survivor's ban flag and lift the donor's tombstone. */
  method ReverseUsers(users: map<UserId, User>, snap: Snapshot) returns (r: map<UserId, User>)
    requires snap.survivor in users && snap.donor in users
    ensures r == ReversedUsers(users, snap)
  {
    r := users[snap.survivor := users[snap.survivor].(isBanned := snap.survivorWasBanned)];
    r := r[snap.donor := r[snap.donor].(mergedInto := None)];
  }

  /** The collision-free tables, by the exact key lists. */
  method ReverseOwners(c: Core, snap: Snapshot)
    returns (rows: Table<RowKey, string>, tokens: Table<RowId, Token>, emails: Table<RowId, Email>,
             authenticators: Table<RowId, string>, count: nat)
    requires snap.survivor != snap.donor
    ensures rows == PointTo(c.rows, snap.rows, snap.donor) && tokens == PointTo(c.tokens, snap.tokens, snap.donor)
    ensures emails == ReversedEmails(c.emails, snap)
    ensures authenticators == PointFrom(c.authenticators, snap.authenticators, snap.survivor, snap.donor)
    ensures count == RestoredOwners(c, snap)
  {
    hide PointTo, PointFrom, OwnedBy, ReversedEmails;
    var n;
    rows, count := PointTablesBack(c.rows, snap.rows, snap.donor);
    tokens := PointTo(c.tokens, snap.tokens, snap.donor);
    emails := ReversedEmails(c.emails, snap);
    authenticators, n := ReverseAuthenticators(c.authenticators, snap.authenticators, snap.survivor, snap.donor);
    count := count + |snap.tokens * c.tokens.Keys| + |snap.emails * c.emails.Keys| + n;
  }

  /** The tables with uniqueness constraints: any clash aborts the transaction. */
  method ReverseCollisions(c: Core, snap: Snapshot)
    returns (ok: bool, e: ClaimTable<Eligible>, r: ClaimTable<int>, grants: PerClient<Grant>, overrides: PerClient<Sub>,
             count: nat)
    requires UniqueGrantIds(c.grants) && snap.survivor != snap.donor && StillMerged(c, snap) && snap.survivor in c.users
    ensures ok <==> CanReverse(c, snap)
    ensures ok ==> e == ReversedCore(c, snap).eligibilities && r == ReversedCore(c, snap).redemptions
    ensures ok ==> grants == ReversedCore(c, snap).grants && overrides == ReversedCore(c, snap).overrides
    ensures ok ==> count == RestoredCollisions(c, snap)
  {
    hide UniqueGrantIds, CanRekey, RekeyPresent, CanSplit, SplitGrants, DropEntries, PointTo, PointFrom, ClientsOf,
      CanReverseClaims, ReversedClaims, ReversedEmails, ReversedUsers;
    var okR, nR, okE, nE, okO, nO, okG, nG;
    okR, r, nR := ReverseClaims(c.redemptions, snap.redemptions, snap.redemptionDeleted, snap.donor);
    okE, e, nE := ReverseClaims(c.eligibilities, snap.eligibilities, snap.eligibilityDeleted, snap.donor);
    okO, overrides, nO := ReverseOverrides(c.overrides, snap);
    okG, grants, nG := ReverseGrants(c.grants, snap);
    ok, count := okR && okE && okO && okG, nR + nE + nO + nG;
  }

  method ReverseTx(c: Core, snap: Snapshot) returns (ok: bool, c': Core, restored: nat)
    requires UniqueGrantIds(c.grants) && snap.survivor != snap.donor && StillMerged(c, snap)
    ensures ok <==> CanReverse(c, snap)
    ensures ok ==> c' == ReversedCore(c, snap) && restored == RestoredRows(c, snap)
  {
    hide UniqueGrantIds, CanRekey, RekeyPresent, CanSplit, SplitGrants, DropEntries, PointTo, PointFrom, OwnedBy,
      ClientsOf, CanReverseClaims, ReversedClaims, ReversedEmails, ReversedUsers, RestoredOwners, RestoredCollisions;
    c', restored := c, 0;
    if snap.survivor !in c.users { return false, c', restored; }
    var rows, tokens, emails, authenticators, nOwners := ReverseOwners(c, snap);
    var e, r, grants, overrides, nCollisions;
    ok, e, r, grants, overrides, nCollisions := ReverseCollisions(c, snap);
    if ok {
      var users := ReverseUsers(c.users, snap);
      c' := Core(users, rows, tokens, emails, authenticators, e, r, grants, overrides);
      restored := nOwners + nCollisions;
    }
  }

  class Database {
    const derive: (UserId, ClientId) -> Sub

    var tables: Core
    var generation: map<UserId, nat>
    var authCodes: map<RowId, UserId>
    var records: map<RowId, MergeRecord>

    ghost function View(): State
      reads this
    {
      State(tables, generation, authCodes, records)
    }

    ghost predicate Valid()
      reads this
    {
      ValidState(View())
    }

    constructor (derive: (UserId, ClientId) -> Sub)
      ensures Valid() && this.derive == derive
      ensures View() == State(Core(map[], map[], map[], map[], map[], map[], map[], map[], map[]), map[], map[], map[])
    {
      this.derive := derive;
      tables := Core(map[], map[], map[], map[], map[], map[], map[], map[], map[]);
      generation, authCodes, records := map[], map[], map[];
    }

    /** The donor's sub at every client it holds a token for, derived before the transaction. */
    method PrecomputeSubs(d: UserId) returns (subs: map<ClientId, Sub>)
      ensures subs.Keys == TokenClients(tables.tokens, d)
      ensures MergeLaws.DerivedFor(subs, derive, d)
    {
      subs := map[];
      var todo := TokenClients(tables.tokens, d);
      while todo != {}
        invariant todo <= TokenClients(tables.tokens, d)
        invariant subs.Keys == TokenClients(tables.tokens, d) - todo
        invariant MergeLaws.DerivedFor(subs, derive, d)
      {
        var c :| c in todo;
        todo := todo - {c};
        subs := subs[c := derive(d, c)];
      }
    }

    method MergeAccounts(s: UserId, d: UserId, subs: map<ClientId, Sub>, now: int, record: RowId)
      returns (error: Option<MergeError>)
      requires Valid() && record !in records
      modifies this
      ensures Valid()
      ensures error == MergeFailure(old(tables), s, d, subs)
      ensures error.Some? ==> View() == old(View())
      ensures error.None? ==> View() == MergedState(old(View()), s, d, subs, now, record)
    {
      hide Constraints, MergedCore, SnapshotOf, MergeFailure, ValidState;
      ValidFacts(View());
      var after, snap;
      error, after, snap := MergeTx(tables, s, d, subs);
      if error.Some? { return; }
      GuardsOf(tables, s, d, subs);
      MergeLaws.MergedStateValid(View(), s, d, subs, now, record);
      tables := after;
      generation := generation[s := generation[s] + 1][d := generation[d] + 1];
      authCodes := map k | k in authCodes && authCodes[k] != d :: authCodes[k];
      records := records[record := MergeRecord(snap, now + MERGE_REVERSAL_MS, None)];
    }

    /** The look: what reverseMerge reads of the record, outside its transaction. */
    method ReadRecord(record: RowId, now: int) returns (error: Option<ReverseError>, snap: Option<Snapshot>)
      requires Valid()
      ensures error == LookFailure(View(), record, now)
      ensures error == None ==> snap == Some(records[record].snapshot) && snap.value.survivor != snap.value.donor
    {
      hide Constraints;
      snap := None;
      if record !in records { return Some(RecordMissing), None; }
      if records[record].reversedAt != None { return Some(AlreadyReversed), None; }
      if records[record].reversibleUntil <= now { return Some(WindowPassed), None; }
      return None, Some(records[record].snapshot);
    }

    /** The transaction, for a snapshot read at any earlier time; it does not look at the record again. */
    method RunReversal(record: RowId, snap: Snapshot, now: int) returns (result: ReverseResult)
      requires Valid() && record in records && snap.survivor != snap.donor
      modifies this
      ensures Valid()
      ensures TxFailure(old(tables), snap).Some? ==>
        result == Refused(TxFailure(old(tables), snap).value) && View() == old(View())
      ensures TxFailure(old(tables), snap).None? ==>
        && View() == ReversedWith(old(View()), record, snap, now)
        && result == Reversed(
             RestoredRows(old(tables), snap),
             |snap.eligibilityDeleted| + |snap.redemptionDeleted| + |snap.grantMerged|)
    {
      hide CanReverse, ReversedCore, Constraints, RestoredRows, ValidState;
      ValidFacts(View());
      if !StillMerged(tables, snap) { return Refused(NoLongerMerged); }
      var ok, after, restored := ReverseTx(tables, snap);
      if !ok { return Refused(Conflict); }
      ReversalGuards(tables, snap);
      MergeLaws.ReversedStateValid(View(), record, snap, now);
      tables := after;
      var s, d := snap.survivor, snap.donor;
      generation := generation[s := generation[s] + 1][d := generation[d] + 1];
      records := records[record := records[record].(reversedAt := Some(now))];
      return Reversed(restored, |snap.eligibilityDeleted| + |snap.redemptionDeleted| + |snap.grantMerged|);
    }

    /** A reversal that nothing interrupts. */
    method ReverseMerge(record: RowId, now: int) returns (result: ReverseResult)
      requires Valid()
      modifies this
      ensures Valid()
      ensures ReverseFailure(old(View()), record, now).Some? ==>
        result == Refused(ReverseFailure(old(View()), record, now).value) && View() == old(View())
      ensures ReverseFailure(old(View()), record, now).None? ==>
        View() == ReversedState(old(View()), record, now) &&
        var snap := old(records)[record].snapshot;
        result == Reversed(
          RestoredRows(old(tables), snap),
          |snap.eligibilityDeleted| + |snap.redemptionDeleted| + |snap.grantMerged|)
    {
      hide CanReverse, ReversedCore, Constraints, RestoredRows, ValidState;
      var error, snap := ReadRecord(record, now);
      if error.Some? { return Refused(error.value); }
      result := RunReversal(record, snap.value, now);
    }
  }

  lemma ValidFacts(st: State)
    requires ValidState(st)
    ensures Constraints(st.core) && UniqueGrantIds(st.core.grants)
    ensures st.generation.Keys == st.core.users.Keys
    ensures forall r :: r in st.records ==>
      st.records[r].snapshot.survivor != st.records[r].snapshot.donor
  {
  }

  lemma ReversalGuards(c: Core, snap: Snapshot)
    requires snap.survivor != snap.donor && CanReverse(c, snap)
    ensures snap.survivor in c.users && snap.donor in c.users
    ensures ReversedCore(c, snap).users.Keys == c.users.Keys
  {
    hide CanReverseClaims, CanRekey, CanSplit, SplitGrants, RekeyPresent;
  }

  lemma GuardsOf(c: Core, s: UserId, d: UserId, subs: map<ClientId, Sub>)
    requires CanMerge(c, s, d, subs)
    ensures s != d && s in c.users && d in c.users
    ensures MergedCore(c, s, d, subs).users.Keys == c.users.Keys
    ensures SnapshotOf(c, s, d, subs).survivor == s && SnapshotOf(c, s, d, subs).donor == d
  {
    hide MergedClaims, MergedGrants, LostEligibilities, LostRedemptions, MergedOverrides, GrantSplits;
  }

  lemma MoveIsRePoint<V>(t: ClaimTable<V>, lost: set<RowId>, s: UserId, d: UserId)
    ensures PointTo(t - lost, OwnedBy(t, d) - lost, s) == MergedClaims(t, lost, s, d)
  {
  }

  lemma MoveAllPresent<X>(m: PerClient<X>, cs: set<ClientId>, from: UserId, to: UserId)
    requires from != to && cs <= ClientsOf(m, from)
    ensures RekeyPresent(m, cs, from, to) == Rekey(m, cs, from, to)
  {
    assert cs * ClientsOf(m, from) == cs;
  }

  /** The create statements fail exactly on a client whose donor override was just moved. */
  lemma CreateFailsExactly(c: Core, s: UserId, d: UserId, subs: map<ClientId, Sub>)
    requires s != d
    ensures (exists cl :: cl in CreatedOverrides(c, s, subs) && (d, cl) in c.overrides) <==>
            !(forall cl :: cl in CreatedOverrides(c, s, subs) ==>
                (s, cl) !in Rekey(c.overrides, MovedOverrides(c, s, d), d, s))
  {
    hide TokenClients, Rekey;
  }

  /** Right after a merge, the reversal reports one restored row for each the merge has moved. */
  lemma ReportsEveryMove(c: Core, s: UserId, d: UserId, subs: map<ClientId, Sub>)
    requires CanMerge(c, s, d, subs)
    ensures var snap := SnapshotOf(c, s, d, subs);
            RestoredRows(MergedCore(c, s, d, subs), snap) ==
            |OwnedBy(c.rows, d)| + |OwnedBy(c.tokens, d)| + |OwnedBy(c.emails, d)| + |OwnedBy(c.authenticators, d)| +
            |OwnedBy(c.eligibilities, d) - snap.eligibilityDeleted.Keys| +
            |OwnedBy(c.redemptions, d) - snap.redemptionDeleted.Keys| +
            |ClientsOf(c.overrides, d) - ClientsOf(c.overrides, s)| + |ClientsOf(c.grants, d) - ClientsOf(c.grants, s)|
  {
    hide LostEligibilities, LostRedemptions, GrantSplits, MergedUsers, CreatedOverrides, RePoint, MergedEmails,
      MergedClaims, MergedGrants, MergedOverrides, OwnedBy, ClientsOf, TokenClients, PrimaryEmails, StrandedClients;
    MovedRowsThere(c.rows, s, d);
    MovedRowsThere(c.tokens, s, d);
    MovedRowsThere(c.authenticators, s, d);
    MovedMailThere(c.emails, s, d);
    MovedClaimsThere(c.eligibilities, LostEligibilities(c.eligibilities, s, d).Keys, s, d);
    MovedClaimsThere(c.redemptions, LostRedemptions(c.redemptions, s, d).Keys, s, d);
    MovedOverridesThere(c, s, d, subs);
    MovedGrantsThere(c.grants, s, d);
  }

  lemma MovedRowsThere<K, V>(t: Table<K, V>, s: UserId, d: UserId)
    ensures OwnedBy(t, d) * RePoint(t, d, s).Keys == OwnedBy(t, d)
    ensures OwnedBy(t, d) * OwnedBy(RePoint(t, d, s), s) == OwnedBy(t, d)
  {
  }

  lemma MovedMailThere(t: Table<RowId, Email>, s: UserId, d: UserId)
    ensures OwnedBy(t, d) * MergedEmails(t, s, d).Keys == OwnedBy(t, d)
  {
  }

  lemma MovedClaimsThere<V>(t: ClaimTable<V>, lost: set<RowId>, s: UserId, d: UserId)
    ensures (OwnedBy(t, d) - lost) * MergedClaims(t, lost, s, d).Keys == OwnedBy(t, d) - lost
  {
  }

  lemma MovedOverridesThere(c: Core, s: UserId, d: UserId, subs: map<ClientId, Sub>)
    requires s != d
    ensures MovedOverrides(c, s, d) * ClientsOf(MergedOverrides(c, s, d, subs), s) == MovedOverrides(c, s, d)
  {
    hide Rekey, AddEntries, CreatedOverrides;
  }

  lemma MovedGrantsThere(g: PerClient<Grant>, s: UserId, d: UserId)
    requires s != d
    ensures MovedGrants(g, s, d) * ClientsOf(MergedGrants(g, s, d), s) == MovedGrants(g, s, d)
  {
    hide Rekey;
  }
}
