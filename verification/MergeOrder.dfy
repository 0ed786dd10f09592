/**
 Two merges, whichever accounts they involve, reversed in the order they were made. The first
 reversal then acts on tables the second merge has changed, and the second one on tables the first
 reversal has changed. Whether that restores the tables can be read off the two snapshots.
 */
module MergeOrder {
  import opened Common
  import opened MergeModel
  import opened MergeLaws

  // ---------------------------------------------------------------------------
  // Id-keyed tables: a absorbs b, then s absorbs d
  // ---------------------------------------------------------------------------

  /** Only where the second merge moved the first survivor are rows misplaced: those that had been b's. */
  lemma TableInOrder<K, V>(t: Table<K, V>, a: UserId, b: UserId, s: UserId, d: UserId)
    requires a != b && s != d && d != b
    ensures var t1 := RePoint(t, b, a); var t2 := RePoint(t1, d, s);
            var t3 := PointTo(t2, OwnedBy(t, b), b);
            PointTo(t3, OwnedBy(t1, d), d) == t <==> (d == a ==> OwnedBy(t, b) == {})
  {
    var t1 := RePoint(t, b, a);
    var t4 := PointTo(PointTo(RePoint(t1, d, s), OwnedBy(t, b), b), OwnedBy(t1, d), d);
    assert t4.Keys == t.Keys;
    if d == a && OwnedBy(t, b) != {} {
      var k :| k in OwnedBy(t, b);
      assert t4[k].owner == Some(a);
    } else {
      assert forall k :: k in t ==> t4[k] == t[k];
    }
  }

  /** The guard on the current owner makes no difference here. */
  lemma GuardedInOrder<K, V>(t: Table<K, V>, a: UserId, b: UserId, s: UserId, d: UserId)
    requires a != b && s != d && d != b
    ensures var t1 := RePoint(t, b, a); var t2 := RePoint(t1, d, s);
            var t3 := PointFrom(t2, OwnedBy(t, b), a, b);
            PointFrom(t3, OwnedBy(t1, d), s, d) == t <==> (d == a ==> OwnedBy(t, b) == {})
  {
    var t1 := RePoint(t, b, a);
    var t4 := PointFrom(PointFrom(RePoint(t1, d, s), OwnedBy(t, b), a, b), OwnedBy(t1, d), s, d);
    assert t4.Keys == t.Keys;
    if d == a && OwnedBy(t, b) != {} {
      var k :| k in OwnedBy(t, b);
      assert t4[k].owner == Some(a);
    } else {
      assert forall k :: k in t ==> t4[k] == t[k];
    }
  }

  /** Primary flags come back in either order; owners as in the other tables. */
  lemma EmailsInOrder(t: Table<RowId, Email>, a: UserId, b: UserId, s: UserId, d: UserId, one: Snapshot, two: Snapshot)
    requires a != b && s != d && d != b && one.donor == b && two.donor == d
    requires one.emails == OwnedBy(t, b) && one.demotedPrimary == PrimaryEmails(t, b)
    requires var t1 := MergedEmails(t, a, b);
             two.emails == OwnedBy(t1, d) && two.demotedPrimary == PrimaryEmails(t1, d)
    ensures var t2 := MergedEmails(MergedEmails(t, a, b), s, d);
            ReversedEmails(ReversedEmails(t2, one), two) == t <==> (d == a ==> OwnedBy(t, b) == {})
  {
    var t2 := MergedEmails(MergedEmails(t, a, b), s, d);
    var t4 := ReversedEmails(ReversedEmails(t2, one), two);
    assert t4.Keys == t.Keys;
    if d == a && OwnedBy(t, b) != {} {
      var k :| k in OwnedBy(t, b);
      assert t4[k].owner == Some(a);
    } else {
      assert forall k :: k in t ==> t4[k] == t[k];
    }
  }

  /** Where a row of a table with a per-user unique ends up. A row that the first merge moved and the
      second one deleted comes back to the wrong owner too. */
  lemma ClaimInOrder<V>(
    t: ClaimTable<V>, one: ClaimTable<V>, two: ClaimTable<V>, a: UserId, b: UserId, s: UserId, d: UserId, k: RowId)
    requires a != b && s != d && d != b && k in t
    requires one.Keys <= t.Keys && (forall j :: j in one ==> one[j] == t[j])
    requires var t1 := MergedClaims(t, one.Keys, a, b);
             two.Keys <= t1.Keys && (forall j :: j in two ==> two[j] == t1[j])
    ensures var t1 := MergedClaims(t, one.Keys, a, b); var t2 := MergedClaims(t1, two.Keys, s, d);
            var moved, moved' := OwnedBy(t, b) - one.Keys, OwnedBy(t1, d) - two.Keys;
            var t4 := ReversedClaims(ReversedClaims(t2, moved, one, b), moved', two, d);
            && t4.Keys == t.Keys
            && t4[k] == if k in moved && (k in two || d == a) then Owned(Some(a), t[k].data) else t[k]
  {
  }

  lemma KeysInOrder<V>(
    t: ClaimTable<V>, one: ClaimTable<V>, two: ClaimTable<V>, a: UserId, b: UserId, s: UserId, d: UserId)
    requires one.Keys <= t.Keys && two.Keys <= MergedClaims(t, one.Keys, a, b).Keys
    ensures var t1 := MergedClaims(t, one.Keys, a, b); var t2 := MergedClaims(t1, two.Keys, s, d);
            var moved, moved' := OwnedBy(t, b) - one.Keys, OwnedBy(t1, d) - two.Keys;
            ReversedClaims(ReversedClaims(t2, moved, one, b), moved', two, d).Keys == t.Keys
  {
  }

  lemma ClaimsInOrder<V>(
    t: ClaimTable<V>, one: ClaimTable<V>, two: ClaimTable<V>, a: UserId, b: UserId, s: UserId, d: UserId)
    requires a != b && s != d && d != b
    requires one.Keys <= t.Keys && (forall k :: k in one ==> one[k] == t[k])
    requires var t1 := MergedClaims(t, one.Keys, a, b);
             two.Keys <= t1.Keys && (forall k :: k in two ==> two[k] == t1[k])
    ensures var t1 := MergedClaims(t, one.Keys, a, b); var t2 := MergedClaims(t1, two.Keys, s, d);
            var moved, moved' := OwnedBy(t, b) - one.Keys, OwnedBy(t1, d) - two.Keys;
            ReversedClaims(ReversedClaims(t2, moved, one, b), moved', two, d) == t
            <==> moved !! two.Keys && (d == a ==> moved == {})
  {
    hide MergedClaims, ReversedClaims;
    var t1 := MergedClaims(t, one.Keys, a, b);
    var t2 := MergedClaims(t1, two.Keys, s, d);
    var moved, moved' := OwnedBy(t, b) - one.Keys, OwnedBy(t1, d) - two.Keys;
    var t4 := ReversedClaims(ReversedClaims(t2, moved, one, b), moved', two, d);
    KeysInOrder(t, one, two, a, b, s, d);
    forall k | k in t
      ensures t4[k] == if k in moved && (k in two || d == a) then Owned(Some(a), t[k].data) else t[k]
    {
      ClaimInOrder(t, one, two, a, b, s, d, k);
    }
  }

  lemma MergedUserAt(users: map<UserId, User>, s: UserId, d: UserId, u: UserId)
    requires s in users && d in users && s != d && u in users
    ensures MergedUsers(users, s, d).Keys == users.Keys
    ensures MergedUsers(users, s, d)[u] ==
            users[u].(isBanned := users[u].isBanned || (u == s && users[d].isBanned),
                      mergedInto := if u == d then Some(s) else users[u].mergedInto)
  {
  }

  lemma ReversedUserAt(users: map<UserId, User>, snap: Snapshot, u: UserId)
    requires snap.survivor in users && snap.donor in users && snap.survivor != snap.donor && u in users
    ensures ReversedUsers(users, snap).Keys == users.Keys
    ensures ReversedUsers(users, snap)[u] ==
            users[u].(isBanned := if u == snap.survivor then snap.survivorWasBanned else users[u].isBanned,
                      mergedInto := if u == snap.donor then None else users[u].mergedInto)
  {
  }

  /** Tombstones always go. Only a ban can stay, on a survivor of both merges. */
  lemma UserInOrder(
    users: map<UserId, User>, a: UserId, b: UserId, s: UserId, d: UserId, one: Snapshot, two: Snapshot, u: UserId)
    requires a in users && b in users && s in users && d in users && a != b && s != d && d != b && u in users
    requires users[b].mergedInto == None && users[d].mergedInto == None
    requires one.survivor == a && one.donor == b && one.survivorWasBanned == users[a].isBanned
    requires two.survivor == s && two.donor == d && two.survivorWasBanned == MergedUsers(users, a, b)[s].isBanned
    ensures var after := MergedUsers(MergedUsers(users, a, b), s, d);
            && after.Keys == users.Keys && ReversedUsers(after, one).Keys == users.Keys
            && var back := ReversedUsers(ReversedUsers(after, one), two);
            && back.Keys == users.Keys
            && back[u] == if u == a == s then users[u].(isBanned := two.survivorWasBanned) else users[u]
  {
    hide MergedUsers, ReversedUsers;
    var u1 := MergedUsers(users, a, b);
    MergedUserAt(users, a, b, u);
    MergedUserAt(users, a, b, s);
    var u2 := MergedUsers(u1, s, d);
    MergedUserAt(u1, s, d, u);
    ReversedUserAt(u2, one, u);
    ReversedUserAt(ReversedUsers(u2, one), two, u);
  }

  lemma UsersInOrder(users: map<UserId, User>, a: UserId, b: UserId, s: UserId, d: UserId, one: Snapshot, two: Snapshot)
    requires a in users && b in users && s in users && d in users && a != b && s != d && d != b
    requires users[b].mergedInto == None && users[d].mergedInto == None
    requires one.survivor == a && one.donor == b && one.survivorWasBanned == users[a].isBanned
    requires two.survivor == s && two.donor == d && two.survivorWasBanned == MergedUsers(users, a, b)[s].isBanned
    ensures var after := MergedUsers(MergedUsers(users, a, b), s, d);
            && after.Keys == users.Keys && ReversedUsers(after, one).Keys == users.Keys
            && (ReversedUsers(ReversedUsers(after, one), two) == users
                <==> (s == a ==> two.survivorWasBanned == one.survivorWasBanned))
  {
    hide MergedUsers, ReversedUsers;
    UserInOrder(users, a, b, s, d, one, two, a);
    MergedUserAt(users, a, b, a);
    var after := MergedUsers(MergedUsers(users, a, b), s, d);
    var back := ReversedUsers(ReversedUsers(after, one), two);
    forall u | u in users
      ensures back[u] == if u == a == s then users[u].(isBanned := two.survivorWasBanned) else users[u]
    {
      UserInOrder(users, a, b, s, d, one, two, u);
    }
  }

  // ---------------------------------------------------------------------------
  // Tables keyed by (user, client), one client at a time
  // ---------------------------------------------------------------------------

  /** What a merge recorded for a client: nothing, a moved grant, or the two sides of a union. */
  datatype Cell = Untouched | Moved | Split(prev: GrantFields, deleted: Grant)

  ghost function CellOf(mine: Option<Grant>, theirs: Option<Grant>): Cell {
    if theirs == None then Untouched else if mine == None then Moved else Split(mine.value.fields, theirs.value)
  }

  ghost function SurvivorBack(cell: Cell, mine: Option<Grant>): Option<Grant> {
    if cell.Moved? then None
    else if cell.Split? && mine.Some? then Some(Grant(mine.value.id, cell.prev)) else mine
  }

  ghost function DonorBack(cell: Cell, mine: Option<Grant>, theirs: Option<Grant>): Option<Grant> {
    if cell.Split? then Some(cell.deleted) else if cell.Moved? && mine.Some? then mine else theirs
  }

  /** The donor's place is free when its grant is to come back. */
  ghost predicate PlaceFree(cell: Cell, mine: Option<Grant>, theirs: Option<Grant>) {
    (cell.Split? ==> theirs == None) && (cell.Moved? && mine.Some? ==> theirs == None)
  }

  /** The union added nothing. */
  ghost predicate Idle(cell: Cell) {
    cell.Split? ==> UnionFields(cell.prev, cell.deleted.fields) == cell.prev
  }

  /** b into a, then a into another account z. */
  lemma NestedCell(A: Option<Grant>, B: Option<Grant>, Z: Option<Grant>)
    ensures var one, two := CellOf(A, B), CellOf(Z, Joined(A, B));
            var z := Joined(Z, Joined(A, B));
            (DonorBack(two, z, SurvivorBack(one, None)) == A && DonorBack(one, None, None) == B &&
             SurvivorBack(two, z) == Z)
            <==> !one.Moved? && Idle(one)
  {
    hide UnionFields;
  }

  /** b into a, then a into b. */
  lemma MutualCell(A: Option<Grant>, B: Option<Grant>)
    requires PlaceFree(CellOf(A, B), None, Joined(A, B))
    ensures var one, two := CellOf(A, B), CellOf(None, Joined(A, B));
            var b := DonorBack(one, None, Joined(A, B));
            (DonorBack(two, b, SurvivorBack(one, None)) == A && SurvivorBack(two, b) == B)
            <==> !one.Moved? && Idle(one)
  {
    hide UnionFields;
  }

  /** b into a, then another account e into a. */
  lemma SiblingCell(A: Option<Grant>, B: Option<Grant>, E: Option<Grant>)
    ensures var one, two := CellOf(A, B), CellOf(Joined(A, B), E);
            var a := Joined(Joined(A, B), E);
            var a3 := SurvivorBack(one, a);
            (SurvivorBack(two, a3) == A && DonorBack(one, a, None) == B && DonorBack(two, a3, None) == E)
            <==> (two.Split? ==> (one.Split? ==> two.prev == one.prev) && (one.Moved? ==> Idle(two)))
  {
    hide UnionFields;
  }

  /** b into a, then another account e into the tombstone b. */
  lemma TombstoneCell(A: Option<Grant>, B: Option<Grant>, E: Option<Grant>)
    requires PlaceFree(CellOf(A, B), Joined(A, B), E)
    ensures var one, two := CellOf(A, B), CellOf(None, E);
            var b3 := DonorBack(one, Joined(A, B), E);
            SurvivorBack(one, Joined(A, B)) == A && SurvivorBack(two, b3) == B && DonorBack(two, b3, None) == E
  {
    hide UnionFields;
  }

  lemma ApartCell(A: Option<Grant>, B: Option<Grant>)
    ensures var one := CellOf(A, B);
            SurvivorBack(one, Joined(A, B)) == A && DonorBack(one, Joined(A, B), None) == B
  {
    hide UnionFields;
  }

  // The same on the tables

  /** A reversal at one client. */
  ghost predicate Reverses(
    g: PerClient<Grant>, back: PerClient<Grant>, cell: Cell, s: UserId, d: UserId, cl: ClientId) {
    forall u :: Entry(back, u, cl) ==
      if u == d then DonorBack(cell, Entry(g, s, cl), Entry(g, d, cl))
      else if u == s then SurvivorBack(cell, Entry(g, s, cl)) else Entry(g, u, cl)
  }

  ghost function CellIn(snap: Snapshot, cl: ClientId): Cell {
    if cl in snap.grantMerged then Split(snap.grantMerged[cl].survivorPrev, snap.grantMerged[cl].donorDeleted)
    else if cl in snap.grants then Moved else Untouched
  }

  lemma CellRecorded(g: PerClient<Grant>, snap: Snapshot, cl: ClientId)
    requires snap.grants == MovedGrants(g, snap.survivor, snap.donor)
    requires snap.grantMerged == GrantSplits(g, snap.survivor, snap.donor)
    ensures CellIn(snap, cl) == CellOf(Entry(g, snap.survivor, cl), Entry(g, snap.donor, cl))
    ensures cl in snap.grantMerged ==> cl !in snap.grants
  {
  }

  ghost function GrantsBack(g: PerClient<Grant>, snap: Snapshot): PerClient<Grant>
    requires snap.survivor != snap.donor
  {
    SplitGrants(RekeyPresent(g, snap.grants, snap.survivor, snap.donor), snap.survivor, snap.donor, snap.grantMerged)
  }

  lemma ReversedGrantAt(g: PerClient<Grant>, snap: Snapshot, cl: ClientId)
    requires snap.survivor != snap.donor && (cl in snap.grantMerged ==> cl !in snap.grants)
    ensures Reverses(g, GrantsBack(g, snap), CellIn(snap, cl), snap.survivor, snap.donor, cl)
  {
    hide Rekey;
    var h := RekeyPresent(g, snap.grants, snap.survivor, snap.donor);
    forall u ensures (u, cl) in h.Keys + Pairs(snap.donor, snap.grantMerged.Keys) <==>
                     (u, cl) in h || (u == snap.donor && cl in snap.grantMerged) { }
  }

  lemma PlaceIsFree(g: PerClient<Grant>, snap: Snapshot, cl: ClientId)
    requires snap.survivor != snap.donor && CanRekey(g, snap.grants, snap.survivor, snap.donor)
    requires CanSplit(RekeyPresent(g, snap.grants, snap.survivor, snap.donor), snap.survivor, snap.donor,
      snap.grantMerged)
    ensures PlaceFree(CellIn(snap, cl), Entry(g, snap.survivor, cl), Entry(g, snap.donor, cl))
  {
    hide UniqueGrantIds, SplitGrants;
    if cl in snap.grantMerged {
      assert (snap.donor, cl) !in RekeyPresent(g, snap.grants, snap.survivor, snap.donor);
    }
  }

  /** What must hold at a client for the grants to come back. */
  ghost predicate GrantSettled(one: Snapshot, two: Snapshot, cl: ClientId) {
    var x, y := CellIn(one, cl), CellIn(two, cl);
    && (two.donor == one.survivor ==> !x.Moved? && Idle(x))
    && (two.survivor == one.survivor && y.Split? ==> (x.Split? ==> y.prev == x.prev) && (x.Moved? ==> Idle(y)))
  }

  lemma ClientInOrder(
    g: PerClient<Grant>, g1: PerClient<Grant>, g2: PerClient<Grant>, g3: PerClient<Grant>, g4: PerClient<Grant>,
    a: UserId, b: UserId, s: UserId, d: UserId, cl: ClientId)
    requires a != b && s != d && d != b && Merges(g, g1, a, b, cl) && Merges(g1, g2, s, d, cl)
    requires var one := CellOf(Entry(g, a, cl), Entry(g, b, cl));
             PlaceFree(one, Entry(g2, a, cl), Entry(g2, b, cl)) && Reverses(g2, g3, one, a, b, cl)
    requires Reverses(g3, g4, CellOf(Entry(g1, s, cl), Entry(g1, d, cl)), s, d, cl)
    ensures var x, y := CellOf(Entry(g, a, cl), Entry(g, b, cl)), CellOf(Entry(g1, s, cl), Entry(g1, d, cl));
            (forall u :: Entry(g4, u, cl) == Entry(g, u, cl)) <==>
            && (d == a ==> !x.Moved? && Idle(x))
            && (s == a && y.Split? ==> (x.Split? ==> y.prev == x.prev) && (x.Moved? ==> Idle(y)))
  {
    hide Entry, CellOf, Joined, DonorBack, SurvivorBack, Idle, PlaceFree;
    var A, B, S, D := Entry(g, a, cl), Entry(g, b, cl), Entry(g, s, cl), Entry(g, d, cl);
    OthersStay(g, g1, g2, g3, g4, a, b, s, d, cl);
    assert Entry(g1, a, cl) == Joined(A, B) && Entry(g1, b, cl) == None;
    if d == a && s == b {
      assert Entry(g2, b, cl) == Joined(None, Joined(A, B)) && Entry(g2, a, cl) == None;
      JoinedNone(Joined(A, B));
      MutualCell(A, B);
    } else if d == a {
      assert Entry(g1, s, cl) == S;
      NestedCell(A, B, S);
    } else if s == a {
      assert Entry(g1, d, cl) == D;
      SiblingCell(A, B, D);
    } else if s == b {
      assert Entry(g1, d, cl) == D;
      JoinedNone(D);
      TombstoneCell(A, B, D);
    } else {
      ApartCell(A, B);
      ApartCell(S, D);
    }
  }

  lemma JoinedNone(x: Option<Grant>)
    ensures Joined(None, x) == x
  {
  }

  lemma OthersStay(
    g: PerClient<Grant>, g1: PerClient<Grant>, g2: PerClient<Grant>, g3: PerClient<Grant>, g4: PerClient<Grant>,
    a: UserId, b: UserId, s: UserId, d: UserId, cl: ClientId)
    requires Merges(g, g1, a, b, cl) && Merges(g1, g2, s, d, cl)
    requires Reverses(g2, g3, CellOf(Entry(g, a, cl), Entry(g, b, cl)), a, b, cl)
    requires Reverses(g3, g4, CellOf(Entry(g1, s, cl), Entry(g1, d, cl)), s, d, cl)
    ensures (forall u :: Entry(g4, u, cl) == Entry(g, u, cl)) <==>
            && Entry(g4, a, cl) == Entry(g, a, cl) && Entry(g4, b, cl) == Entry(g, b, cl)
            && Entry(g4, s, cl) == Entry(g, s, cl) && Entry(g4, d, cl) == Entry(g, d, cl)
  {
    hide Entry, CellOf, Joined, DonorBack, SurvivorBack;
    forall u | u != a && u != b && u != s && u != d ensures Entry(g4, u, cl) == Entry(g, u, cl) {
      assert Entry(g1, u, cl) == Entry(g, u, cl) && Entry(g2, u, cl) == Entry(g1, u, cl);
    }
  }

  lemma GrantsInOrder(g: PerClient<Grant>, one: Snapshot, two: Snapshot)
    requires var a, b, s, d := one.survivor, one.donor, two.survivor, two.donor;
             && a != b && s != d && d != b
             && one.grants == MovedGrants(g, a, b) && one.grantMerged == GrantSplits(g, a, b)
             && var g1 := MergedGrants(g, a, b);
             && two.grants == MovedGrants(g1, s, d) && two.grantMerged == GrantSplits(g1, s, d)
             && var g2 := MergedGrants(g1, s, d);
             CanRekey(g2, one.grants, a, b) && CanSplit(RekeyPresent(g2, one.grants, a, b), a, b, one.grantMerged)
    ensures var g2 := MergedGrants(MergedGrants(g, one.survivor, one.donor), two.survivor, two.donor);
            GrantsBack(GrantsBack(g2, one), two) == g <==> forall cl :: GrantSettled(one, two, cl)
  {
    hide MergedGrants, GrantsBack, MovedGrants, GrantSplits, CanRekey, CanSplit, RekeyPresent, Entry, CellOf, CellIn,
      Merges, Reverses, PlaceFree, Idle;
    var a, b, s, d := one.survivor, one.donor, two.survivor, two.donor;
    var g1 := MergedGrants(g, a, b);
    var g2 := MergedGrants(g1, s, d);
    var g3 := GrantsBack(g2, one);
    var g4 := GrantsBack(g3, two);
    forall cl ensures (forall u :: Entry(g4, u, cl) == Entry(g, u, cl)) <==> GrantSettled(one, two, cl) {
      MergedGrantAt(g, a, b, cl);
      MergedGrantAt(g1, s, d, cl);
      CellRecorded(g, one, cl);
      CellRecorded(g1, two, cl);
      PlaceIsFree(g2, one, cl);
      ReversedGrantAt(g2, one, cl);
      ReversedGrantAt(g3, two, cl);
      ClientInOrder(g, g1, g2, g3, g4, a, b, s, d, cl);
    }
    SameByEntry(g4, g);
    if forall cl :: GrantSettled(one, two, cl) {
      forall u, cl ensures Entry(g4, u, cl) == Entry(g, u, cl) { assert GrantSettled(one, two, cl); }
    }
  }

  // ---------------------------------------------------------------------------
  // Overrides
  // ---------------------------------------------------------------------------

  /** A merge at one client, which moves the donor's override, creates one, or neither. */
  ghost predicate OverrideMerges(
    o: PerClient<Sub>, after: PerClient<Sub>, moved: set<ClientId>, created: map<ClientId, Sub>, s: UserId, d: UserId,
    cl: ClientId)
  {
    forall u :: Entry(after, u, cl) ==
      if u == s then
        if cl in created then Some(created[cl]) else if cl in moved then Entry(o, d, cl) else Entry(o, s, cl)
      else if u == d then if cl in moved then None else Entry(o, d, cl)
      else Entry(o, u, cl)
  }

  ghost predicate OverrideReverses(
    o: PerClient<Sub>, back: PerClient<Sub>, moved: set<ClientId>, created: map<ClientId, Sub>, s: UserId, d: UserId,
    cl: ClientId)
  {
    forall u :: Entry(back, u, cl) ==
      if u == d then if cl in moved && Entry(o, s, cl).Some? then Entry(o, s, cl) else Entry(o, d, cl)
      else if u == s then
        if cl in moved || (cl in created && Entry(o, s, cl) == Some(created[cl])) then None else Entry(o, s, cl)
      else Entry(o, u, cl)
  }

  lemma MergedOverrideAt(c: Core, s: UserId, d: UserId, subs: map<ClientId, Sub>, cl: ClientId)
    requires s != d
    ensures OverrideMerges(c.overrides, MergedOverrides(c, s, d, subs), MovedOverrides(c, s, d),
      CreatedOverrides(c, s, subs), s, d, cl)
  {
    hide TokenClients;
  }

  ghost function OverridesBack(o: PerClient<Sub>, snap: Snapshot): PerClient<Sub>
    requires snap.survivor != snap.donor
  {
    DropEntries(RekeyPresent(o, snap.overrides, snap.survivor, snap.donor), snap.survivor, snap.overridesCreated)
  }

  lemma ReversedOverrideAt(o: PerClient<Sub>, snap: Snapshot, cl: ClientId)
    requires snap.survivor != snap.donor
    ensures OverrideReverses(o, OverridesBack(o, snap), snap.overrides, snap.overridesCreated, snap.survivor,
      snap.donor, cl)
  {
    hide Rekey;
  }

  /** An override that the first merge gave to a and the second one moved on stays with a. */
  ghost predicate OverrideSettled(one: Snapshot, two: Snapshot, cl: ClientId) {
    two.donor == one.survivor && cl in two.overrides ==> cl !in one.overrides && cl !in one.overridesCreated
  }

  lemma OverrideInOrder(
    o: PerClient<Sub>, o1: PerClient<Sub>, o2: PerClient<Sub>, o3: PerClient<Sub>, o4: PerClient<Sub>,
    one: Snapshot, two: Snapshot, cl: ClientId)
    requires var a, b, s, d := one.survivor, one.donor, two.survivor, two.donor;
             && a != b && s != d && d != b
             && OverrideMerges(o, o1, one.overrides, one.overridesCreated, a, b, cl)
             && OverrideMerges(o1, o2, two.overrides, two.overridesCreated, s, d, cl)
             && OverrideReverses(o2, o3, one.overrides, one.overridesCreated, a, b, cl)
             && OverrideReverses(o3, o4, two.overrides, two.overridesCreated, s, d, cl)
             && (cl in one.overrides <==> Entry(o, b, cl).Some? && Entry(o, a, cl) == None)
             && (cl in one.overridesCreated ==> Entry(o, a, cl) == None && Entry(o, b, cl) == None)
             && (cl in two.overrides <==> Entry(o1, d, cl).Some? && Entry(o1, s, cl) == None)
             && (cl in two.overridesCreated ==> Entry(o1, s, cl) == None && Entry(o1, d, cl) == None)
             && (cl in one.overrides && Entry(o2, a, cl).Some? ==> Entry(o2, b, cl) == None)
    ensures (forall u :: Entry(o4, u, cl) == Entry(o, u, cl)) <==> OverrideSettled(one, two, cl)
  {
    hide Entry;
    var a, b, s, d := one.survivor, one.donor, two.survivor, two.donor;
    forall u | u != a && u != b && u != s && u != d ensures Entry(o4, u, cl) == Entry(o, u, cl) {
      assert Entry(o1, u, cl) == Entry(o, u, cl) && Entry(o2, u, cl) == Entry(o1, u, cl);
    }
    assert (forall u :: Entry(o4, u, cl) == Entry(o, u, cl)) <==>
           && Entry(o4, a, cl) == Entry(o, a, cl) && Entry(o4, b, cl) == Entry(o, b, cl)
           && Entry(o4, s, cl) == Entry(o, s, cl) && Entry(o4, d, cl) == Entry(o, d, cl);
  }

  lemma OverridesInOrder(
    c: Core, c1: Core, o2: PerClient<Sub>, subs: map<ClientId, Sub>, subs': map<ClientId, Sub>, one: Snapshot,
    two: Snapshot)
    requires var a, b, s, d := one.survivor, one.donor, two.survivor, two.donor;
             && a != b && s != d && d != b
             && one.overrides == MovedOverrides(c, a, b) && one.overridesCreated == CreatedOverrides(c, a, subs)
             && (forall cl :: cl in one.overridesCreated ==> (b, cl) !in c.overrides)
             && c1.overrides == MergedOverrides(c, a, b, subs)
             && two.overrides == MovedOverrides(c1, s, d) && two.overridesCreated == CreatedOverrides(c1, s, subs')
             && (forall cl :: cl in two.overridesCreated ==> (d, cl) !in c1.overrides)
             && o2 == MergedOverrides(c1, s, d, subs')
             && CanRekey(o2, one.overrides, a, b)
    ensures OverridesBack(OverridesBack(o2, one), two) == c.overrides <==> forall cl :: OverrideSettled(one, two, cl)
  {
    hide MergedOverrides, OverridesBack, OverrideMerges, OverrideReverses, TokenClients;
    var a, b, s, d := one.survivor, one.donor, two.survivor, two.donor;
    var o, o1, o3 := c.overrides, c1.overrides, OverridesBack(o2, one);
    var o4 := OverridesBack(o3, two);
    forall cl ensures (forall u :: Entry(o4, u, cl) == Entry(o, u, cl)) <==> OverrideSettled(one, two, cl) {
      MergedOverrideAt(c, a, b, subs, cl);
      MergedOverrideAt(c1, s, d, subs', cl);
      ReversedOverrideAt(o2, one, cl);
      ReversedOverrideAt(o3, two, cl);
      OverrideInOrder(o, o1, o2, o3, o4, one, two, cl);
    }
    SameByEntry(o4, o);
    if forall cl :: OverrideSettled(one, two, cl) {
      forall u, cl ensures Entry(o4, u, cl) == Entry(o, u, cl) { assert OverrideSettled(one, two, cl); }
    }
  }

  // ---------------------------------------------------------------------------
  // The whole database
  // ---------------------------------------------------------------------------

  /** The first merge moved nothing that has an owner column. */
  ghost predicate MovedNothing(snap: Snapshot) {
    && snap.rows == {} && snap.tokens == {} && snap.emails == {} && snap.authenticators == {}
    && snap.eligibilities == {} && snap.redemptions == {}
  }

  /** Two merges, by their snapshots alone, that can be reversed in the order they were made. */
  ghost predicate Untangled(one: Snapshot, two: Snapshot) {
    && (two.donor == one.survivor ==> MovedNothing(one))
    && one.eligibilities !! two.eligibilityDeleted.Keys && one.redemptions !! two.redemptionDeleted.Keys
    && (two.survivor == one.survivor ==> two.survivorWasBanned == one.survivorWasBanned)
    && (forall cl :: GrantSettled(one, two, cl)) && (forall cl :: OverrideSettled(one, two, cl))
  }

  /** Two committed merges: c becomes c1, and c1 becomes c2. */
  ghost predicate TwoMerges(
    c: Core, a: UserId, b: UserId, subs: map<ClientId, Sub>, c1: Core, s: UserId, d: UserId, subs': map<ClientId, Sub>,
    c2: Core)
  {
    && CanMerge(c, a, b, subs) && c1 == MergedCore(c, a, b, subs)
    && CanMerge(c1, s, d, subs') && c2 == MergedCore(c1, s, d, subs')
  }

  lemma MergeFacts(c: Core, s: UserId, d: UserId, subs: map<ClientId, Sub>)
    requires CanMerge(c, s, d, subs)
    ensures s != d && s in c.users && d in c.users && c.users[d].mergedInto == None
    ensures forall cl :: cl in CreatedOverrides(c, s, subs) ==> (d, cl) !in c.overrides
    ensures MergedCore(c, s, d, subs).users[d].mergedInto == Some(s)
    ensures forall u :: u in MergedCore(c, s, d, subs).users && u != d ==>
      MergedCore(c, s, d, subs).users[u].mergedInto == c.users[u].mergedInto
  {
    hide TokenClients, MergedClaims, MergedGrants, MergedOverrides, LostEligibilities, LostRedemptions,
      CreatedOverrides;
  }

  lemma ReversalFacts(c: Core, snap: Snapshot)
    requires snap.survivor != snap.donor && CanReverse(c, snap)
    ensures snap.survivor in c.users && snap.donor in c.users
    ensures CanRekey(c.overrides, snap.overrides, snap.survivor, snap.donor)
    ensures CanRekey(c.grants, snap.grants, snap.survivor, snap.donor)
    ensures CanSplit(RekeyPresent(c.grants, snap.grants, snap.survivor, snap.donor), snap.survivor, snap.donor,
      snap.grantMerged)
  {
    hide CanReverseClaims, CanRekey, CanSplit;
  }

  lemma OwnersInOrder(
    c: Core, a: UserId, b: UserId, subs: map<ClientId, Sub>, c1: Core, s: UserId, d: UserId, subs': map<ClientId, Sub>,
    c2: Core, c3: Core)
    requires TwoMerges(c, a, b, subs, c1, s, d, subs', c2)
    requires CanReverse(c2, SnapshotOf(c, a, b, subs)) && c3 == ReversedCore(c2, SnapshotOf(c, a, b, subs))
    requires CanReverse(c3, SnapshotOf(c1, s, d, subs'))
    ensures var one := SnapshotOf(c, a, b, subs); var c4 := ReversedCore(c3, SnapshotOf(c1, s, d, subs'));
            && (c4.rows == c.rows <==> (d == a ==> one.rows == {}))
            && (c4.tokens == c.tokens <==> (d == a ==> one.tokens == {}))
            && (c4.emails == c.emails <==> (d == a ==> one.emails == {}))
            && (c4.authenticators == c.authenticators <==> (d == a ==> one.authenticators == {}))
  {
    hide CanReverse, RePoint, PointTo, PointFrom, OwnedBy, MergedEmails, ReversedEmails, PrimaryEmails, MergedUsers,
      ReversedUsers, LostEligibilities, LostRedemptions, GrantSplits, MovedGrants, MovedOverrides, CreatedOverrides,
      StrandedClients, MergedClaims, MergedGrants, MergedOverrides, ReversedClaims, SplitGrants, RekeyPresent,
      DropEntries, MergeFailure;
    MergeFacts(c, a, b, subs);
    MergeFacts(c1, s, d, subs');
    var one, two := SnapshotOf(c, a, b, subs), SnapshotOf(c1, s, d, subs');
    TableInOrder(c.rows, a, b, s, d);
    TableInOrder(c.tokens, a, b, s, d);
    GuardedInOrder(c.authenticators, a, b, s, d);
    EmailsInOrder(c.emails, a, b, s, d, one, two);
  }

  lemma CollisionsInOrder(
    c: Core, a: UserId, b: UserId, subs: map<ClientId, Sub>, c1: Core, s: UserId, d: UserId, subs': map<ClientId, Sub>,
    c2: Core, c3: Core)
    requires TwoMerges(c, a, b, subs, c1, s, d, subs', c2)
    requires CanReverse(c2, SnapshotOf(c, a, b, subs)) && c3 == ReversedCore(c2, SnapshotOf(c, a, b, subs))
    requires CanReverse(c3, SnapshotOf(c1, s, d, subs'))
    ensures var one, two := SnapshotOf(c, a, b, subs), SnapshotOf(c1, s, d, subs'); var c4 := ReversedCore(c3, two);
            && (c4.eligibilities == c.eligibilities <==>
                  one.eligibilities !! two.eligibilityDeleted.Keys && (d == a ==> one.eligibilities == {}))
            && (c4.redemptions == c.redemptions <==>
                  one.redemptions !! two.redemptionDeleted.Keys && (d == a ==> one.redemptions == {}))
            && (c4.grants == c.grants <==> forall cl :: GrantSettled(one, two, cl))
            && (c4.overrides == c.overrides <==> forall cl :: OverrideSettled(one, two, cl))
            && (c4.users == c.users <==> (s == a ==> two.survivorWasBanned == one.survivorWasBanned))
  {
    hide CanReverse, RePoint, PointTo, PointFrom, OwnedBy, MergedEmails, ReversedEmails, PrimaryEmails, MergedUsers,
      ReversedUsers, LostEligibilities, LostRedemptions, GrantSplits, MovedGrants, MovedOverrides, CreatedOverrides,
      StrandedClients, MergedClaims, MergedGrants, MergedOverrides, ReversedClaims, SplitGrants, RekeyPresent,
      DropEntries, MergeFailure, GrantSettled, OverrideSettled, CanRekey, CanSplit;
    MergeFacts(c, a, b, subs);
    MergeFacts(c1, s, d, subs');
    var one, two := SnapshotOf(c, a, b, subs), SnapshotOf(c1, s, d, subs');
    ReversalFacts(c2, one);
    ClaimsInOrder(c.eligibilities, one.eligibilityDeleted, two.eligibilityDeleted, a, b, s, d);
    ClaimsInOrder(c.redemptions, one.redemptionDeleted, two.redemptionDeleted, a, b, s, d);
    GrantsInOrder(c.grants, one, two);
    OverridesInOrder(c, c1, c2.overrides, subs, subs', one, two);
    MergedUserAt(c.users, a, b, a);
    UsersInOrder(c.users, a, b, s, d, one, two);
  }

  /**
   Any two committed merges, reversed in the order they were made by two committed reversals: the
   tables are all back if and only if the two snapshots are untangled.
   */
  lemma InOrderRestoresExactly(
    c: Core, a: UserId, b: UserId, subs: map<ClientId, Sub>, c1: Core, s: UserId, d: UserId, subs': map<ClientId, Sub>,
    c2: Core, c3: Core)
    requires TwoMerges(c, a, b, subs, c1, s, d, subs', c2)
    requires CanReverse(c2, SnapshotOf(c, a, b, subs)) && c3 == ReversedCore(c2, SnapshotOf(c, a, b, subs))
    requires CanReverse(c3, SnapshotOf(c1, s, d, subs'))
    ensures ReversedCore(c3, SnapshotOf(c1, s, d, subs')) == c <==>
            Untangled(SnapshotOf(c, a, b, subs), SnapshotOf(c1, s, d, subs'))
  {
    hide CanReverse, ReversedCore, TwoMerges, LostEligibilities, LostRedemptions, GrantSplits, MovedGrants,
      MovedOverrides, CreatedOverrides, StrandedClients, OwnedBy, PrimaryEmails, GrantSettled, OverrideSettled;
    OwnersInOrder(c, a, b, subs, c1, s, d, subs', c2, c3);
    CollisionsInOrder(c, a, b, subs, c1, s, d, subs', c2, c3);
  }

  /** In particular always when the survivor of the first merge has no part in the second. */
  lemma UnrelatedInOrder(
    c: Core, a: UserId, b: UserId, subs: map<ClientId, Sub>, c1: Core, s: UserId, d: UserId, subs': map<ClientId, Sub>,
    c2: Core, c3: Core)
    requires TwoMerges(c, a, b, subs, c1, s, d, subs', c2) && a != s && a != d
    requires CanReverse(c2, SnapshotOf(c, a, b, subs)) && c3 == ReversedCore(c2, SnapshotOf(c, a, b, subs))
    requires CanReverse(c3, SnapshotOf(c1, s, d, subs'))
    ensures ReversedCore(c3, SnapshotOf(c1, s, d, subs')) == c
  {
    hide CanReverse, ReversedCore, MergedClaims, LostEligibilities, LostRedemptions, GrantSplits, MovedGrants,
      MovedOverrides, CellIn, CreatedOverrides, StrandedClients, PrimaryEmails, OwnedBy, MergedGrants, MergedOverrides,
      RePoint, MergedEmails, MergeFailure;
    MergeFacts(c, a, b, subs);
    MergeFacts(c1, s, d, subs');
    InOrderRestoresExactly(c, a, b, subs, c1, s, d, subs', c2, c3);
    DonorRowsAccounted(c, a, b, subs);
    DonorRowsAccounted(c1, s, d, subs');
    var one, two := SnapshotOf(c, a, b, subs), SnapshotOf(c1, s, d, subs');
    assert one.eligibilities !! two.eligibilityDeleted.Keys;
    assert one.redemptions !! two.redemptionDeleted.Keys;
  }
}
