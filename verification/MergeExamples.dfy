/** Concrete databases at which the exceptions stated elsewhere occur. */
module MergeExamples {
  import opened Common
  import opened MergeModel
  import opened MergeLaws
  import opened MergeOrder
  import opened MergeRuns
  import opened MergeBans

  // ---------------------------------------------------------------------------
  // Databases with few tables
  // ---------------------------------------------------------------------------

  /** Users, plain rows, addresses, eligibilities and grants only. */
  ghost predicate Bare(c: Core) {
    c.tokens == map[] && c.authenticators == map[] && c.redemptions == map[] && c.overrides == map[]
  }

  ghost predicate BareSnap(snap: Snapshot) {
    && snap.redemptionDeleted == map[] && snap.overridesCreated == map[] && snap.tokens == {}
  }

  ghost function BareCore(
    users: map<UserId, User>, rows: Table<RowKey, string>, eligibilities: ClaimTable<Eligible>,
    grants: PerClient<Grant>): Core
  {
    Core(users, rows, map[], map[], map[], eligibilities, map[], grants, map[])
  }

  lemma BareMerge(c: Core, s: UserId, d: UserId)
    requires Bare(c) && s != d && s in c.users && d in c.users && c.users[d].mergedInto == None
    ensures CanMerge(c, s, d, map[]) && Bare(MergedCore(c, s, d, map[])) && BareSnap(SnapshotOf(c, s, d, map[]))
  {
    hide MergedGrants, MergedOverrides, GrantSplits, MovedGrants, MovedOverrides, RePoint, MergedUsers, MergedEmails,
      LostEligibilities;
    assert TokenClients(c.tokens, d) == {};
    EmptyTables(s, d);
    EmptyOverrides(c, s, d);
    EmptyClaims(c.redemptions, LostRedemptions(c.redemptions, s, d).Keys, s, d);
  }

  lemma EmptyTables(s: UserId, d: UserId)
    ensures RePoint<RowId, Token>(map[], d, s) == map[] && RePoint<RowId, string>(map[], d, s) == map[]
  {
  }

  lemma EmptyClaims<V>(t: ClaimTable<V>, lost: set<RowId>, s: UserId, d: UserId)
    requires t == map[]
    ensures MergedClaims(t, lost, s, d) == map[]
  {
  }

  lemma EmptyOverrides(c: Core, s: UserId, d: UserId)
    requires c.overrides == map[] && s != d
    ensures MergedOverrides(c, s, d, map[]) == map[] && CreatedOverrides(c, s, map[]) == map[]
  {
  }

  lemma BareReverse(c: Core, snap: Snapshot)
    requires Bare(c) && BareSnap(snap) && snap.survivor != snap.donor && StillMerged(c, snap) &&
      snap.survivor in c.users
    requires CanReverseClaims(c.eligibilities, snap.eligibilities, snap.eligibilityDeleted, snap.donor)
    requires CanRekey(c.grants, snap.grants, snap.survivor, snap.donor)
    requires CanSplit(RekeyPresent(c.grants, snap.grants, snap.survivor, snap.donor), snap.survivor, snap.donor,
      snap.grantMerged)
    ensures CanReverse(c, snap) && Bare(ReversedCore(c, snap))
  {
    hide CanRekey, CanSplit, SplitGrants, Rekey;
    assert RekeyPresent(c.overrides, snap.overrides, snap.survivor, snap.donor) == map[] by { NoOverrides(snap); }
    assert CanRekey(c.overrides, snap.overrides, snap.survivor, snap.donor) by { NoOverrides(snap); }
  }

  lemma NoOverrides(snap: Snapshot)
    requires snap.survivor != snap.donor
    ensures RekeyPresent<Sub>(map[], snap.overrides, snap.survivor, snap.donor) == map[]
    ensures CanRekey<Sub>(map[], snap.overrides, snap.survivor, snap.donor)
  {
  }

  lemma NothingToClaim(s: UserId, d: UserId, ids: set<RowId>)
    ensures LostEligibilities(map[], s, d) == map[] &&
      MergedClaims<Eligible>(map[], LostEligibilities(map[], s, d).Keys, s, d) == map[]
    ensures CanReverseClaims<Eligible>(map[], ids, map[], d) && ReversedClaims<Eligible>(map[], ids, map[], d) == map[]
  {
  }

  lemma NothingGranted(s: UserId, d: UserId, cs: set<ClientId>)
    requires s != d
    ensures MergedGrants(map[], s, d) == map[] && GrantSplits(map[], s, d) == map[] && CanRekey<Grant>(map[], cs, s, d)
    ensures RekeyPresent<Grant>(map[], cs, s, d) == map[]
    ensures CanSplit(map[], s, d, map[]) && SplitGrants(map[], s, d, map[]) == map[]
  {
    hide Rekey, UnionFields, JoinedGrants;
    NoneJoined(s, d);
    NoneSplit(s, d);
    var none: PerClient<Grant> := map[];
    assert MovedGrants(none, s, d) == {} && cs * ClientsOf(none, s) == {};
    assert GrantSplits(none, s, d) == map[];
  }

  lemma NoneJoined(s: UserId, d: UserId)
    requires s != d
    ensures JoinedGrants(map[], s, d) == map[]
    ensures Rekey<Grant>(map[], {}, s, d) == map[] && Rekey<Grant>(map[], {}, d, s) == map[]
  {
  }

  lemma NoneSplit(s: UserId, d: UserId)
    ensures SplitGrants(map[], s, d, map[]) == map[]
  {
    assert Pairs(d, {}) == {};
  }

  // ---------------------------------------------------------------------------
  // Two merges reversed in the order they were made
  // ---------------------------------------------------------------------------

  /** Two merges and two reversals, all committed: b into a, d into s, then the first back and the second. */
  ghost predicate FourCommits(
    c: Core, a: UserId, b: UserId, c1: Core, s: UserId, d: UserId, c2: Core, c3: Core, c4: Core) {
    && TwoMerges(c, a, b, map[], c1, s, d, map[], c2)
    && CanReverse(c2, SnapshotOf(c, a, b, map[])) && c3 == ReversedCore(c2, SnapshotOf(c, a, b, map[]))
    && CanReverse(c3, SnapshotOf(c1, s, d, map[])) && c4 == ReversedCore(c3, SnapshotOf(c1, s, d, map[]))
  }

  lemma UsersOf(c: Core, a: UserId, b: UserId, s: UserId, d: UserId)
    requires a != b && s != d && d != b && a in c.users && b in c.users && s in c.users && d in c.users
    requires c.users[b].mergedInto == None && c.users[d].mergedInto == None
    ensures var u1 := MergedUsers(c.users, a, b);
            && s in u1 && d in u1 && u1[d].mergedInto == None
            && var u2 := MergedUsers(u1, s, d);
            && a in u2 && b in u2 && u2[b].mergedInto == Some(a)
            && (forall snap: Snapshot :: snap.survivor == a && snap.donor == b ==>
                  var u3 := ReversedUsers(u2, snap); s in u3 && d in u3 && u3[d].mergedInto == Some(s))
  {
  }

  /** The eligibilities let both reversals commit. */
  ghost predicate ClaimsRun(t: ClaimTable<Eligible>, a: UserId, b: UserId, s: UserId, d: UserId) {
    var one := LostEligibilities(t, a, b); var t1 := MergedClaims(t, one.Keys, a, b);
    var two := LostEligibilities(t1, s, d); var t2 := MergedClaims(t1, two.Keys, s, d);
    var moved, moved' := OwnedBy(t, b) - one.Keys, OwnedBy(t1, d) - two.Keys;
    CanReverseClaims(t2, moved, one, b) && CanReverseClaims(ReversedClaims(t2, moved, one, b), moved', two, d)
  }

  /** So do the grants. */
  ghost predicate GrantsRun(g: PerClient<Grant>, a: UserId, b: UserId, s: UserId, d: UserId)
    requires a != b && s != d
  {
    var g1 := MergedGrants(g, a, b); var g2 := MergedGrants(g1, s, d);
    var h := RekeyPresent(g2, MovedGrants(g, a, b), a, b);
    && CanRekey(g2, MovedGrants(g, a, b), a, b) && CanSplit(h, a, b, GrantSplits(g, a, b))
    && var g3 := SplitGrants(h, a, b, GrantSplits(g, a, b));
    && CanRekey(g3, MovedGrants(g1, s, d), s, d)
    && CanSplit(RekeyPresent(g3, MovedGrants(g1, s, d), s, d), s, d, GrantSplits(g1, s, d))
  }

  lemma BareRun(c: Core, a: UserId, b: UserId, s: UserId, d: UserId) returns (c1: Core, c2: Core, c3: Core, c4: Core)
    requires Bare(c) && a != b && s != d && d != b && a in c.users && b in c.users && s in c.users && d in c.users
    requires c.users[b].mergedInto == None && c.users[d].mergedInto == None
    requires ClaimsRun(c.eligibilities, a, b, s, d) && GrantsRun(c.grants, a, b, s, d)
    ensures FourCommits(c, a, b, c1, s, d, c2, c3, c4)
  {
    hide RePoint, PointTo, OwnedBy, MergedUsers, ReversedUsers, LostEligibilities, MergedClaims, CanReverseClaims,
      ReversedClaims, MergedGrants, GrantSplits, MovedGrants, CanRekey, CanSplit, SplitGrants, RekeyPresent, CanReverse,
      MergeFailure;
    UsersOf(c, a, b, s, d);
    BareMerge(c, a, b);
    c1 := MergedCore(c, a, b, map[]);
    BareMerge(c1, s, d);
    c2 := MergedCore(c1, s, d, map[]);
    BareReverse(c2, SnapshotOf(c, a, b, map[]));
    c3 := ReversedCore(c2, SnapshotOf(c, a, b, map[]));
    BareReverse(c3, SnapshotOf(c1, s, d, map[]));
    c4 := ReversedCore(c3, SnapshotOf(c1, s, d, map[]));
  }

  lemma NoClaimsRun(a: UserId, b: UserId, s: UserId, d: UserId)
    ensures ClaimsRun(map[], a, b, s, d)
  {
    hide LostEligibilities, MergedClaims, CanReverseClaims, ReversedClaims, OwnedBy;
    NothingToClaim(a, b, {});
    NothingToClaim(s, d, {});
    NothingToClaim(a, b, OwnedBy<RowId, Claim<Eligible>>(map[], b) - LostEligibilities(map[], a, b).Keys);
    NothingToClaim(s, d, OwnedBy<RowId, Claim<Eligible>>(map[], d) - LostEligibilities(map[], s, d).Keys);
  }

  lemma NoGrantsRun(a: UserId, b: UserId, s: UserId, d: UserId)
    requires a != b && s != d
    ensures GrantsRun(map[], a, b, s, d)
  {
    hide MergedGrants, GrantSplits, MovedGrants, CanRekey, CanSplit, SplitGrants, RekeyPresent;
    NothingGranted(a, b, MovedGrants(map[], a, b));
    NothingGranted(s, d, MovedGrants(map[], s, d));
  }

  ghost function Live(banned: bool): User {
    User(banned, false, None)
  }

  /** b into a, then a into z: a badge of b ends up with a. */
  lemma NestedBadge(a: UserId, b: UserId, z: UserId, k: RowKey)
    returns (c: Core, c1: Core, c2: Core, c3: Core, c4: Core)
    requires a != b && b != z && a != z
    ensures FourCommits(c, a, b, c1, z, a, c2, c3, c4)
    ensures k in c.rows && c.rows[k].owner == Some(b) && k in c4.rows && c4.rows[k].owner == Some(a)
  {
    hide MergedCore, ReversedCore, SnapshotOf, CanReverse, TwoMerges, ClaimsRun, GrantsRun;
    var users := map[a := Live(false), b := Live(false), z := Live(false)];
    c := BareCore(users, map[k := Owned(Some(b), "badge")], map[], map[]);
    NoClaimsRun(a, b, z, a);
    NoGrantsRun(a, b, z, a);
    c1, c2, c3, c4 := BareRun(c, a, b, z, a);
    RowsOf(c, a, b, z, a, c1, c2, c3, c4);
  }

  lemma RowsOf(c: Core, a: UserId, b: UserId, s: UserId, d: UserId, c1: Core, c2: Core, c3: Core, c4: Core)
    requires FourCommits(c, a, b, c1, s, d, c2, c3, c4)
    ensures var r1 := RePoint(c.rows, b, a);
            c4.rows == PointTo(PointTo(RePoint(r1, d, s), OwnedBy(c.rows, b), b), OwnedBy(r1, d), d)
  {
    hide CanReverse, MergedGrants, MergedOverrides, MergedClaims, LostEligibilities, LostRedemptions, GrantSplits,
      SplitGrants, RekeyPresent, DropEntries, ReversedClaims, ReversedEmails, MergedEmails, RePoint, PointTo, OwnedBy;
  }

  /** b, who is banned, into a, then e into a: a stays banned, although nobody owns anything. */
  lemma SiblingBan(a: UserId, b: UserId, e: UserId) returns (c: Core, c1: Core, c2: Core, c3: Core, c4: Core)
    requires a != b && b != e && a != e
    ensures FourCommits(c, a, b, c1, a, e, c2, c3, c4)
    ensures a in c.users && !c.users[a].isBanned && a in c4.users && c4.users[a].isBanned
  {
    hide MergedCore, ReversedCore, SnapshotOf, CanReverse, TwoMerges, ClaimsRun, GrantsRun;
    c := BareCore(map[a := Live(false), b := Live(true), e := Live(false)], map[], map[], map[]);
    NoClaimsRun(a, b, a, e);
    NoGrantsRun(a, b, a, e);
    c1, c2, c3, c4 := BareRun(c, a, b, a, e);
    BansOf(c, a, b, e, c1, c2, c3, c4);
  }

  lemma BansOf(c: Core, a: UserId, b: UserId, e: UserId, c1: Core, c2: Core, c3: Core, c4: Core)
    requires FourCommits(c, a, b, c1, a, e, c2, c3, c4) && a in c.users && b in c.users && c.users[b].isBanned
    ensures a in c4.users && c4.users[a].isBanned
  {
    hide CanReverse, MergedGrants, MergedOverrides, MergedClaims, LostEligibilities, LostRedemptions, GrantSplits,
      SplitGrants, RekeyPresent, DropEntries, ReversedClaims, ReversedEmails, MergedEmails, RePoint, PointTo, OwnedBy,
      MergeFailure;
    MergeFacts(c, a, b, map[]);
    MergeFacts(c1, a, e, map[]);
  }

  /** e into a, then b, who is banned, into a; the first merge is reversed: a is no longer banned, although
      b, still merged into it, is. */
  lemma SiblingUnbanned(a: UserId, b: UserId, e: UserId) returns (c: Core, c1: Core, c2: Core, c3: Core, c4: Core)
    requires a != b && b != e && a != e
    ensures FourCommits(c, a, e, c1, a, b, c2, c3, c4)
    ensures BansFollow(c.users) && BansFollow(c1.users) && BansFollow(c2.users) && !BansFollow(c3.users)
    ensures a in c3.users && !c3.users[a].isBanned && b in c3.users && c3.users[b].isBanned
    ensures c3.users[b].mergedInto == Some(a)
  {
    hide MergedCore, ReversedCore, SnapshotOf, CanReverse, TwoMerges, ClaimsRun, GrantsRun, BansFollow;
    c := BareCore(map[a := Live(false), b := Live(true), e := Live(false)], map[], map[], map[]);
    NoClaimsRun(a, e, a, b);
    NoGrantsRun(a, e, a, b);
    c1, c2, c3, c4 := BareRun(c, a, e, a, b);
    UsersThrough(c, a, e, b, c1, c2, c3, c4);
    UnbannedUsers(a, b, e, c.users, c3.users);
  }

  lemma UsersThrough(c: Core, a: UserId, e: UserId, b: UserId, c1: Core, c2: Core, c3: Core, c4: Core)
    requires FourCommits(c, a, e, c1, a, b, c2, c3, c4) && a in c.users && e in c.users && b in c.users
    ensures a != e && a != b && c1.users == MergedUsers(c.users, a, e) && c2.users == MergedUsers(c1.users, a, b)
    ensures var u2 := c2.users;
            c3.users == u2[a := u2[a].(isBanned := c.users[a].isBanned)][e := u2[e].(mergedInto := None)]
  {
    hide CanReverse, MergedGrants, MergedOverrides, MergedClaims, LostEligibilities, LostRedemptions, GrantSplits,
      SplitGrants, RekeyPresent, DropEntries, ReversedClaims, ReversedEmails, MergedEmails, RePoint, PointTo, OwnedBy,
      MergeFailure;
    MergeFacts(c, a, e, map[]);
    MergeFacts(c1, a, b, map[]);
  }

  lemma UnbannedUsers(a: UserId, b: UserId, e: UserId, users: map<UserId, User>, back: map<UserId, User>)
    requires a != b && b != e && a != e
    requires users == map[a := Live(false), b := Live(true), e := Live(false)]
    requires var u2 := MergedUsers(MergedUsers(users, a, e), a, b);
             back == u2[a := u2[a].(isBanned := false)][e := u2[e].(mergedInto := None)]
    ensures BansFollow(users) && BansFollow(MergedUsers(users, a, e))
    ensures BansFollow(MergedUsers(MergedUsers(users, a, e), a, b)) && !BansFollow(back)
    ensures a in back && !back[a].isBanned && b in back && back[b].isBanned && back[b].mergedInto == Some(a)
  {
    assert !Follows(back, b, a);
  }

  lemma MergedGrantsAre(g: PerClient<Grant>, s: UserId, d: UserId, r: PerClient<Grant>)
    requires s != d && forall cl :: Merges(g, r, s, d, cl)
    ensures MergedGrants(g, s, d) == r
  {
    hide MergedGrants, Joined;
    forall u, cl ensures Entry(MergedGrants(g, s, d), u, cl) == Entry(r, u, cl) {
      MergedGrantAt(g, s, d, cl);
      assert Merges(g, r, s, d, cl);
    }
    SameByEntry(MergedGrants(g, s, d), r);
  }

  /** What a client may see: nothing, or the profile name. */
  ghost function Fields(name: bool): GrantFields {
    GrantFields([], [], name, false, false)
  }

  lemma Disclosed()
    ensures Fields(true).profileName && !Fields(false).profileName
  {
  }

  lemma UnionOfFields(x: bool, y: bool)
    ensures UnionFields(Fields(x), Fields(y)) == Fields(x || y)
  {
    assert Dedup([] + []) == [];
  }

  /** b, who discloses the name, into a, then e into a, all at one client: a goes on disclosing it. */
  lemma SiblingGrant(a: UserId, b: UserId, e: UserId, cl: ClientId)
    returns (c: Core, c1: Core, c2: Core, c3: Core, c4: Core)
    requires a != b && b != e && a != e
    ensures FourCommits(c, a, b, c1, a, e, c2, c3, c4)
    ensures (a, cl) in c.grants && !c.grants[(a, cl)].fields.profileName
    ensures (a, cl) in c4.grants && c4.grants[(a, cl)].fields.profileName
  {
    hide MergedCore, ReversedCore, SnapshotOf, CanReverse, TwoMerges, ClaimsRun, GrantsRun, GrantsEnd, Fields,
      FourCommits;
    Disclosed();
    var g := map[(a, cl) := Grant("1", Fields(false)), (b, cl) := Grant("2", Fields(true)),
      (e, cl) := Grant("3", Fields(false))];
    c := BareCore(map[a := Live(false), b := Live(false), e := Live(false)], map[], map[], g);
    NoClaimsRun(a, b, a, e);
    SiblingSteps(a, b, e, cl, g);
    c1, c2, c3, c4 := BareRun(c, a, b, a, e);
    GrantsOf(c, a, b, a, e, c1, c2, c3, c4);
  }

  lemma SiblingSteps(a: UserId, b: UserId, e: UserId, cl: ClientId, g: PerClient<Grant>)
    requires a != b && b != e && a != e
    requires g == map[(a, cl) := Grant("1", Fields(false)), (b, cl) := Grant("2", Fields(true)),
      (e, cl) := Grant("3", Fields(false))]
    ensures GrantsRun(g, a, b, a, e)
    ensures var end := GrantsEnd(g, a, b, a, e); (a, cl) in end && end[(a, cl)].fields == Fields(true)
  {
    hide MergedGrants, RekeyPresent, SplitGrants, Fields, GrantSplits, MovedGrants, Joined, UnionFields;
    var none, name := Fields(false), Fields(true);
    var g1 := map[(a, cl) := Grant("1", name), (e, cl) := Grant("3", none)];
    var g2 := map[(a, cl) := Grant("1", name)];
    FirstUnion(a, b, e, cl, g, g1);
    SecondUnion(a, e, cl, g1, g2);
    SplitIs(g2, a, b, cl, Grant("1", name), none, Grant("2", name));
    var g3 := g2[(a, cl) := Grant("1", none)][(b, cl) := Grant("2", name)];
    SplitIs(g3, a, e, cl, Grant("1", none), name, Grant("3", none));
  }

  lemma FirstUnion(a: UserId, b: UserId, e: UserId, cl: ClientId, g: PerClient<Grant>, g1: PerClient<Grant>)
    requires a != b && b != e && a != e
    requires g == map[(a, cl) := Grant("1", Fields(false)), (b, cl) := Grant("2", Fields(true)),
      (e, cl) := Grant("3", Fields(false))]
    requires g1 == map[(a, cl) := Grant("1", Fields(true)), (e, cl) := Grant("3", Fields(false))]
    ensures MergedGrants(g, a, b) == g1 && MovedGrants(g, a, b) == {}
    ensures GrantSplits(g, a, b) == map[cl := GrantSplit(Fields(false), Grant("2", Fields(true)))]
  {
    hide MergedGrants, Fields, UnionFields, Joined, Entry;
    UnionOfFields(false, true);
    forall x ensures Merges(g, g1, a, b, x) { FirstUnionAt(a, b, e, cl, g, g1, x); }
    MergedGrantsAre(g, a, b, g1);
  }

  lemma FirstUnionAt(
    a: UserId, b: UserId, e: UserId, cl: ClientId, g: PerClient<Grant>, g1: PerClient<Grant>, x: ClientId)
    requires a != b && b != e && a != e
    requires g == map[(a, cl) := Grant("1", Fields(false)), (b, cl) := Grant("2", Fields(true)),
      (e, cl) := Grant("3", Fields(false))]
    requires g1 == map[(a, cl) := Grant("1", Fields(true)), (e, cl) := Grant("3", Fields(false))]
    ensures Merges(g, g1, a, b, x)
  {
    hide Fields, UnionFields;
    UnionOfFields(false, true);
  }

  lemma SecondUnion(a: UserId, e: UserId, cl: ClientId, g1: PerClient<Grant>, g2: PerClient<Grant>)
    requires a != e && g1 == map[(a, cl) := Grant("1", Fields(true)), (e, cl) := Grant("3", Fields(false))]
    requires g2 == map[(a, cl) := Grant("1", Fields(true))]
    ensures MergedGrants(g1, a, e) == g2 && MovedGrants(g1, a, e) == {}
    ensures GrantSplits(g1, a, e) == map[cl := GrantSplit(Fields(true), Grant("3", Fields(false)))]
  {
    hide MergedGrants, Fields, UnionFields;
    UnionOfFields(true, false);
    MergedGrantsAre(g1, a, e, g2);
  }

  lemma GrantsOf(c: Core, a: UserId, b: UserId, s: UserId, d: UserId, c1: Core, c2: Core, c3: Core, c4: Core)
    requires FourCommits(c, a, b, c1, s, d, c2, c3, c4) && a != b && s != d
    ensures c4.grants == GrantsEnd(c.grants, a, b, s, d)
  {
    hide CanReverse, MergedGrants, MergedOverrides, MergedClaims, LostEligibilities, LostRedemptions, GrantSplits,
      SplitGrants, RekeyPresent, DropEntries, ReversedClaims, ReversedEmails, MergedEmails, RePoint, PointTo, OwnedBy,
      MovedGrants, MergeFailure;
  }

  ghost function GrantsEnd(g: PerClient<Grant>, a: UserId, b: UserId, s: UserId, d: UserId): PerClient<Grant>
    requires a != b && s != d
  {
    var g1 := MergedGrants(g, a, b); var g2 := MergedGrants(g1, s, d);
    var g3 := SplitGrants(RekeyPresent(g2, MovedGrants(g, a, b), a, b), a, b, GrantSplits(g, a, b));
    SplitGrants(RekeyPresent(g3, MovedGrants(g1, s, d), s, d), s, d, GrantSplits(g1, s, d))
  }

  /** Nothing is moved, and the survivor and the donor are put back to what they were. */
  lemma SplitIs(g: PerClient<Grant>, s: UserId, d: UserId, cl: ClientId, mine: Grant, prev: GrantFields, theirs: Grant)
    requires s != d && (s, cl) in g && g[(s, cl)] == mine && (d, cl) !in g
    ensures var r := g[(s, cl) := Grant(mine.id, prev)][(d, cl) := theirs];
            RekeyPresent(g, {}, s, d) == g && SplitGrants(g, s, d, map[cl := GrantSplit(prev, theirs)]) == r
  {
    hide Rekey;
    assert {} * ClientsOf(g, s) == {};
    SameEntries(Rekey(g, {}, s, d), g);
    var splits := map[cl := GrantSplit(prev, theirs)];
    forall u, x ensures (u, x) in Pairs(d, splits.Keys) <==> u == d && x == cl { }
    SameEntries(SplitGrants(g, s, d, splits), g[(s, cl) := Grant(mine.id, prev)][(d, cl) := theirs]);
  }

  ghost function Age(owner: UserId, at: int): Owned<Claim<Eligible>> {
    Owned(Some(owner), Claim("age-over-18", Eligible(at, 0, "test")))
  }

  /** b into a, then e into a, who was eligible earlier: b's eligibility ends up with a. */
  lemma SiblingEligibility(a: UserId, b: UserId, e: UserId, k: RowId, l: RowId)
    returns (c: Core, c1: Core, c2: Core, c3: Core, c4: Core)
    requires a != b && b != e && a != e && k != l
    ensures FourCommits(c, a, b, c1, a, e, c2, c3, c4)
    ensures k in c.eligibilities && c.eligibilities[k].owner == Some(b)
    ensures k in c4.eligibilities && c4.eligibilities[k].owner == Some(a)
  {
    hide MergedCore, ReversedCore, SnapshotOf, CanReverse, TwoMerges, ClaimsRun, GrantsRun;
    var t := map[k := Age(b, 5), l := Age(e, 3)];
    c := BareCore(map[a := Live(false), b := Live(false), e := Live(false)], map[], t, map[]);
    NoGrantsRun(a, b, a, e);
    AgesRun(a, b, e, k, l, t);
    c1, c2, c3, c4 := BareRun(c, a, b, a, e);
    EligibilitiesOf(c, a, b, a, e, c1, c2, c3, c4);
  }

  ghost function ClaimsEnd(t: ClaimTable<Eligible>, a: UserId, b: UserId, s: UserId, d: UserId): ClaimTable<Eligible> {
    var one := LostEligibilities(t, a, b); var t1 := MergedClaims(t, one.Keys, a, b);
    var two := LostEligibilities(t1, s, d); var t2 := MergedClaims(t1, two.Keys, s, d);
    ReversedClaims(ReversedClaims(t2, OwnedBy(t, b) - one.Keys, one, b), OwnedBy(t1, d) - two.Keys, two, d)
  }

  lemma EligibilitiesOf(c: Core, a: UserId, b: UserId, s: UserId, d: UserId, c1: Core, c2: Core, c3: Core, c4: Core)
    requires FourCommits(c, a, b, c1, s, d, c2, c3, c4)
    ensures c4.eligibilities == ClaimsEnd(c.eligibilities, a, b, s, d)
  {
    hide CanReverse, MergedGrants, MergedOverrides, MergedClaims, LostEligibilities, LostRedemptions, GrantSplits,
      SplitGrants, RekeyPresent, DropEntries, ReversedClaims, ReversedEmails, MergedEmails, RePoint, PointTo, OwnedBy,
      MovedGrants, MergeFailure;
  }

  lemma AgesRun(a: UserId, b: UserId, e: UserId, k: RowId, l: RowId, t: ClaimTable<Eligible>)
    requires a != b && b != e && a != e && k != l && t == map[k := Age(b, 5), l := Age(e, 3)]
    ensures ClaimsRun(t, a, b, a, e)
    ensures var end := ClaimsEnd(t, a, b, a, e); k in end && end[k].owner == Some(a)
  {
    hide LostEligibilities, MergedClaims, OwnedBy, CanReverseClaims, ReversedClaims;
    var t1 := map[k := Age(a, 5), l := Age(e, 3)];
    var t2 := map[l := Age(a, 3)];
    AgesFirst(a, b, e, k, l, t, t1);
    AgesSecond(a, e, k, l, t1, t2);
    var one, two := LostEligibilities(t, a, b), LostEligibilities(t1, a, e);
    assert one.Keys == {} && two.Keys == {k};
    assert OwnedBy(t, b) - one.Keys == {k} && OwnedBy(t1, e) - two.Keys == {l};
    AgesBack(a, b, e, k, l, t2);
  }

  lemma AgesBack(a: UserId, b: UserId, e: UserId, k: RowId, l: RowId, t2: ClaimTable<Eligible>)
    requires a != b && b != e && a != e && k != l && t2 == map[l := Age(a, 3)]
    ensures CanReverseClaims(t2, {k}, map[], b) && ReversedClaims(t2, {k}, map[], b) == t2
    ensures CanReverseClaims(t2, {l}, map[k := Age(a, 5)], e)
    ensures ReversedClaims(t2, {l}, map[k := Age(a, 5)], e) == map[l := Age(e, 3), k := Age(a, 5)]
  {
    assert PointTo(t2, {k}, b) == t2 && t2 + map[] == t2;
    assert PointTo(t2, {l}, e) == map[l := Age(e, 3)];
  }

  lemma AgesFirst(
    a: UserId, b: UserId, e: UserId, k: RowId, l: RowId, t: ClaimTable<Eligible>, t1: ClaimTable<Eligible>)
    requires a != b && b != e && a != e && k != l && t == map[k := Age(b, 5), l := Age(e, 3)]
    requires t1 == map[k := Age(a, 5), l := Age(e, 3)]
    ensures LostEligibilities(t, a, b) == map[] && MergedClaims(t, {}, a, b) == t1 && OwnedBy(t, b) == {k}
  {
    assert t - {} == t;
    forall i | i in t ensures !LosesEligibility(t, a, b, i) { }
  }

  lemma AgesSecond(a: UserId, e: UserId, k: RowId, l: RowId, t1: ClaimTable<Eligible>, t2: ClaimTable<Eligible>)
    requires a != e && k != l && t1 == map[k := Age(a, 5), l := Age(e, 3)] && t2 == map[l := Age(a, 3)]
    ensures LostEligibilities(t1, a, e) == map[k := Age(a, 5)] && MergedClaims(t1, {k}, a, e) == t2 &&
      OwnedBy(t1, e) == {l}
  {
    assert l in OwnedBy(t1, e) && LosesToDonor(t1, OwnedBy(t1, e), k);
  }

  // ---------------------------------------------------------------------------
  // Two sessions confirm opposite merges
  // ---------------------------------------------------------------------------

  /** Both sessions read that both accounts are live; both merges then commit. The two tombstones
      point at each other. */
  lemma RacingMergesLoop(a: UserId, b: UserId, one: RowId, two: RowId) returns (states: seq<State>, events: seq<Event>)
    requires a != b && one != two
    ensures Run(states, events) && |events| == 4 && Forest(states[0].core.users)
    ensures events[2].Merging? && events[3].Merging?
    ensures Commits(states[2], events[2].call) && Commits(states[3], events[3].call)
    ensures events[2].call.s == a == events[3].call.d && events[2].call.d == b == events[3].call.s
    ensures ClosesLoop(states[3], events[3]) && !Forest(states[4].core.users)
    ensures states[4].core.users[a].mergedInto == Some(b) && states[4].core.users[b].mergedInto == Some(a)
  {
    hide CanMerge, MergedCore, SnapshotOf, Constraints, Forest, EndsAt, Bare;
    var c := BareCore(map[a := Live(false), b := Live(false)], map[], map[], map[]);
    var st := State(c, map[a := 0, b := 0], map[], map[]);
    var first, second := MergeCall(a, b, map[], 0, one), MergeCall(b, a, map[], 0, two);
    events := [Confirming(a, b), Confirming(b, a), Merging(first, 0), Merging(second, 1)];
    NoTables(c);
    BareMerge(c, a, b);
    UsersAfter(c, a, b);
    var st1 := AfterMerge(st, first);
    MergedStateValid(st, a, b, map[], 0, one);
    BareMerge(st1.core, b, a);
    UsersAfter(st1.core, b, a);
    var st2 := AfterMerge(st1, second);
    states := [st, st, st, st1, st2];
    TwoCycle(a, b, c.users, st1.core.users);
    MergeStepForest(st1, second);
  }

  lemma UsersAfter(c: Core, s: UserId, d: UserId)
    requires CanMerge(c, s, d, map[])
    ensures s != d && s in c.users && d in c.users && MergedCore(c, s, d, map[]).users == MergedUsers(c.users, s, d)
  {
    hide MergedClaims, MergedGrants, MergedOverrides, LostEligibilities, LostRedemptions, TokenClients;
  }

  lemma NoTables(c: Core)
    requires c == BareCore(c.users, map[], map[], map[])
    ensures Bare(c) && Constraints(c)
  {
  }

  lemma TwoCycle(a: UserId, b: UserId, users: map<UserId, User>, after: map<UserId, User>)
    requires a != b && users == map[a := Live(false), b := Live(false)] && after == MergedUsers(users, a, b)
    ensures Forest(users) && Forest(after) && EndsAt(after, b, a)
  {
    assert Ranked(users, map[a := 0, b := 0]);
    var rank: map<UserId, nat> := map[a := 0, b := 1];
    assert Ranked(after, rank);
    assert Root(after, rank, a) == a;
    assert Root(after, rank, b) == a;
  }

  // ---------------------------------------------------------------------------
  // A merge, two edits by the application, and the reversal
  // ---------------------------------------------------------------------------

  /** The application edits tables within their constraints; tombstones stay. */
  ghost predicate Edits(before: Core, after: Core) {
    && Constraints(after) && after.users.Keys == before.users.Keys
    && (forall u :: u in after.users ==> after.users[u].mergedInto == before.users[u].mergedInto)
  }

  /** Generations grow for any reason. */
  predicate Grown(before: map<UserId, nat>, after: map<UserId, nat>) {
    after.Keys == before.Keys && forall u :: u in before ==> before[u] <= after[u]
  }

  /** The run: confirm, merge, the tables become x, then y, look, reverse. */
  ghost predicate EditedRun(states: seq<State>, events: seq<Event>, call: MergeCall, snap: Snapshot, x: Core, y: Core) {
    && Run(states, events) && |events| == 6 && snap.survivor != snap.donor && CanReverse(y, snap)
    && states[3].core == x && states[4].core == y && states[6].core == ReversedCore(y, snap)
    && MergesAt(states, events, 1, call.s, call.d) && ReversesAt(states, events, 5, snap)
  }

  lemma EditFacts(st: State, call: MergeCall, x: Core, y: Core, generation: map<UserId, nat>)
    requires Commits(st, call) && Edits(AfterMerge(st, call).core, x) && Edits(x, y)
    requires Grown(AfterMerge(st, call).generation, generation)
    requires CanReverse(y, SnapshotOf(st.core, call.s, call.d, call.subs))
    ensures var st1, snap := AfterMerge(st, call), SnapshotOf(st.core, call.s, call.d, call.subs);
            var stx, sty := st1.(core := x), st1.(core := y, generation := generation);
            && call.s in st.core.users && call.record in sty.records
            && ValidState(st) && ValidState(st1) && ValidState(stx) && ValidState(sty)
            && OtherActivity(st1, stx) && OtherActivity(stx, sty) && snap.survivor != snap.donor
            && LookFailure(sty, call.record, call.now) == None && sty.records[call.record].snapshot == snap
            && ReversalCommits(sty, call.record, snap)
            && ReversedWith(sty, call.record, snap, call.now).core == ReversedCore(y, snap)
  {
    hide CanMerge, CanReverse, ReversedCore, MergedCore, SnapshotOf, Constraints;
    CommitsFacts(st, call);
    StillMergedOf(y, SnapshotOf(st.core, call.s, call.d, call.subs));
  }

  lemma ReversedAfterEdits(st: State, call: MergeCall, x: Core, y: Core, generation: map<UserId, nat>)
    returns (states: seq<State>, events: seq<Event>)
    requires Commits(st, call) && Confirmed(st, call.s, call.d)
    requires Edits(AfterMerge(st, call).core, x) && Edits(x, y) && Grown(AfterMerge(st, call).generation, generation)
    requires CanReverse(y, SnapshotOf(st.core, call.s, call.d, call.subs))
    ensures EditedRun(states, events, call, SnapshotOf(st.core, call.s, call.d, call.subs), x, y)
    ensures states[0] == st && states[2] == AfterMerge(st, call)
  {
    hide CanReverse, ReversedCore, SnapshotOf, ValidState, OtherActivity, LookFailure, ReversalCommits, ReversedWith,
      AfterMerge, Edits, Grown, Commits;
    EditFacts(st, call, x, y, generation);
    var st1, snap := AfterMerge(st, call), SnapshotOf(st.core, call.s, call.d, call.subs);
    var stx, sty := st1.(core := x), st1.(core := y, generation := generation);
    events := [Confirming(call.s, call.d), Merging(call, 0), Other, Other, Looking(call.record, call.now),
               Reversing(call.record, call.now, 4)];
    states := [st, st, st1, stx, sty, sty, ReversedWith(sty, call.record, snap, call.now)];
  }

  /** A database with two live accounts and nothing recorded. */
  ghost function Fresh(c: Core, s: UserId, d: UserId): State {
    State(c, map[s := 0, d := 0], map[], map[])
  }

  lemma BareCanReverse(c: Core, s: UserId, d: UserId, y: Core)
    requires CanMerge(c, s, d, map[]) && s != d && s in c.users && BareSnap(SnapshotOf(c, s, d, map[])) && Bare(y)
    requires c.eligibilities == map[] && y.eligibilities == map[]
    requires s in y.users && d in y.users && y.users[d].mergedInto == Some(s)
    requires CanRekey(y.grants, MovedGrants(c.grants, s, d), s, d)
    requires CanSplit(RekeyPresent(y.grants, MovedGrants(c.grants, s, d), s, d), s, d, GrantSplits(c.grants, s, d))
    ensures CanReverse(y, SnapshotOf(c, s, d, map[]))
  {
    hide MergeFailure, CanReverse, ReversedCore, CanRekey, CanSplit, RekeyPresent, GrantSplits, MovedGrants,
      LostEligibilities, CanReverseClaims, MergedClaims;
    var snap := SnapshotOf(c, s, d, map[]);
    NothingToClaim(s, d, snap.eligibilities);
    BareReverse(y, snap);
  }

  lemma FreshMerge(c: Core, s: UserId, d: UserId, record: RowId)
    requires s != d && c.users.Keys == {s, d} && c.users[s].mergedInto == None && c.users[d].mergedInto == None
    requires Constraints(c) && CanMerge(c, s, d, map[])
    ensures var st, call := Fresh(c, s, d), MergeCall(s, d, map[], 0, record);
            && Commits(st, call) && Confirmed(st, s, d)
            && AfterMerge(st, call).core == MergedCore(c, s, d, map[])
            && AfterMerge(st, call).generation == map[s := 1, d := 1]
  {
    hide CanMerge, MergedCore, SnapshotOf, Constraints;
  }

  /** The run from a database without eligibilities, once the grants let the reversal through. */
  lemma BareEdits(c: Core, s: UserId, d: UserId, record: RowId, x: Core, y: Core, generation: map<UserId, nat>)
    returns (states: seq<State>, events: seq<Event>)
    requires s != d && c.users.Keys == {s, d} && c.users[s].mergedInto == None && c.users[d].mergedInto == None
    requires Bare(c) && Bare(y) && Constraints(c) && c.eligibilities == map[] && y.eligibilities == map[]
    requires Edits(MergedCore(c, s, d, map[]), x) && Edits(x, y) && Grown(map[s := 1, d := 1], generation)
    requires CanRekey(y.grants, MovedGrants(c.grants, s, d), s, d)
    requires CanSplit(RekeyPresent(y.grants, MovedGrants(c.grants, s, d), s, d), s, d, GrantSplits(c.grants, s, d))
    ensures CanMerge(c, s, d, map[]) && CanReverse(y, SnapshotOf(c, s, d, map[]))
    ensures EditedRun(states, events, MergeCall(s, d, map[], 0, record), SnapshotOf(c, s, d, map[]), x, y)
    ensures states[0].core == c && states[2].core == MergedCore(c, s, d, map[])
  {
    hide CanMerge, CanReverse, CanRekey, CanSplit, RekeyPresent, GrantSplits, MovedGrants, Constraints, EditedRun,
      MergedCore, SnapshotOf, Bare, BareSnap, Commits, Confirmed, AfterMerge, Grown;
    BareMerge(c, s, d);
    UsersAfter(c, s, d);
    FreshMerge(c, s, d, record);
    assert y.users[d].mergedInto == Some(s);
    BareCanReverse(c, s, d, y);
    states, events := ReversedAfterEdits(Fresh(c, s, d), MergeCall(s, d, map[], 0, record), x, y, generation);
  }

  /** The merge moves the donor's grant; the client is deleted and seeded again, and the survivor
      consents to it anew. The reversal gives the survivor's new grant to the donor. */
  lemma LateGrantHandedOver(s: UserId, d: UserId, cl: ClientId, record: RowId)
    returns (states: seq<State>, events: seq<Event>, snap: Snapshot)
    requires s != d
    ensures Run(states, events) && |events| == 6
    ensures MergesAt(states, events, 1, s, d) && ReversesAt(states, events, 5, snap)
    ensures states[0].core.grants.Keys == {(d, cl)} && states[3].core.grants == map[]
    ensures states[4].core.grants.Keys == {(s, cl)} && states[6].core.grants.Keys == {(d, cl)}
    ensures states[6].core.grants[(d, cl)] == states[4].core.grants[(s, cl)]
    ensures states[6].core.grants[(d, cl)].id != states[0].core.grants[(d, cl)].id
  {
    hide CanMerge, CanReverse, ReversedCore, MergedCore, SnapshotOf, Fields, Run, ReversesAt, MergesAt, CanRekey,
      CanSplit, RekeyPresent, SplitGrants, GrantSplits, MovedGrants;
    var g, late := map[(d, cl) := Grant("1", Fields(false))], map[(s, cl) := Grant("2", Fields(true))];
    var c := BareCore(map[s := Live(false), d := Live(false)], map[], map[], g);
    LateGrantTables(s, d, cl, g, late);
    var users := MergedUsers(c.users, s, d);
    var x, y := BareCore(users, map[], map[], map[]), BareCore(users, map[], map[], late);
    BareMerge(c, s, d);
    UsersAfter(c, s, d);
    states, events := BareEdits(c, s, d, record, x, y, map[s := 1, d := 1]);
    snap := SnapshotOf(c, s, d, map[]);
    SnapshotParts(c, s, d);
    ReversedParts(y, snap);
  }

  lemma LateGrantTables(s: UserId, d: UserId, cl: ClientId, g: PerClient<Grant>, late: PerClient<Grant>)
    requires s != d && g == map[(d, cl) := Grant("1", Fields(false))] &&
      late == map[(s, cl) := Grant("2", Fields(true))]
    ensures MovedGrants(g, s, d) == {cl} && GrantSplits(g, s, d) == map[]
    ensures CanRekey(late, {cl}, s, d) && CanSplit(RekeyPresent(late, {cl}, s, d), s, d, map[])
    ensures SplitGrants(RekeyPresent(late, {cl}, s, d), s, d, map[]) == map[(d, cl) := Grant("2", Fields(true))]
  {
    hide Rekey, Fields, RekeyPresent, SplitGrants, CanSplit;
    var r := map[(d, cl) := Grant("2", Fields(true))];
    HandedOver(s, d, cl, late[(s, cl)]);
    NoSplits(r, s, d);
  }

  lemma HandedOver(s: UserId, d: UserId, cl: ClientId, x: Grant)
    requires s != d
    ensures RekeyPresent(map[(s, cl) := x], {cl}, s, d) == map[(d, cl) := x]
  {
    hide Rekey;
    var late := map[(s, cl) := x];
    assert {cl} * ClientsOf(late, s) == {cl};
    SameEntries(Rekey(late, {cl}, s, d), map[(d, cl) := x]);
  }

  lemma NoSplits(g: PerClient<Grant>, s: UserId, d: UserId)
    requires UniqueGrantIds(g)
    ensures SplitGrants(g, s, d, map[]) == g && CanSplit(g, s, d, map[])
  {
    assert Pairs(d, {}) == {};
  }

  lemma SnapshotParts(c: Core, s: UserId, d: UserId)
    requires CanMerge(c, s, d, map[])
    ensures var snap := SnapshotOf(c, s, d, map[]);
            && snap.survivor == s && snap.donor == d && snap.survivorWasBanned == c.users[s].isBanned
            && snap.grants == MovedGrants(c.grants, s, d) && snap.grantMerged == GrantSplits(c.grants, s, d)
            && snap.emails == OwnedBy(c.emails, d) && snap.demotedPrimary == PrimaryEmails(c.emails, d)
  {
    hide LostEligibilities, LostRedemptions, GrantSplits, MovedGrants, OwnedBy, PrimaryEmails, TokenClients;
  }

  lemma ReversedParts(c: Core, snap: Snapshot)
    requires snap.survivor != snap.donor && CanReverse(c, snap)
    ensures var s, d, back := snap.survivor, snap.donor, ReversedCore(c, snap);
            && back.users == ReversedUsers(c.users, snap) && back.emails == ReversedEmails(c.emails, snap)
            && back.grants == SplitGrants(RekeyPresent(c.grants, snap.grants, s, d), s, d, snap.grantMerged)
  {
    hide CanReverseClaims, CanRekey, CanSplit, SplitGrants, RekeyPresent, DropEntries, ReversedClaims, ReversedEmails;
  }

  /** An administrator bans the survivor after the merge, which also bumps the generation; the reversal
      lifts the ban. */
  lemma LateBanLifted(s: UserId, d: UserId, record: RowId)
    returns (states: seq<State>, events: seq<Event>, snap: Snapshot)
    requires s != d
    ensures Run(states, events) && |events| == 6
    ensures MergesAt(states, events, 1, s, d) && ReversesAt(states, events, 5, snap)
    ensures states[0].core.users.Keys == states[4].core.users.Keys == states[6].core.users.Keys == {s, d}
    ensures !states[0].core.users[s].isBanned && states[4].core.users[s].isBanned && !states[6].core.users[s].isBanned
  {
    hide CanMerge, CanReverse, ReversedCore, MergedCore, SnapshotOf, Run, ReversesAt, MergesAt, CanRekey, CanSplit,
      RekeyPresent, SplitGrants, GrantSplits, MovedGrants;
    var c := BareCore(map[s := Live(false), d := Live(false)], map[], map[], map[]);
    NothingGranted(s, d, MovedGrants(map[], s, d));
    var users := MergedUsers(c.users, s, d);
    var y := BareCore(users[s := users[s].(isBanned := true)], map[], map[], map[]);
    BareMerge(c, s, d);
    UsersAfter(c, s, d);
    states, events := BareEdits(c, s, d, record, y, y, map[s := 2, d := 1]);
    snap := SnapshotOf(c, s, d, map[]);
    SnapshotParts(c, s, d);
    ReversedParts(y, snap);
  }

  ghost function Mail(owner: UserId, primary: bool): Owned<Email> {
    Owned(Some(owner), Email("a@b", primary))
  }

  /** The donor brings a primary address e and an ordinary one f, the survivor has a primary address g.
      After the merge the survivor makes f primary. The reversal leaves the donor two primary addresses
      and the survivor none. */
  lemma TwoPrimaries(s: UserId, d: UserId, e: RowId, f: RowId, g: RowId, record: RowId)
    returns (states: seq<State>, events: seq<Event>, snap: Snapshot)
    requires s != d && e != f && f != g && e != g
    ensures Run(states, events) && |events| == 6
    ensures MergesAt(states, events, 1, s, d) && ReversesAt(states, events, 5, snap)
    ensures PrimaryEmails(states[0].core.emails, d) == {e} && PrimaryEmails(states[0].core.emails, s) == {g}
    ensures PrimaryEmails(states[2].core.emails, s) == {g} && PrimaryEmails(states[4].core.emails, s) == {f}
    ensures PrimaryEmails(states[6].core.emails, d) == {e, f} && PrimaryEmails(states[6].core.emails, s) == {}
  {
    hide CanMerge, CanReverse, ReversedCore, MergedCore, SnapshotOf, Run, ReversesAt, MergesAt, CanRekey, CanSplit,
      RekeyPresent, SplitGrants, GrantSplits, MovedGrants, PrimaryEmails, ReversedEmails, MergedEmails;
    var t := map[e := Mail(d, true), f := Mail(d, false), g := Mail(s, true)];
    var t' := map[e := Mail(s, false), f := Mail(s, true), g := Mail(s, false)];
    var c := BareCore(map[s := Live(false), d := Live(false)], map[], map[], map[]).(emails := t);
    NothingGranted(s, d, MovedGrants(map[], s, d));
    var y := BareCore(MergedUsers(c.users, s, d), map[], map[], map[]).(emails := t');
    BareMerge(c, s, d);
    UsersAfter(c, s, d);
    states, events := BareEdits(c, s, d, record, y, y, map[s := 1, d := 1]);
    snap := SnapshotOf(c, s, d, map[]);
    SnapshotParts(c, s, d);
    ReversedParts(y, snap);
    MailTables(s, d, e, f, g, t, t', snap);
    NoNewPrimaryEmail(c, s, d, map[]);
  }

  lemma MailTables(
    s: UserId, d: UserId, e: RowId, f: RowId, g: RowId, t: Table<RowId, Email>, t': Table<RowId, Email>, snap: Snapshot)
    requires s != d && e != f && f != g && e != g
    requires t == map[e := Mail(d, true), f := Mail(d, false), g := Mail(s, true)]
    requires t' == map[e := Mail(s, false), f := Mail(s, true), g := Mail(s, false)]
    requires snap.donor == d && snap.emails == OwnedBy(t, d) && snap.demotedPrimary == PrimaryEmails(t, d)
    ensures PrimaryEmails(t, d) == {e} && PrimaryEmails(t, s) == {g} && PrimaryEmails(t', s) == {f}
    ensures PrimaryEmails(ReversedEmails(t', snap), d) == {e, f} && PrimaryEmails(ReversedEmails(t', snap), s) == {}
  {
    hide PrimaryEmails, OwnedBy, ReversedEmails;
    MailOwners(s, d, e, f, g, t);
    MailBack(s, d, e, f, g, t', snap);
    ThreeMails(e, f, g, t', s);
    ThreeMails(e, f, g, ReversedEmails(t', snap), s);
    ThreeMails(e, f, g, ReversedEmails(t', snap), d);
  }

  lemma MailOwners(s: UserId, d: UserId, e: RowId, f: RowId, g: RowId, t: Table<RowId, Email>)
    requires s != d && e != f && f != g && e != g
    requires t == map[e := Mail(d, true), f := Mail(d, false), g := Mail(s, true)]
    ensures OwnedBy(t, d) == {e, f} && PrimaryEmails(t, d) == {e} && PrimaryEmails(t, s) == {g}
  {
  }

  lemma MailBack(s: UserId, d: UserId, e: RowId, f: RowId, g: RowId, t: Table<RowId, Email>, snap: Snapshot)
    requires s != d && e != f && f != g && e != g
    requires t == map[e := Mail(s, false), f := Mail(s, true), g := Mail(s, false)]
    requires snap.donor == d && snap.emails == {e, f} && snap.demotedPrimary == {e}
    ensures ReversedEmails(t, snap) == map[e := Mail(d, true), f := Mail(d, true), g := Mail(s, false)]
  {
    hide PointTo;
    MailMoved(s, d, e, f, g, t);
  }

  lemma MailMoved(s: UserId, d: UserId, e: RowId, f: RowId, g: RowId, t: Table<RowId, Email>)
    requires e != f && f != g && e != g
    requires t == map[e := Mail(s, false), f := Mail(s, true), g := Mail(s, false)]
    ensures PointTo(t, {e, f}, d) == map[e := Mail(d, false), f := Mail(d, true), g := Mail(s, false)]
  {
  }

  lemma ThreeMails(e: RowId, f: RowId, g: RowId, t: Table<RowId, Email>, u: UserId)
    requires t.Keys == {e, f, g}
    ensures PrimaryEmails(t, u) ==
            (if t[e].owner == Some(u) && t[e].data.isPrimary then {e} else {}) +
            (if t[f].owner == Some(u) && t[f].data.isPrimary then {f} else {}) +
            (if t[g].owner == Some(u) && t[g].data.isPrimary then {g} else {})
  {
  }

  // ---------------------------------------------------------------------------
  // A sub that changes
  // ---------------------------------------------------------------------------

  /** The survivor uses a client with its own sub; the donor brings an override for it from an earlier
      merge. Afterwards the survivor presents the donor's override there. */
  lemma OverrideRedirects(s: UserId, d: UserId, cl: ClientId, derive: (UserId, ClientId) -> Sub, sub: Sub)
    returns (c: Core)
    requires s != d && derive(s, cl) != sub
    ensures CanMerge(c, s, d, map[]) && cl in UsedClients(c, s)
    ensures ResolveSub(c.overrides, derive, s, cl) == derive(s, cl)
    ensures ResolveSub(MergedCore(c, s, d, map[]).overrides, derive, s, cl) == sub
  {
    hide MergedClaims, MergedGrants, MergedOverrides, LostEligibilities, LostRedemptions, MergedEmails, RePoint;
    c := Core(map[s := Live(false), d := Live(false)], map[], map["token" := Owned(Some(s), Token(cl, "secret"))],
              map[], map[], map[], map[], map[], map[(d, cl) := sub]);
    assert "token" in c.tokens && TokenClients(c.tokens, d) == {};
    assert c.tokens["token"].data.client in TokenClients(c.tokens, s);
    SubAfterMerge(c, s, d, map[], derive, cl);
  }
}
