/**
 What a committed merge guarantees: the uniqueness constraints survive it, every donor row is
 accounted for, and relying parties keep seeing the subs they knew, with the exact exceptions.
 */
module MergeLaws {
  import opened Common
  import opened MergeModel

  // ---------------------------------------------------------------------------
  // Constraints
  // ---------------------------------------------------------------------------

  /** After the losers are gone, no donor row shares a slot with a survivor row. */
  lemma ClaimsStayUnique<V>(t: ClaimTable<V>, lost: set<RowId>, s: UserId, d: UserId)
    requires s != d && UniqueSlots(t)
    requires forall i, j ::
      (i in t && j in t && t[i].owner == Some(d) && t[j].owner == Some(s) && t[i].data.slot == t[j].data.slot)
      ==> i in lost || j in lost
    ensures UniqueSlots(MergedClaims(t, lost, s, d))
  {
  }

  lemma EligibilitiesStayUnique(t: ClaimTable<Eligible>, s: UserId, d: UserId)
    requires s != d && UniqueSlots(t)
    ensures UniqueSlots(MergedClaims(t, LostEligibilities(t, s, d).Keys, s, d))
  {
    var lost := LostEligibilities(t, s, d);
    forall i, j | i in t && j in t && t[i].owner == Some(d) && t[j].owner == Some(s) &&
      t[i].data.slot == t[j].data.slot
      ensures i in lost || j in lost
    {
      if t[j].data.info.eligibleAt <= t[i].data.info.eligibleAt {
        assert LosesToSurvivor(t, s, i);
      } else {
        assert i in OwnedBy(t, d) && LosesToDonor(t, OwnedBy(t, d), j);
      }
    }
    ClaimsStayUnique(t, lost.Keys, s, d);
  }

  lemma RedemptionsStayUnique(t: ClaimTable<int>, s: UserId, d: UserId)
    requires s != d && UniqueSlots(t)
    ensures UniqueSlots(MergedClaims(t, LostRedemptions(t, s, d).Keys, s, d))
  {
    ClaimsStayUnique(t, LostRedemptions(t, s, d).Keys, s, d);
  }

  /** Where the row behind a merged grant came from. */
  ghost function GrantOrigin(g: PerClient<Grant>, s: UserId, d: UserId, k: (UserId, ClientId)): (UserId, ClientId) {
    if k.0 == s && k !in g then (d, k.1) else k
  }

  lemma GrantIdsStayUnique(g: PerClient<Grant>, s: UserId, d: UserId)
    requires s != d && UniqueGrantIds(g)
    ensures UniqueGrantIds(MergedGrants(g, s, d))
  {
    hide Rekey, ClientsOf, UnionFields;
    var r := MergedGrants(g, s, d);
    forall k | k in r ensures k.0 != d && GrantOrigin(g, s, d, k) in g && r[k].id == g[GrantOrigin(g, s, d, k)].id {
      assert k == (k.0, k.1);
    }
  }

  /** A committed merge leaves every constraint of the database in force. */
  lemma MergeKeepsConstraints(c: Core, s: UserId, d: UserId, subs: map<ClientId, Sub>)
    requires Constraints(c) && CanMerge(c, s, d, subs)
    ensures Constraints(MergedCore(c, s, d, subs))
  {
    hide UniqueSlots, UniqueGrantIds, MergedClaims, MergedGrants, LostEligibilities, LostRedemptions;
    EligibilitiesStayUnique(c.eligibilities, s, d);
    RedemptionsStayUnique(c.redemptions, s, d);
    GrantIdsStayUnique(c.grants, s, d);
  }

  lemma ReversalKeepsConstraints(c: Core, snap: Snapshot)
    requires Constraints(c) && snap.survivor != snap.donor && CanReverse(c, snap)
    ensures Constraints(ReversedCore(c, snap))
  {
    hide UniqueSlots, UniqueGrantIds, SplitGrants, RekeyPresent;
  }

  lemma MergedStateValid(st: State, s: UserId, d: UserId, subs: map<ClientId, Sub>, now: int, record: RowId)
    requires ValidState(st) && CanMerge(st.core, s, d, subs)
    ensures ValidState(MergedState(st, s, d, subs, now, record))
  {
    hide Constraints, MergedClaims, MergedGrants, MergedOverrides, LostEligibilities, LostRedemptions, GrantSplits;
    MergeKeepsConstraints(st.core, s, d, subs);
  }

  /** Also for a snapshot read long before. */
  lemma ReversedStateValid(st: State, record: RowId, snap: Snapshot, now: int)
    requires ValidState(st) && ReversalCommits(st, record, snap)
    ensures ValidState(ReversedWith(st, record, snap, now))
  {
    hide Constraints, CanReverseClaims, CanRekey, CanSplit, SplitGrants, RekeyPresent, DropEntries;
    ReversalKeepsConstraints(st.core, snap);
  }

  // ---------------------------------------------------------------------------
  // Conservation
  // ---------------------------------------------------------------------------

  /** Afterwards the donor owns nothing that moves, and holds no grant. */
  lemma DonorIsEmptied(c: Core, s: UserId, d: UserId, subs: map<ClientId, Sub>)
    requires CanMerge(c, s, d, subs)
    ensures var r := MergedCore(c, s, d, subs);
            && OwnedBy(r.rows, d) == {} && OwnedBy(r.tokens, d) == {} && OwnedBy(r.emails, d) == {}
            && OwnedBy(r.authenticators, d) == {} && OwnedBy(r.eligibilities, d) == {}
            && OwnedBy(r.redemptions, d) == {} && ClientsOf(r.grants, d) == {}
  {
    hide LostEligibilities, LostRedemptions, MergedOverrides;
    assert ClientsOf(MergedGrants(c.grants, s, d), d) == {} by {
      forall cl ensures (d, cl) !in MergedGrants(c.grants, s, d) { }
    }
  }

  /** For each badge type the survivor ends up with the earliest date either account had. */
  lemma EarliestEligibility(c: Core, s: UserId, d: UserId, subs: map<ClientId, Sub>, k: RowId)
    requires Constraints(c) && CanMerge(c, s, d, subs)
    requires k in c.eligibilities && (c.eligibilities[k].owner == Some(s) || c.eligibilities[k].owner == Some(d))
    ensures var t, r := c.eligibilities, MergedCore(c, s, d, subs).eligibilities;
            exists j :: j in r && j in t && r[j].owner == Some(s) && r[j].data == t[j].data &&
              t[j].data.slot == t[k].data.slot && t[j].data.info.eligibleAt <= t[k].data.info.eligibleAt
  {
    var t, r := c.eligibilities, MergedCore(c, s, d, subs).eligibilities;
    if LosesEligibility(t, s, d, k) {
      if t[k].owner == Some(d) {
        var j :| j in t && t[j].owner == Some(s) && t[j].data.slot == t[k].data.slot &&
          t[j].data.info.eligibleAt <= t[k].data.info.eligibleAt;
        KeptAgainst(t, s, d, j, k);
        assert j in r && r[j].owner == Some(s);
      } else {
        var j :| j in t && j in OwnedBy(t, d) && t[j].data.slot == t[k].data.slot &&
          t[j].data.info.eligibleAt < t[k].data.info.eligibleAt;
        KeptAgainst(t, s, d, j, k);
        assert j in r && r[j].owner == Some(s);
      }
    } else {
      assert k in r && r[k].owner == Some(s);
    }
  }

  /** Whoever beats the other side's row for a badge type is not beaten itself. */
  lemma KeptAgainst(t: ClaimTable<Eligible>, s: UserId, d: UserId, j: RowId, k: RowId)
    requires s != d && UniqueSlots(t) && j in t && k in t && t[j].data.slot == t[k].data.slot
    requires (t[j].owner == Some(s) && t[k].owner == Some(d) &&
      t[j].data.info.eligibleAt <= t[k].data.info.eligibleAt) ||
             (t[j].owner == Some(d) && t[k].owner == Some(s) && t[j].data.info.eligibleAt < t[k].data.info.eligibleAt)
    ensures !LosesEligibility(t, s, d, j)
  {
  }

  /** Every row of the donor is either moved as it is or deleted with a full copy; no other account
      loses a row without a copy, and nothing else changes. */
  ghost predicate ClaimsAccounted<V>(
    t: ClaimTable<V>, r: ClaimTable<V>, moved: set<RowId>, deleted: ClaimTable<V>, s: UserId, d: UserId)
  {
    && moved !! deleted.Keys && OwnedBy(t, d) == moved + OwnedBy(deleted, d)
    && deleted.Keys <= t.Keys && r.Keys == t.Keys - deleted.Keys
    && (forall k :: k in deleted ==> deleted[k] == t[k] && (t[k].owner == Some(s) || t[k].owner == Some(d)))
    && (forall k :: k in r ==> r[k] == if k in moved then Owned(Some(s), t[k].data) else t[k])
  }

  /** At one client: the donor's grant is moved, or united with both sides on record; no other changes. */
  ghost predicate GrantAccounted(
    g: PerClient<Grant>, r: PerClient<Grant>, moved: set<ClientId>, united: map<ClientId, GrantSplit>,
    s: UserId, d: UserId, cl: ClientId)
  {
    var mine, theirs := Entry(g, s, cl), Entry(g, d, cl);
    && (cl in moved ==> mine == None && theirs.Some? && Entry(r, s, cl) == theirs)
    && (cl in united ==>
          && mine.Some? && theirs.Some? && united[cl] == GrantSplit(mine.value.fields, theirs.value)
          && Entry(r, s, cl).Some? && Entry(r, s, cl).value.id == mine.value.id)
    && (cl !in moved && cl !in united ==> theirs == None && Entry(r, s, cl) == mine)
    && !(cl in moved && cl in united)
    && (forall u :: u != s && u != d ==> Entry(r, u, cl) == Entry(g, u, cl))
  }

  ghost predicate GrantsAccounted(
    g: PerClient<Grant>, r: PerClient<Grant>, moved: set<ClientId>, united: map<ClientId, GrantSplit>,
    s: UserId, d: UserId)
  {
    forall cl :: GrantAccounted(g, r, moved, united, s, d, cl)
  }

  lemma ClaimsAddUp<V>(t: ClaimTable<V>, lost: ClaimTable<V>, s: UserId, d: UserId)
    requires lost.Keys <= t.Keys &&
      (forall k :: k in lost ==> lost[k] == t[k] && (t[k].owner == Some(s) || t[k].owner == Some(d)))
    ensures ClaimsAccounted(t, MergedClaims(t, lost.Keys, s, d), OwnedBy(t, d) - lost.Keys, lost, s, d)
  {
  }

  // One client at a time

  ghost function Entry<X>(m: PerClient<X>, u: UserId, cl: ClientId): Option<X> {
    if (u, cl) in m then Some(m[(u, cl)]) else None
  }

  lemma SameByEntry<X>(m: PerClient<X>, n: PerClient<X>)
    ensures m == n <==> forall u, cl :: Entry(m, u, cl) == Entry(n, u, cl)
  {
    if forall u, cl :: Entry(m, u, cl) == Entry(n, u, cl) {
      forall u, cl ensures ((u, cl) in m <==> (u, cl) in n) && ((u, cl) in m ==> m[(u, cl)] == n[(u, cl)]) {
        assert Entry(m, u, cl) == Entry(n, u, cl);
      }
      SameEntries(m, n);
    }
  }

  /** The survivor's grant at a client, from the two there were. */
  ghost function Joined(mine: Option<Grant>, theirs: Option<Grant>): Option<Grant> {
    if mine.Some? && theirs.Some? then Some(Grant(mine.value.id, UnionFields(mine.value.fields, theirs.value.fields)))
    else if mine.Some? then mine else theirs
  }

  /** A merge at one client. */
  ghost predicate Merges(g: PerClient<Grant>, after: PerClient<Grant>, s: UserId, d: UserId, cl: ClientId) {
    forall u :: Entry(after, u, cl) ==
      if u == s then Joined(Entry(g, s, cl), Entry(g, d, cl)) else if u == d then None else Entry(g, u, cl)
  }

  lemma MergedGrantAt(g: PerClient<Grant>, s: UserId, d: UserId, cl: ClientId)
    requires s != d
    ensures Merges(g, MergedGrants(g, s, d), s, d, cl)
  {
    hide UnionFields;
  }

  lemma GrantsAddUp(g: PerClient<Grant>, s: UserId, d: UserId)
    requires s != d
    ensures GrantsAccounted(g, MergedGrants(g, s, d), MovedGrants(g, s, d), GrantSplits(g, s, d), s, d)
  {
    hide UnionFields, MergedGrants;
    var r := MergedGrants(g, s, d);
    forall cl ensures GrantAccounted(g, r, MovedGrants(g, s, d), GrantSplits(g, s, d), s, d, cl) {
      MergedGrantAt(g, s, d, cl);
      assert Entry(r, s, cl) == Joined(Entry(g, s, cl), Entry(g, d, cl));
    }
  }

  /** The snapshot of a committed merge accounts for every eligibility, redemption and grant of the donor. */
  lemma DonorRowsAccounted(c: Core, s: UserId, d: UserId, subs: map<ClientId, Sub>)
    requires CanMerge(c, s, d, subs)
    ensures var snap, r := SnapshotOf(c, s, d, subs), MergedCore(c, s, d, subs);
            && ClaimsAccounted(c.eligibilities, r.eligibilities, snap.eligibilities, snap.eligibilityDeleted, s, d)
            && ClaimsAccounted(c.redemptions, r.redemptions, snap.redemptions, snap.redemptionDeleted, s, d)
            && GrantsAccounted(c.grants, r.grants, snap.grants, snap.grantMerged, s, d)
    ensures var snap, r := SnapshotOf(c, s, d, subs), MergedCore(c, s, d, subs);
            forall k :: k in snap.redemptionDeleted ==>
              && snap.redemptionDeleted[k].owner == Some(d)
              && exists j :: j in r.redemptions && r.redemptions[j].owner == Some(s)
                   && r.redemptions[j].data.slot == snap.redemptionDeleted[k].data.slot
  {
    hide MergedClaims, MergedGrants, MovedGrants, GrantSplits, OwnedBy, ClaimsAccounted, GrantsAccounted,
      MergedOverrides, MergedEmails, LosesEligibility, LosesRedemption, RePoint, PrimaryEmails;
    var lostE, lostR := LostEligibilities(c.eligibilities, s, d), LostRedemptions(c.redemptions, s, d);
    LosersAreTheirs(c, s, d);
    ClaimsAddUp(c.eligibilities, lostE, s, d);
    ClaimsAddUp(c.redemptions, lostR, s, d);
    GrantsAddUp(c.grants, s, d);
    forall k | k in lostR
      ensures exists j :: j in MergedClaims(c.redemptions, lostR.Keys, s, d)
                && MergedClaims(c.redemptions, lostR.Keys, s, d)[j].owner == Some(s)
                && MergedClaims(c.redemptions, lostR.Keys, s, d)[j].data.slot == lostR[k].data.slot
    {
      RedemptionKept(c.redemptions, s, d, k);
    }
  }

  lemma LosersAreTheirs(c: Core, s: UserId, d: UserId)
    ensures forall k :: k in LostEligibilities(c.eligibilities, s, d) ==>
              c.eligibilities[k].owner == Some(s) || c.eligibilities[k].owner == Some(d)
    ensures forall k :: k in LostRedemptions(c.redemptions, s, d) ==> c.redemptions[k].owner == Some(d)
  {
  }

  lemma RedemptionKept(t: ClaimTable<int>, s: UserId, d: UserId, k: RowId)
    requires s != d && k in LostRedemptions(t, s, d)
    ensures var r := MergedClaims(t, LostRedemptions(t, s, d).Keys, s, d);
            exists j :: j in r && r[j].owner == Some(s) && r[j].data.slot == t[k].data.slot
  {
    var j :| j in t && t[j].owner == Some(s) && t[j].data.slot == t[k].data.slot;
    assert j in MergedClaims(t, LostRedemptions(t, s, d).Keys, s, d);
  }

  lemma {:induction false} DedupMembers(a: seq<string>)
    ensures forall x :: x in Dedup(a) <==> x in a
    ensures forall i, j :: 0 <= i < j < |Dedup(a)| ==> Dedup(a)[i] != Dedup(a)[j]
  {
    if a != [] {
      DedupMembers(a[..|a| - 1]);
      assert a == a[..|a| - 1] + [a[|a| - 1]];
    }
  }

  /** At every client the survivor's grant is exactly the union of what both had disclosed. */
  lemma GrantIsUnion(c: Core, s: UserId, d: UserId, subs: map<ClientId, Sub>, cl: ClientId)
    requires CanMerge(c, s, d, subs)
    requires (s, cl) in c.grants || (d, cl) in c.grants
    ensures var r := MergedCore(c, s, d, subs).grants;
            && (s, cl) in r && (d, cl) !in r
            && (forall x :: x in r[(s, cl)].fields.badgeTypes <==>
                  ((s, cl) in c.grants && x in c.grants[(s, cl)].fields.badgeTypes) ||
                  ((d, cl) in c.grants && x in c.grants[(d, cl)].fields.badgeTypes))
            && (forall x :: x in r[(s, cl)].fields.badgeIds <==>
                  ((s, cl) in c.grants && x in c.grants[(s, cl)].fields.badgeIds) ||
                  ((d, cl) in c.grants && x in c.grants[(d, cl)].fields.badgeIds))
            && ((s, cl) in c.grants && (d, cl) in c.grants ==>
                  && Dedup(c.grants[(s, cl)].fields.badgeTypes) <= r[(s, cl)].fields.badgeTypes
                  && Dedup(c.grants[(s, cl)].fields.badgeIds) <= r[(s, cl)].fields.badgeIds)
            && (r[(s, cl)].fields.profileName <==>
                  ((s, cl) in c.grants && c.grants[(s, cl)].fields.profileName) ||
                  ((d, cl) in c.grants && c.grants[(d, cl)].fields.profileName))
            && (r[(s, cl)].fields.profileAvatar <==>
                  ((s, cl) in c.grants && c.grants[(s, cl)].fields.profileAvatar) ||
                  ((d, cl) in c.grants && c.grants[(d, cl)].fields.profileAvatar))
            && (r[(s, cl)].fields.sybilScore <==>
                  ((s, cl) in c.grants && c.grants[(s, cl)].fields.sybilScore) ||
                  ((d, cl) in c.grants && c.grants[(d, cl)].fields.sybilScore))
  {
    hide MergedOverrides, MergedClaims, MergedEmails, RePoint, LostEligibilities, LostRedemptions;
    if (s, cl) in c.grants && (d, cl) in c.grants {
      var a, b := c.grants[(s, cl)].fields, c.grants[(d, cl)].fields;
      DedupMembers(a.badgeTypes + b.badgeTypes);
      DedupMembers(a.badgeIds + b.badgeIds);
      DedupExtends(a.badgeTypes, b.badgeTypes);
      DedupExtends(a.badgeIds, b.badgeIds);
    }
  }

  /** What the first list had comes first, in its order. */
  lemma {:induction false} DedupExtends(a: seq<string>, b: seq<string>)
    ensures Dedup(a) <= Dedup(a + b)
    decreases |b|
  {
    if b == [] {
      assert a + b == a;
    } else {
      DedupExtends(a, b[..|b| - 1]);
      assert (a + b)[..|a + b| - 1] == a + b[..|b| - 1];
    }
  }

  /** The merge makes no address primary: the survivor's primary addresses are the ones it had. */
  lemma NoNewPrimaryEmail(c: Core, s: UserId, d: UserId, subs: map<ClientId, Sub>)
    requires CanMerge(c, s, d, subs)
    ensures PrimaryEmails(MergedCore(c, s, d, subs).emails, s) == PrimaryEmails(c.emails, s)
  {
    hide MergedOverrides, MergedClaims, MergedGrants, RePoint, LostEligibilities, LostRedemptions;
  }

  /** A ban on either side sticks to the survivor; nobody becomes an administrator. */
  lemma BanSticksAdminDoesNot(c: Core, s: UserId, d: UserId, subs: map<ClientId, Sub>)
    requires CanMerge(c, s, d, subs)
    ensures var r := MergedCore(c, s, d, subs).users;
            && r.Keys == c.users.Keys
            && (r[s].isBanned <==> c.users[s].isBanned || c.users[d].isBanned)
            && (forall u :: u in r ==> r[u].isAdmin == c.users[u].isAdmin)
  {
    hide MergedOverrides, MergedClaims, MergedGrants, RePoint, LostEligibilities, LostRedemptions, MergedEmails;
  }

  // ---------------------------------------------------------------------------
  // Subject continuity
  // ---------------------------------------------------------------------------

  /** resolveSub: an override wins over the pairwise derivation. */
  function ResolveSub(overrides: PerClient<Sub>, derive: (UserId, ClientId) -> Sub, u: UserId, cl: ClientId): Sub {
    if (u, cl) in overrides then overrides[(u, cl)] else derive(u, cl)
  }

  /** The subs handed to the transaction were derived for the donor, possibly long before it runs. */
  ghost predicate DerivedFor(subs: map<ClientId, Sub>, derive: (UserId, ClientId) -> Sub, d: UserId) {
    forall cl :: cl in subs ==> subs[cl] == derive(d, cl)
  }

  /** Which sub the survivor presents after a committed merge, client by client. */
  lemma SubAfterMerge(
    c: Core, s: UserId, d: UserId, subs: map<ClientId, Sub>, derive: (UserId, ClientId) -> Sub, cl: ClientId)
    requires CanMerge(c, s, d, subs) && DerivedFor(subs, derive, d)
    ensures ResolveSub(MergedCore(c, s, d, subs).overrides, derive, s, cl) ==
            if (s, cl) in c.overrides then ResolveSub(c.overrides, derive, s, cl)
            else if (d, cl) in c.overrides then ResolveSub(c.overrides, derive, d, cl)
            else if cl in TokenClients(c.tokens, d) && cl !in TokenClients(c.tokens, s)
            then ResolveSub(c.overrides, derive, d, cl)
            else ResolveSub(c.overrides, derive, s, cl)
  {
    hide MergedClaims, MergedGrants, RePoint, LostEligibilities, LostRedemptions, MergedEmails, TokenClients, Rekey,
      AddEntries, ClientsOf, MergedUsers;
  }

  /** A client only the donor used keeps seeing the donor's sub: for every committed merge. */
  lemma DonorOnlyClientsKeepSub(
    c: Core, s: UserId, d: UserId, subs: map<ClientId, Sub>, derive: (UserId, ClientId) -> Sub, cl: ClientId)
    requires CanMerge(c, s, d, subs) && DerivedFor(subs, derive, d)
    requires cl in TokenClients(c.tokens, d) + ClientsOf(c.overrides, d) && cl !in UsedClients(c, s)
    ensures ResolveSub(MergedCore(c, s, d, subs).overrides, derive, s, cl) == ResolveSub(c.overrides, derive, d, cl)
  {
    SubAfterMerge(c, s, d, subs, derive, cl);
  }

  /** A client the survivor used keeps seeing the survivor's sub, unless an override of the donor
      for that client moves over and says something else. */
  lemma SurvivorClientsKeepSub(
    c: Core, s: UserId, d: UserId, subs: map<ClientId, Sub>, derive: (UserId, ClientId) -> Sub, cl: ClientId)
    requires CanMerge(c, s, d, subs) && DerivedFor(subs, derive, d)
    requires cl in UsedClients(c, s)
    ensures ResolveSub(MergedCore(c, s, d, subs).overrides, derive, s, cl) == ResolveSub(c.overrides, derive, s, cl)
            <==> !((s, cl) !in c.overrides && (d, cl) in c.overrides && c.overrides[(d, cl)] != derive(s, cl))
  {
    SubAfterMerge(c, s, d, subs, derive, cl);
  }

  /** Every client of a re-pointed token is in exactly one of the two lists, and the lists hold
      nothing else: a token minted between precompute and transaction cannot slip through. */
  lemma TokenClientsClassified(c: Core, s: UserId, d: UserId, subs: map<ClientId, Sub>)
    requires CanMerge(c, s, d, subs)
    ensures var snap := SnapshotOf(c, s, d, subs);
            && snap.overridesCreated.Keys + snap.stranded.Keys == TokenClients(c.tokens, d)
            && snap.overridesCreated.Keys !! snap.stranded.Keys
            && (forall cl :: cl in snap.overridesCreated ==> snap.overridesCreated[cl] == subs[cl])
            && (forall cl :: cl in snap.stranded ==> snap.stranded[cl] == subs[cl])
            && (forall k :: k in snap.tokens ==>
                  (c.tokens[k].data.client in snap.overridesCreated) != (c.tokens[k].data.client in snap.stranded))
  {
    hide LostEligibilities, LostRedemptions, GrantSplits, MovedGrants;
    var snap := SnapshotOf(c, s, d, subs);
    assert snap.overridesCreated.Keys + snap.stranded.Keys == subs.Keys;
    forall k | k in snap.tokens ensures c.tokens[k].data.client in subs {
      assert c.tokens[k].data.client in TokenClients(c.tokens, d);
    }
  }

  /** With the basic guards met and no drift, a merge is refused exactly when the donor carries an
      override at a client it holds tokens for and the survivor has not used. */
  lemma OverrideConflictExactly(c: Core, s: UserId, d: UserId, subs: map<ClientId, Sub>)
    requires s != d && s in c.users && d in c.users && c.users[d].mergedInto == None
    requires subs.Keys == TokenClients(c.tokens, d)
    ensures CanMerge(c, s, d, subs) <==>
            TokenClients(c.tokens, d) * ClientsOf(c.overrides, d) <= UsedClients(c, s)
  {
    hide TokenClients;
    if TokenClients(c.tokens, d) * ClientsOf(c.overrides, d) <= UsedClients(c, s) {
    } else {
      var cl :| cl in TokenClients(c.tokens, d) * ClientsOf(c.overrides, d) && cl !in UsedClients(c, s);
      assert cl in CreatedOverrides(c, s, subs) && (d, cl) in c.overrides;
    }
  }

  /** At every client at which the donor has both a token and an override, the survivor has one or the other. */
  ghost predicate NoOverrideInTheWay(c: Core, s: UserId, d: UserId) {
    forall k :: k in c.tokens && c.tokens[k].owner == Some(d) && (d, c.tokens[k].data.client) in c.overrides ==>
      (s, c.tokens[k].data.client) in c.overrides || c.tokens[k].data.client in TokenClients(c.tokens, s)
  }

  /** What a merge takes, and nothing more: two different existing accounts, a donor that is live, subs computed
      for exactly the clients the donor has tokens at, and no override in the way; otherwise the first of these
      that is wrong is the answer. */
  lemma MergeAcceptedExactly(c: Core, s: UserId, d: UserId, subs: map<ClientId, Sub>)
    ensures var r := MergeFailure(c, s, d, subs);
            var known := s != d && s in c.users && d in c.users;
            && (r == Some(SameAccount) <==> s == d)
            && (r == Some(SurvivorMissing) <==> s != d && s !in c.users)
            && (r == Some(DonorMissing) <==> s != d && s in c.users && d !in c.users)
            && (r == Some(DonorTombstoned) <==> known && c.users[d].mergedInto.Some?)
            && (known && c.users[d].mergedInto == None ==>
                  && (r == Some(TokenDrift) <==> subs.Keys != TokenClients(c.tokens, d))
                  && (r == None <==> subs.Keys == TokenClients(c.tokens, d) && NoOverrideInTheWay(c, s, d)))
  {
    hide TokenClients, NoOverrideInTheWay;
    var known := s != d && s in c.users && d in c.users;
    if known && c.users[d].mergedInto == None && subs.Keys == TokenClients(c.tokens, d) {
      OverrideConflictExactly(c, s, d, subs);
      WayIsClear(c, s, d);
    }
  }

  lemma WayIsClear(c: Core, s: UserId, d: UserId)
    ensures NoOverrideInTheWay(c, s, d) <==>
            TokenClients(c.tokens, d) * ClientsOf(c.overrides, d) <= UsedClients(c, s)
  {
    if NoOverrideInTheWay(c, s, d) {
      forall cl | cl in TokenClients(c.tokens, d) * ClientsOf(c.overrides, d) ensures cl in UsedClients(c, s) {
        var k :| k in c.tokens && c.tokens[k].owner == Some(d) && c.tokens[k].data.client == cl;
      }
    }
    if TokenClients(c.tokens, d) * ClientsOf(c.overrides, d) <= UsedClients(c, s) {
      forall k | k in c.tokens && c.tokens[k].owner == Some(d) && (d, c.tokens[k].data.client) in c.overrides
        ensures (s, c.tokens[k].data.client) in c.overrides || c.tokens[k].data.client in TokenClients(c.tokens, s)
      {
        assert c.tokens[k].data.client in TokenClients(c.tokens, d) * ClientsOf(c.overrides, d);
      }
    }
  }

  /** Which eligibilities survive a merge: the survivor's unless the donor was eligible for the type earlier, and
      the donor's unless the survivor was eligible no later. */
  lemma EligibilityKeptExactly(c: Core, s: UserId, d: UserId, subs: map<ClientId, Sub>, k: RowId)
    requires CanMerge(c, s, d, subs) && k in c.eligibilities
    ensures var e, after := c.eligibilities, MergedCore(c, s, d, subs).eligibilities;
            && (e[k].owner == Some(s) ==>
                  (k in after <==> forall j :: j in e && e[j].owner == Some(d) && e[j].data.slot == e[k].data.slot ==>
                     e[k].data.info.eligibleAt <= e[j].data.info.eligibleAt))
            && (e[k].owner == Some(d) ==>
                  (k in after <==> forall j :: j in e && e[j].owner == Some(s) && e[j].data.slot == e[k].data.slot ==>
                     e[k].data.info.eligibleAt < e[j].data.info.eligibleAt))
  {
    hide MergedOverrides, MergedGrants, LostRedemptions, MergedEmails;
    KeptUnlessLost(c.eligibilities, s, d, k);
  }

  lemma KeptUnlessLost(t: ClaimTable<Eligible>, s: UserId, d: UserId, k: RowId)
    requires k in t
    ensures k in MergedClaims(t, LostEligibilities(t, s, d).Keys, s, d) <==> !LosesEligibility(t, s, d, k)
  {
  }
}
