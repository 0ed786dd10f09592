/** What a reversal does after the survivor has gone on using the account. */
module MergeFrame {
  import opened Common
  import opened MergeModel
  import opened MergeLaws
  import MergeOrder
  import MergeRoundTrip

  // ---------------------------------------------------------------------------
  // Activity between the merge and its reversal
  // ---------------------------------------------------------------------------

  /** One step: contents may be edited, rows deleted, and rows created under ids never used
      before. No step changes the owner of an existing row. */
  ghost predicate KeepsOwners<K(!new), V>(h: seq<Table<K, V>>, i: nat)
    requires 0 < i < |h|
  {
    forall k :: k in h[i] ==>
      (k in h[i - 1] && h[i][k].owner == h[i - 1][k].owner) || (forall j :: 0 <= j < i ==> k !in h[j])
  }

  ghost predicate Activity<K(!new), V>(h: seq<Table<K, V>>) {
    forall i :: 0 < i < |h| ==> KeepsOwners(h, i)
  }

  lemma {:induction false} OwnersLast<K(!new), V>(h: seq<Table<K, V>>, i: nat, k: K)
    requires Activity(h) && i < |h| && k in h[0] && k in h[i]
    ensures h[i][k].owner == h[0][k].owner
  {
    if i > 0 {
      assert KeepsOwners(h, i);
      OwnersLast(h, i - 1, k);
    }
  }

  ghost predicate SameOwners<K(!new), V>(t: Table<K, V>, u: Table<K, V>) {
    t.Keys == u.Keys && forall k :: k in t ==> t[k].owner == u[k].owner
  }

  /** After any activity, the reversal of a plain table returns every row that predates the merge
      to the owner it had then, and leaves every later row with whoever owns it. */
  lemma ReversalFrameTable<K(!new), V>(t: Table<K, V>, s: UserId, d: UserId, h: seq<Table<K, V>>, k: K)
    requires s != d && |h| > 0 && SameOwners(h[0], RePoint(t, d, s)) && Activity(h)
    requires k in h[|h| - 1]
    ensures var now := h[|h| - 1]; var back := PointTo(now, OwnedBy(t, d), d);
            && k in back && back[k].data == now[k].data
            && back[k].owner == (if k in t then t[k].owner else now[k].owner)
            && (back[k].owner != now[k].owner ==> k in t && t[k].owner == Some(d))
    ensures PointFrom(h[|h| - 1], OwnedBy(t, d), s, d) == PointTo(h[|h| - 1], OwnedBy(t, d), d)
  {
    var now := h[|h| - 1];
    assert h[0].Keys == t.Keys;
    forall j | j in now && j in t ensures now[j].owner == h[0][j].owner {
      OwnersLast(h, |h| - 1, j);
    }
    assert OwnedBy(t, d) * OwnedBy(now, s) == OwnedBy(t, d) * now.Keys;
  }

  /** The same for the tables with a per-user unique, whose deleted rows also come back. */
  lemma ReversalFrameClaims<V>(
    t: ClaimTable<V>, lost: ClaimTable<V>, s: UserId, d: UserId, h: seq<ClaimTable<V>>, k: RowId)
    requires s != d && |h| > 0 && h[0] == MergedClaims(t, lost.Keys, s, d) && Activity(h)
    requires lost.Keys <= t.Keys && (forall i :: i in lost ==> lost[i] == t[i])
    requires var moved := OwnedBy(t, d) - lost.Keys;
             CanReverseClaims(h[|h| - 1], moved, lost, d) && k in ReversedClaims(h[|h| - 1], moved, lost, d)
    ensures var now := h[|h| - 1]; var back := ReversedClaims(now, OwnedBy(t, d) - lost.Keys, lost, d);
            && (k in lost ==> back[k] == t[k])
            && (k !in lost ==>
                  && k in now && back[k].data == now[k].data
                  && back[k].owner == (if k in t then t[k].owner else now[k].owner))
  {
    var now := h[|h| - 1];
    assert forall j :: j in h[0] <==> j in t && j !in lost;
    if k !in lost && k in t {
      OwnersLast(h, |h| - 1, k);
    }
  }

  ghost function Rows(h: seq<Core>): (r: seq<Table<RowKey, string>>)
    ensures |r| == |h|
  { seq(|h|, i requires 0 <= i < |h| => h[i].rows) }

  ghost function Tokens(h: seq<Core>): (r: seq<Table<RowId, Token>>)
    ensures |r| == |h|
  { seq(|h|, i requires 0 <= i < |h| => h[i].tokens) }

  ghost function Emails(h: seq<Core>): (r: seq<Table<RowId, Email>>)
    ensures |r| == |h|
  { seq(|h|, i requires 0 <= i < |h| => h[i].emails) }

  ghost function Authenticators(h: seq<Core>): (r: seq<Table<RowId, string>>)
    ensures |r| == |h|
  { seq(|h|, i requires 0 <= i < |h| => h[i].authenticators) }

  ghost function Eligibilities(h: seq<Core>): (r: seq<ClaimTable<Eligible>>)
    ensures |r| == |h|
  { seq(|h|, i requires 0 <= i < |h| => h[i].eligibilities) }

  ghost function Redemptions(h: seq<Core>): (r: seq<ClaimTable<int>>)
    ensures |r| == |h|
  { seq(|h|, i requires 0 <= i < |h| => h[i].redemptions) }

  /** A row that predates the merge is with its owner of then; a later one is where it was. */
  ghost predicate OwnerRestored<K(!new), V>(before: Table<K, V>, now: Table<K, V>, back: Table<K, V>) {
    forall k :: k in back && k in now ==>
      back[k].owner == (if k in before then before[k].owner else now[k].owner)
  }

  /** The frame of a reversal, table by table: a merge, any activity, then a committed reversal. */
  lemma ReversalFrame(c: Core, s: UserId, d: UserId, subs: map<ClientId, Sub>, h: seq<Core>)
    requires CanMerge(c, s, d, subs) && |h| > 0 && h[0] == MergedCore(c, s, d, subs)
    requires Activity(Rows(h)) && Activity(Tokens(h)) && Activity(Emails(h)) && Activity(Authenticators(h))
    requires Activity(Eligibilities(h)) && Activity(Redemptions(h))
    requires CanReverse(h[|h| - 1], SnapshotOf(c, s, d, subs))
    ensures var now := h[|h| - 1]; var back := ReversedCore(now, SnapshotOf(c, s, d, subs));
            && OwnerRestored(c.rows, now.rows, back.rows) && back.rows.Keys == now.rows.Keys
            && OwnerRestored(c.tokens, now.tokens, back.tokens) && back.tokens.Keys == now.tokens.Keys
            && OwnerRestored(c.emails, now.emails, back.emails) && back.emails.Keys == now.emails.Keys
            && OwnerRestored(c.authenticators, now.authenticators, back.authenticators)
            && OwnerRestored(c.eligibilities, now.eligibilities, back.eligibilities)
            && OwnerRestored(c.redemptions, now.redemptions, back.redemptions)
  {
    hide CanReverse, LostEligibilities, LostRedemptions, GrantSplits, MergedGrants, MergedOverrides, SplitGrants,
      DropEntries, RekeyPresent, Activity, RePoint, PointTo, PointFrom, OwnedBy, MergedClaims, ReversedClaims,
      CanReverseClaims, ReversedEmails, MergedEmails, OwnerRestored, MergeFailure;
    var now := h[|h| - 1];
    FrameFacts(c, s, d, subs, now);
    var snap := SnapshotOf(c, s, d, subs);
    FrameOfTable(c.rows, s, d, Rows(h));
    FrameOfTable(c.tokens, s, d, Tokens(h));
    FrameOfTable(c.authenticators, s, d, Authenticators(h));
    FrameOfEmails(c.emails, s, d, Emails(h), snap);
    FrameOfClaims(c.eligibilities, snap.eligibilityDeleted, s, d, Eligibilities(h));
    FrameOfClaims(c.redemptions, snap.redemptionDeleted, s, d, Redemptions(h));
  }

  lemma FrameFacts(c: Core, s: UserId, d: UserId, subs: map<ClientId, Sub>, now: Core)
    requires CanMerge(c, s, d, subs) && CanReverse(now, SnapshotOf(c, s, d, subs))
    ensures s != d && s in c.users && d in c.users
    ensures var snap := SnapshotOf(c, s, d, subs);
            && CanReverseClaims(now.eligibilities, snap.eligibilities, snap.eligibilityDeleted, d)
            && CanReverseClaims(now.redemptions, snap.redemptions, snap.redemptionDeleted, d)
  {
    hide CanReverseClaims, LostEligibilities, LostRedemptions, GrantSplits, CanRekey, CanSplit, RekeyPresent;
  }

  lemma FrameOfTable<K(!new), V>(t: Table<K, V>, s: UserId, d: UserId, h: seq<Table<K, V>>)
    requires s != d && |h| > 0 && h[0] == RePoint(t, d, s) && Activity(h)
    ensures var now := h[|h| - 1];
            && OwnerRestored(t, now, PointTo(now, OwnedBy(t, d), d)) && PointTo(now, OwnedBy(t, d), d).Keys == now.Keys
            && OwnerRestored(t, now, PointFrom(now, OwnedBy(t, d), s, d))
  {
    hide RePoint, PointTo, PointFrom, OwnedBy, Activity;
    var now := h[|h| - 1];
    forall k | k in now
      ensures PointFrom(now, OwnedBy(t, d), s, d) == PointTo(now, OwnedBy(t, d), d)
      ensures var back := PointTo(now, OwnedBy(t, d), d);
              k in back && back[k].owner == (if k in t then t[k].owner else now[k].owner)
    {
      ReversalFrameTable(t, s, d, h, k);
    }
    SameKeys(now, OwnedBy(t, d), s, d);
  }

  lemma SameKeys<K, V>(t: Table<K, V>, ids: set<K>, s: UserId, d: UserId)
    ensures PointTo(t, ids, d).Keys == t.Keys && PointFrom(t, ids, s, d).Keys == t.Keys
  {
  }

  lemma FrameOfEmails(t: Table<RowId, Email>, s: UserId, d: UserId, h: seq<Table<RowId, Email>>, snap: Snapshot)
    requires s != d && |h| > 0 && h[0] == MergedEmails(t, s, d) && Activity(h)
    requires snap.emails == OwnedBy(t, d) && snap.donor == d
    ensures var now := h[|h| - 1]; var back := ReversedEmails(now, snap);
            OwnerRestored(t, now, back) && back.Keys == now.Keys
  {
    hide Activity;
    var now := h[|h| - 1];
    forall k | k in now
      ensures PointTo(now, OwnedBy(t, d), d)[k].owner == (if k in t then t[k].owner else now[k].owner)
    {
      ReversalFrameTable(t, s, d, h, k);
    }
  }

  lemma FrameOfClaims<V>(t: ClaimTable<V>, lost: ClaimTable<V>, s: UserId, d: UserId, h: seq<ClaimTable<V>>)
    requires s != d && |h| > 0 && h[0] == MergedClaims(t, lost.Keys, s, d) && Activity(h)
    requires lost.Keys <= t.Keys && (forall i :: i in lost ==> lost[i] == t[i])
    requires CanReverseClaims(h[|h| - 1], OwnedBy(t, d) - lost.Keys, lost, d)
    ensures var now := h[|h| - 1];
            OwnerRestored(t, now, ReversedClaims(now, OwnedBy(t, d) - lost.Keys, lost, d))
  {
    hide MergedClaims, ReversedClaims, CanReverseClaims, OwnedBy, Activity;
    var now := h[|h| - 1];
    var back := ReversedClaims(now, OwnedBy(t, d) - lost.Keys, lost, d);
    forall k | k in back && k in now
      ensures back[k].owner == (if k in t then t[k].owner else now[k].owner)
    {
      ReversalFrameClaims(t, lost, s, d, h, k);
    }
  }

  // ---------------------------------------------------------------------------
  // Where the frame ends
  // ---------------------------------------------------------------------------

  /** Grants are found again by client, not by id: a grant the survivor has made since the merge goes to
      the donor if and only if the merge had moved a grant of the donor at that client. */
  lemma LateGrantMoves(c: Core, s: UserId, d: UserId, subs: map<ClientId, Sub>, now: Core, cl: ClientId)
    requires CanMerge(c, s, d, subs) && Constraints(now) && CanReverse(now, SnapshotOf(c, s, d, subs))
    requires (s, cl) in now.grants && (forall k :: k in c.grants ==> c.grants[k].id != now.grants[(s, cl)].id)
    ensures var snap := SnapshotOf(c, s, d, subs); var back := ReversedCore(now, snap);
            (d, cl) in back.grants && back.grants[(d, cl)] == now.grants[(s, cl)] <==> cl in snap.grants
  {
    hide CanReverse, UniqueSlots, LostEligibilities, LostRedemptions, MovedGrants, GrantSplits, MergedGrants,
      SplitGrants, RekeyPresent, DropEntries, ReversedClaims, ReversedEmails, MergeFailure, OwnedBy, PointTo,
      PrimaryEmails, StrandedClients;
    MergeOrder.MergeFacts(c, s, d, subs);
    var snap := SnapshotOf(c, s, d, subs);
    MergeOrder.CellRecorded(c.grants, snap, cl);
    MergeOrder.ReversedGrantAt(now.grants, snap, cl);
    var back := MergeOrder.GrantsBack(now.grants, snap);
    assert ReversedCore(now, snap).grants == back;
    assert Entry(back, d, cl) == MergeOrder.DonorBack(MergeOrder.CellIn(snap, cl), Entry(now.grants, s, cl),
      Entry(now.grants, d, cl));
    if (d, cl) in now.grants { assert now.grants[(d, cl)].id != now.grants[(s, cl)].id; }
  }

  /** The ban flag is restored, whatever happened to it: a ban in force is lifted if and only if the
      survivor was not banned before the merge. */
  lemma BanLiftedExactly(c: Core, s: UserId, d: UserId, subs: map<ClientId, Sub>, now: Core)
    requires CanMerge(c, s, d, subs) && CanReverse(now, SnapshotOf(c, s, d, subs))
    requires s in now.users && now.users[s].isBanned
    ensures !ReversedCore(now, SnapshotOf(c, s, d, subs)).users[s].isBanned <==> !c.users[s].isBanned
  {
    hide CanReverseClaims, CanRekey, CanSplit, LostEligibilities, LostRedemptions, MovedGrants, GrantSplits,
      SplitGrants, RekeyPresent, DropEntries, ReversedClaims, ReversedEmails, OwnedBy, PointTo, PrimaryEmails,
      StrandedClients;
  }

  /** In the activity, the donor's primary addresses stay, and no other address of the donor, moved or
      new, becomes primary. */
  ghost predicate DonorPrimariesKept(now: Table<RowId, Email>, snap: Snapshot) {
    && snap.demotedPrimary <= now.Keys
    && (forall k :: k in now && now[k].data.isPrimary && (k in snap.emails || now[k].owner == Some(snap.donor)) ==>
          k in snap.demotedPrimary)
  }

  lemma PrimariesBack(
    t: Table<RowId, Email>, s: UserId, d: UserId, h: seq<Table<RowId, Email>>, snap: Snapshot, k: RowId)
    requires s != d && |h| > 0 && h[0] == MergedEmails(t, s, d) && Activity(h)
    requires snap.emails == OwnedBy(t, d) && snap.donor == d && snap.demotedPrimary == PrimaryEmails(t, d)
    ensures var now := h[|h| - 1]; var back := ReversedEmails(now, snap);
            && (k in PrimaryEmails(back, s) <==> k in PrimaryEmails(now, s) - snap.emails)
            && (k in PrimaryEmails(back, d) <==>
                  k in now && (k in snap.demotedPrimary ||
                    (now[k].data.isPrimary && (k in snap.emails || now[k].owner == Some(d)))))
  {
    var now := h[|h| - 1];
    if k in now { ReversalFrameTable(t, s, d, h, k); }
  }

  /**
   The reversal marks the addresses it demoted as primary again, whatever is primary by then. The donor
   has its primary addresses of before if and only if they all still exist and no other address of the
   donor has become primary; the survivor has its own if and only if, moved addresses aside, its primary
   addresses are those it had when the merge committed.
   */
  lemma PrimariesRestoredExactly(c: Core, s: UserId, d: UserId, subs: map<ClientId, Sub>, h: seq<Core>)
    requires CanMerge(c, s, d, subs) && |h| > 0 && h[0] == MergedCore(c, s, d, subs) && Activity(Emails(h))
    requires CanReverse(h[|h| - 1], SnapshotOf(c, s, d, subs))
    ensures var snap, now := SnapshotOf(c, s, d, subs), h[|h| - 1].emails;
            var back := ReversedCore(h[|h| - 1], snap).emails;
            && (PrimaryEmails(back, d) == PrimaryEmails(c.emails, d) <==> DonorPrimariesKept(now, snap))
            && (PrimaryEmails(back, s) == PrimaryEmails(c.emails, s) <==>
                  PrimaryEmails(now, s) - snap.emails == PrimaryEmails(h[0].emails, s))
            && PrimaryEmails(back, s) <= PrimaryEmails(now, s)
  {
    hide CanReverse, MergedCore, ReversedCore, LostEligibilities, LostRedemptions, GrantSplits, Activity, MergedEmails,
      ReversedEmails, MergeFailure, DonorPrimariesKept, PrimaryEmails;
    EmailFacts(c, s, d, subs, h[|h| - 1]);
    var snap := SnapshotOf(c, s, d, subs);
    NoNewPrimaryEmail(c, s, d, subs);
    PrimariesOfTable(c.emails, s, d, Emails(h), snap);
  }

  lemma PrimariesOfTable(t: Table<RowId, Email>, s: UserId, d: UserId, h: seq<Table<RowId, Email>>, snap: Snapshot)
    requires s != d && |h| > 0 && h[0] == MergedEmails(t, s, d) && Activity(h)
    requires snap.emails == OwnedBy(t, d) && snap.donor == d && snap.demotedPrimary == PrimaryEmails(t, d)
    ensures var now := h[|h| - 1]; var back := ReversedEmails(now, snap);
            && PrimaryEmails(back, s) == PrimaryEmails(now, s) - snap.emails
            && (PrimaryEmails(back, d) == snap.demotedPrimary <==> DonorPrimariesKept(now, snap))
  {
    hide PrimaryEmails, ReversedEmails, MergedEmails, Activity, OwnedBy;
    var now := h[|h| - 1];
    forall k
      ensures var back := ReversedEmails(now, snap);
              && (k in PrimaryEmails(back, s) <==> k in PrimaryEmails(now, s) - snap.emails)
              && (k in PrimaryEmails(back, d) <==>
                    k in now && (k in snap.demotedPrimary ||
                      (now[k].data.isPrimary && (k in snap.emails || now[k].owner == Some(d)))))
    {
      PrimariesBack(t, s, d, h, snap, k);
    }
  }

  lemma EmailFacts(c: Core, s: UserId, d: UserId, subs: map<ClientId, Sub>, now: Core)
    requires CanMerge(c, s, d, subs) && CanReverse(now, SnapshotOf(c, s, d, subs))
    ensures s != d && s in c.users && d in c.users
    ensures MergedCore(c, s, d, subs).emails == MergedEmails(c.emails, s, d)
    ensures var snap := SnapshotOf(c, s, d, subs);
            && snap.emails == OwnedBy(c.emails, d) && snap.survivor == s && snap.donor == d
            && snap.demotedPrimary == PrimaryEmails(c.emails, d)
            && ReversedCore(now, snap).emails == ReversedEmails(now.emails, snap)
  {
    hide CanReverse, LostEligibilities, LostRedemptions, GrantSplits, MergedGrants, MergedOverrides, MergedClaims,
      SplitGrants, RekeyPresent, DropEntries, ReversedClaims;
  }

  // ---------------------------------------------------------------------------
  // What stands in the way of a reversal
  // ---------------------------------------------------------------------------

  /** Rows may be gone or edited; none is new, and none has changed its owner or slot. */
  ghost predicate NoNewClaims<V>(before: ClaimTable<V>, now: ClaimTable<V>) {
    forall k :: k in now ==> k in before && now[k].owner == before[k].owner && now[k].data.slot == before[k].data.slot
  }

  ghost predicate NoNewGrants(before: PerClient<Grant>, now: PerClient<Grant>) {
    forall k :: k in now ==> k in before && now[k].id == before[k].id
  }

  /** Since the merge nothing was added to the four tables with a unique constraint, and the accounts are there;
      all other tables may hold anything. */
  ghost predicate NothingAdded(merged: Core, now: Core, s: UserId, d: UserId) {
    && s in now.users && d in now.users && now.users[d].mergedInto == Some(s)
    && NoNewClaims(merged.eligibilities, now.eligibilities) && NoNewClaims(merged.redemptions, now.redemptions)
    && NoNewGrants(merged.grants, now.grants) && now.overrides.Keys <= merged.overrides.Keys
  }

  lemma FewerClaims<V>(before: ClaimTable<V>, now: ClaimTable<V>, moved: set<RowId>, lost: ClaimTable<V>, d: UserId)
    requires NoNewClaims(before, now) && CanReverseClaims(before, moved, lost, d)
    ensures CanReverseClaims(now, moved, lost, d)
  {
    var a, b := PointTo(before, moved, d), PointTo(now, moved, d);
    forall k | k in b ensures k in a && a[k].owner == b[k].owner && a[k].data.slot == b[k].data.slot { }
    FewerSlots(a, b);
    assert (a + lost).Keys == a.Keys + lost.Keys && (b + lost).Keys == b.Keys + lost.Keys;
    FewerSlots(a + lost, b + lost);
  }

  lemma FewerSlots<V>(before: ClaimTable<V>, now: ClaimTable<V>)
    requires NoNewClaims(before, now) && UniqueSlots(before)
    ensures UniqueSlots(now)
  {
  }

  lemma FewerEntries<X, Y>(before: PerClient<X>, now: PerClient<Y>, cs: set<ClientId>, s: UserId, d: UserId)
    requires now.Keys <= before.Keys && CanRekey(before, cs, s, d)
    ensures CanRekey(now, cs, s, d)
  {
  }

  lemma FewerGrants(
    before: PerClient<Grant>, now: PerClient<Grant>, cs: set<ClientId>, s: UserId, d: UserId,
    splits: map<ClientId, GrantSplit>)
    requires s != d && NoNewGrants(before, now) && CanRekey(before, cs, s, d)
    requires CanSplit(RekeyPresent(before, cs, s, d), s, d, splits)
    ensures CanSplit(RekeyPresent(now, cs, s, d), s, d, splits)
  {
    hide SplitGrants, Rekey, UniqueGrantIds;
    var a, b := RekeyPresent(before, cs, s, d), RekeyPresent(now, cs, s, d);
    forall u, c | (u, c) in b ensures (u, c) in a && a[(u, c)].id == b[(u, c)].id {
      RekeyedAt(before, now, cs, s, d, u, c);
    }
    FewerSplit(a, b, s, d, splits);
  }

  lemma RekeyedAt(
    before: PerClient<Grant>, now: PerClient<Grant>, cs: set<ClientId>, s: UserId, d: UserId, u: UserId, c: ClientId)
    requires s != d && NoNewGrants(before, now) && CanRekey(before, cs, s, d) && (u, c) in RekeyPresent(now, cs, s, d)
    ensures (u, c) in RekeyPresent(before, cs, s, d)
    ensures RekeyPresent(before, cs, s, d)[(u, c)].id == RekeyPresent(now, cs, s, d)[(u, c)].id
  {
    hide Rekey;
    if c in cs && (s, c) in before { assert (d, c) !in before; }
  }

  lemma FewerSplit(
    a: PerClient<Grant>, b: PerClient<Grant>, s: UserId, d: UserId, splits: map<ClientId, GrantSplit>)
    requires forall u, c :: (u, c) in b ==> (u, c) in a && a[(u, c)].id == b[(u, c)].id
    requires CanSplit(a, s, d, splits)
    ensures CanSplit(b, s, d, splits)
  {
    var x, y := SplitGrants(a, s, d, splits), SplitGrants(b, s, d, splits);
    forall k | k in y ensures k in x && x[k].id == y[k].id { assert k == (k.0, k.1); }
  }

  /** A reversal can be held up only by something new: as long as rows were merely deleted or edited since the
      merge, it commits. */
  lemma OnlyNewRowsBlock(c: Core, s: UserId, d: UserId, subs: map<ClientId, Sub>, now: Core)
    requires Constraints(c) && CanMerge(c, s, d, subs) && NothingAdded(MergedCore(c, s, d, subs), now, s, d)
    ensures CanReverse(now, SnapshotOf(c, s, d, subs))
  {
    hide CanReverseClaims, CanRekey, CanSplit, RekeyPresent, MergedGrants, MergedClaims, MergedOverrides, MergedEmails,
      LostEligibilities, LostRedemptions, GrantSplits, MovedGrants, OwnedBy, RePoint, NoNewClaims, NoNewGrants,
      MergeFailure, Constraints, SnapshotOf, MergedCore;
    MergeOrder.MergeFacts(c, s, d, subs);
    var snap, merged := SnapshotOf(c, s, d, subs), MergedCore(c, s, d, subs);
    MergeRoundTrip.RoundTrip(c, s, d, subs);
    FewerClaims(merged.redemptions, now.redemptions, snap.redemptions, snap.redemptionDeleted, d);
    FewerClaims(merged.eligibilities, now.eligibilities, snap.eligibilities, snap.eligibilityDeleted, d);
    FewerEntries(merged.overrides, now.overrides, snap.overrides, s, d);
    GrantKeys(merged.grants, now.grants);
    FewerEntries(merged.grants, now.grants, snap.grants, s, d);
    FewerGrants(merged.grants, now.grants, snap.grants, s, d, snap.grantMerged);
  }

  lemma GrantKeys(before: PerClient<Grant>, now: PerClient<Grant>)
    requires NoNewGrants(before, now)
    ensures now.Keys <= before.Keys
  {
  }

  // ---------------------------------------------------------------------------
  // Authenticators and overrides
  // ---------------------------------------------------------------------------

  /** Authenticators go back only from the survivor; plain rows, tokens and addresses from wherever they are. */
  lemma WhereRowsReturnFrom(c: Core, snap: Snapshot)
    requires snap.survivor != snap.donor && CanReverse(c, snap)
    ensures var back := ReversedCore(c, snap);
            && (forall k :: k in snap.rows && k in c.rows ==> back.rows[k].owner == Some(snap.donor))
            && (forall k :: k in snap.tokens && k in c.tokens ==> back.tokens[k].owner == Some(snap.donor))
            && (forall k :: k in snap.emails && k in c.emails ==> back.emails[k].owner == Some(snap.donor))
            && (forall k :: k in snap.authenticators && k in c.authenticators ==>
                  back.authenticators[k].owner ==
                  if c.authenticators[k].owner == Some(snap.survivor) then Some(snap.donor)
                  else c.authenticators[k].owner)
  {
    hide CanReverse, SplitGrants, RekeyPresent, DropEntries, ReversedClaims, ReversedUsers;
  }

  /** An override the merge created goes with the reversal if and only if it still says what the merge wrote. */
  lemma CreatedOverrideGoesExactly(c: Core, s: UserId, d: UserId, subs: map<ClientId, Sub>, now: Core, cl: ClientId)
    requires CanMerge(c, s, d, subs) && CanReverse(now, SnapshotOf(c, s, d, subs))
    requires cl in SnapshotOf(c, s, d, subs).overridesCreated && (s, cl) in now.overrides
    ensures (s, cl) !in ReversedCore(now, SnapshotOf(c, s, d, subs)).overrides <==> now.overrides[(s, cl)] == subs[cl]
  {
    hide CanReverse, SplitGrants, ReversedClaims, ReversedUsers, ReversedEmails, LostEligibilities, LostRedemptions,
      GrantSplits, MovedGrants, OwnedBy, Rekey;
  }
}
