/**
 Reversing a merge straight away gives the tables back exactly: every owner, every deleted
 row, every split grant, every override, every primary flag, the ban flag and the tombstone.
 */
module MergeRoundTrip {
  import opened Common
  import opened MergeModel

  /** Ownership and primary flags of the id-keyed tables. */
  lemma RoundTripTable<K, V>(t: Table<K, V>, s: UserId, d: UserId)
    ensures PointTo(RePoint(t, d, s), OwnedBy(t, d), d) == t
    ensures PointFrom(RePoint(t, d, s), OwnedBy(t, d), s, d) == t
  {
    var there := RePoint(t, d, s);
    assert OwnedBy(t, d) * OwnedBy(there, s) == OwnedBy(t, d);
    var back := PointTo(there, OwnedBy(t, d), d);
    assert back.Keys == t.Keys;
    assert forall k :: k in t ==> back[k] == t[k];
  }

  lemma RoundTripEmails(t: Table<RowId, Email>, s: UserId, d: UserId, snap: Snapshot)
    requires snap.emails == OwnedBy(t, d) && snap.demotedPrimary == PrimaryEmails(t, d) && snap.donor == d
    ensures ReversedEmails(MergedEmails(t, s, d), snap) == t
  {
    var back := ReversedEmails(MergedEmails(t, s, d), snap);
    assert back.Keys == t.Keys;
    assert forall k :: k in t ==> back[k] == t[k];
  }

  /** Eligibilities and redemptions, for any choice of losers that leaves the slots unique. */
  lemma RoundTripClaims<V>(t: ClaimTable<V>, lost: ClaimTable<V>, s: UserId, d: UserId)
    requires UniqueSlots(t)
    requires lost.Keys <= t.Keys && (forall k :: k in lost ==> lost[k] == t[k])
    ensures var there := MergedClaims(t, lost.Keys, s, d);
            var moved := OwnedBy(t, d) - lost.Keys;
            CanReverseClaims(there, moved, lost, d) && ReversedClaims(there, moved, lost, d) == t
  {
    var rest := t - lost.Keys;
    assert OwnedBy(t, d) - lost.Keys == OwnedBy(rest, d);
    RoundTripTable(rest, s, d);
    assert rest + lost == t;
  }

  lemma RekeyThereAndBack<X>(m: PerClient<X>, cs: set<ClientId>, s: UserId, d: UserId)
    requires s != d
    requires cs <= ClientsOf(m, d) && cs !! ClientsOf(m, s)
    ensures CanRekey(Rekey(m, cs, d, s), cs, s, d)
    ensures RekeyPresent(Rekey(m, cs, d, s), cs, s, d) == m
  {
    var there := Rekey(m, cs, d, s);
    assert cs * ClientsOf(there, s) == cs;
    SameEntries(Rekey(there, cs, s, d), m);
  }

  lemma RekeyBelowAdded<X>(m: PerClient<X>, cs: set<ClientId>, s: UserId, d: UserId, added: map<ClientId, X>)
    requires s != d && cs <= ClientsOf(m, s) && cs !! added.Keys
    ensures RekeyPresent(AddEntries(m, s, added), cs, s, d) == AddEntries(Rekey(m, cs, s, d), s, added)
  {
    var more := AddEntries(m, s, added);
    assert cs * ClientsOf(more, s) == cs;
    SameEntries(Rekey(more, cs, s, d), AddEntries(Rekey(m, cs, s, d), s, added));
  }

  lemma DropAdded<X>(m: PerClient<X>, s: UserId, added: map<ClientId, X>)
    requires added.Keys !! ClientsOf(m, s)
    ensures DropEntries(AddEntries(m, s, added), s, added) == m
  {
    SameEntries(DropEntries(AddEntries(m, s, added), s, added), m);
  }

  lemma MovedAndAddedBack<X>(
    m: PerClient<X>, moved: set<ClientId>, added: map<ClientId, X>, s: UserId, d: UserId)
    requires s != d
    requires moved <= ClientsOf(m, d) && moved !! ClientsOf(m, s)
    requires added.Keys !! moved && added.Keys !! ClientsOf(m, s)
    ensures var there := AddEntries(Rekey(m, moved, d, s), s, added);
            CanRekey(there, moved, s, d) && DropEntries(RekeyPresent(there, moved, s, d), s, added) == m
  {
    var mid := Rekey(m, moved, d, s);
    RekeyThereAndBack(m, moved, s, d);
    assert moved * ClientsOf(mid, s) == moved;
    RekeyBelowAdded(mid, moved, s, d, added);
    DropAdded(m, s, added);
  }

  lemma SplitJoined(g: PerClient<Grant>, s: UserId, d: UserId)
    requires s != d
    ensures SplitGrants(JoinedGrants(g, s, d), s, d, GrantSplits(g, s, d)) == g
    ensures forall c :: c in GrantSplits(g, s, d) ==> (d, c) !in JoinedGrants(g, s, d)
  {
    var splits := GrantSplits(g, s, d);
    forall u, c ensures (u, c) in Pairs(d, splits.Keys) <==> u == d && (d, c) in g && (s, c) in g { }
    SameEntries(SplitGrants(JoinedGrants(g, s, d), s, d, splits), g);
  }

  lemma RoundTripGrants(g: PerClient<Grant>, s: UserId, d: UserId)
    requires s != d && UniqueGrantIds(g)
    ensures var there := MergedGrants(g, s, d);
            var moved := MovedGrants(g, s, d);
            && CanRekey(there, moved, s, d)
            && CanSplit(RekeyPresent(there, moved, s, d), s, d, GrantSplits(g, s, d))
            && SplitGrants(RekeyPresent(there, moved, s, d), s, d, GrantSplits(g, s, d)) == g
  {
    RekeyThereAndBack(JoinedGrants(g, s, d), MovedGrants(g, s, d), s, d);
    SplitJoined(g, s, d);
  }

  /** The overrides the merge created go, the donor's own come back. */
  lemma RoundTripOverrides(c: Core, s: UserId, d: UserId, subs: map<ClientId, Sub>)
    requires s != d
    requires forall cl :: cl in CreatedOverrides(c, s, subs) ==> (d, cl) !in c.overrides
    ensures var there := MergedOverrides(c, s, d, subs);
            var moved := MovedOverrides(c, s, d);
            && CanRekey(there, moved, s, d)
            && DropEntries(RekeyPresent(there, moved, s, d), s, CreatedOverrides(c, s, subs)) == c.overrides
  {
    var o, moved, added := c.overrides, MovedOverrides(c, s, d), CreatedOverrides(c, s, subs);
    forall cl | cl in added ensures cl !in ClientsOf(o, s) && cl !in moved { }
    MovedAndAddedBack(o, moved, added, s, d);
  }

  lemma ReversibleAtOnce(c: Core, s: UserId, d: UserId, subs: map<ClientId, Sub>)
    requires Constraints(c) && CanMerge(c, s, d, subs)
    ensures CanReverse(MergedCore(c, s, d, subs), SnapshotOf(c, s, d, subs))
  {
    hide UniqueSlots, UniqueGrantIds, Rekey, RekeyPresent, SplitGrants, GrantSplits, MergedGrants, DropEntries, RePoint,
      PointTo, PointFrom, OwnedBy, MergedClaims, MergedOverrides, CanRekey, CanSplit, CanReverseClaims, ReversedClaims,
      ClientsOf, MovedGrants, MovedOverrides, CreatedOverrides, LostEligibilities, LostRedemptions, MergedEmails,
      ReversedEmails, PrimaryEmails, StrandedClients, TokenClients;
    RoundTripClaims(c.eligibilities, LostEligibilities(c.eligibilities, s, d), s, d);
    RoundTripClaims(c.redemptions, LostRedemptions(c.redemptions, s, d), s, d);
    RoundTripGrants(c.grants, s, d);
    RoundTripOverrides(c, s, d, subs);
  }

  lemma OwnersRestored(c: Core, s: UserId, d: UserId, subs: map<ClientId, Sub>)
    requires CanMerge(c, s, d, subs)
    requires CanReverse(MergedCore(c, s, d, subs), SnapshotOf(c, s, d, subs))
    ensures var back := ReversedCore(MergedCore(c, s, d, subs), SnapshotOf(c, s, d, subs));
            && back.users == c.users && back.rows == c.rows && back.tokens == c.tokens
            && back.emails == c.emails && back.authenticators == c.authenticators
  {
    hide UniqueSlots, UniqueGrantIds, Rekey, RekeyPresent, SplitGrants, GrantSplits, MergedGrants, DropEntries, RePoint,
      PointTo, PointFrom, OwnedBy, MergedClaims, MergedOverrides, CanRekey, CanSplit, CanReverseClaims, ReversedClaims,
      ClientsOf, MovedGrants, MovedOverrides, CreatedOverrides, LostEligibilities, LostRedemptions, MergedEmails,
      ReversedEmails, PrimaryEmails, StrandedClients, TokenClients;
    RoundTripTable(c.rows, s, d);
    RoundTripTable(c.tokens, s, d);
    RoundTripTable(c.authenticators, s, d);
    RoundTripEmails(c.emails, s, d, SnapshotOf(c, s, d, subs));
  }

  lemma CollisionsRestored(c: Core, s: UserId, d: UserId, subs: map<ClientId, Sub>)
    requires Constraints(c) && CanMerge(c, s, d, subs)
    requires CanReverse(MergedCore(c, s, d, subs), SnapshotOf(c, s, d, subs))
    ensures var back := ReversedCore(MergedCore(c, s, d, subs), SnapshotOf(c, s, d, subs));
            && back.eligibilities == c.eligibilities && back.redemptions == c.redemptions
            && back.grants == c.grants && back.overrides == c.overrides
  {
    hide UniqueSlots, UniqueGrantIds, Rekey, RekeyPresent, SplitGrants, GrantSplits, MergedGrants, DropEntries, RePoint,
      PointTo, PointFrom, OwnedBy, MergedClaims, MergedOverrides, CanRekey, CanSplit, CanReverseClaims, ReversedClaims,
      ClientsOf, MovedGrants, MovedOverrides, CreatedOverrides, LostEligibilities, LostRedemptions, MergedEmails,
      ReversedEmails, PrimaryEmails, StrandedClients, TokenClients;
    RoundTripClaims(c.eligibilities, LostEligibilities(c.eligibilities, s, d), s, d);
    RoundTripClaims(c.redemptions, LostRedemptions(c.redemptions, s, d), s, d);
    RoundTripGrants(c.grants, s, d);
    RoundTripOverrides(c, s, d, subs);
  }

  /** For every database that keeps its constraints and every committed merge, the merge can
      be reversed at once and the reversal restores all the tables. */
  lemma RoundTrip(c: Core, s: UserId, d: UserId, subs: map<ClientId, Sub>)
    requires Constraints(c) && CanMerge(c, s, d, subs)
    ensures CanReverse(MergedCore(c, s, d, subs), SnapshotOf(c, s, d, subs))
    ensures ReversedCore(MergedCore(c, s, d, subs), SnapshotOf(c, s, d, subs)) == c
  {
    ReversibleAtOnce(c, s, d, subs);
    OwnersRestored(c, s, d, subs);
    CollisionsRestored(c, s, d, subs);
  }
}
