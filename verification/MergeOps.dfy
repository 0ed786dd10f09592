/**
 The merge and reversal transactions, statement by statement, over mutable tables. Each
 transaction works on its own copy of the tables and installs it at the end, so a failed
 one leaves the database as it was.
 */
module MergeOps {
  import opened Common
  import opened MergeModel

  // ---------------------------------------------------------------------------
  // Statements that loop
  // ---------------------------------------------------------------------------

  /** The losers once the donor rows in `seen` have been compared. */
  ghost function LostAmong(t: ClaimTable<Eligible>, s: UserId, seen: set<RowId>): ClaimTable<Eligible> {
    map k | k in t && (
      || (k in seen && LosesToSurvivor(t, s, k))
      || (t[k].owner == Some(s) && LosesToDonor(t, seen, k))) :: t[k]
  }

  lemma NoRival(t: ClaimTable<Eligible>, s: UserId, d: UserId, seen: set<RowId>, k: RowId)
    requires s != d && k in OwnedBy(t, d) - seen
    requires forall j :: j in t && t[j].owner == Some(s) ==> t[j].data.slot != t[k].data.slot
    ensures LostAmong(t, s, seen + {k}) == LostAmong(t, s, seen)
  {
  }

  lemma OnlyRival(t: ClaimTable<Eligible>, s: UserId, d: UserId, seen: set<RowId>, k: RowId, mine: RowId)
    requires s != d && UniqueSlots(t)
    requires k in OwnedBy(t, d) - seen && mine in OwnedBy(t, s) && t[k].data.slot == t[mine].data.slot
    ensures forall j :: j in t && t[j].owner == Some(s) && t[j].data.slot == t[k].data.slot ==> j == mine
    ensures k !in LostAmong(t, s, seen)
    ensures LosesToSurvivor(t, s, k) <==> t[mine].data.info.eligibleAt <= t[k].data.info.eligibleAt
  {
  }

  lemma OneMoreDonor(t: ClaimTable<Eligible>, seen: set<RowId>, k: RowId, x: RowId)
    requires k in t && x in t
    ensures LosesToDonor(t, seen + {k}, x) <==>
            LosesToDonor(t, seen, x) ||
            (t[k].data.slot == t[x].data.slot && t[k].data.info.eligibleAt < t[x].data.info.eligibleAt)
  {
  }

  lemma EarlierRival(t: ClaimTable<Eligible>, s: UserId, d: UserId, seen: set<RowId>, k: RowId, mine: RowId)
    requires s != d && UniqueSlots(t)
    requires k in OwnedBy(t, d) - seen && mine in OwnedBy(t, s) && t[k].data.slot == t[mine].data.slot
    requires t[k].data.info.eligibleAt < t[mine].data.info.eligibleAt
    ensures LostAmong(t, s, seen + {k}) == LostAmong(t, s, seen)[mine := t[mine]]
  {
    hide LosesToDonor, LosesToSurvivor, UniqueSlots;
    OnlyRival(t, s, d, seen, k, mine);
    forall x | x in OwnedBy(t, s)
      ensures LosesToDonor(t, seen + {k}, x) <==> LosesToDonor(t, seen, x) || x == mine
    {
      OneMoreDonor(t, seen, k, x);
    }
  }

  lemma LaterRival(t: ClaimTable<Eligible>, s: UserId, d: UserId, seen: set<RowId>, k: RowId, mine: RowId)
    requires s != d && UniqueSlots(t)
    requires k in OwnedBy(t, d) - seen && mine in OwnedBy(t, s) && t[k].data.slot == t[mine].data.slot
    requires t[mine].data.info.eligibleAt <= t[k].data.info.eligibleAt
    ensures LostAmong(t, s, seen + {k}) == LostAmong(t, s, seen)[k := t[k]]
  {
    hide LosesToDonor, LosesToSurvivor, UniqueSlots;
    OnlyRival(t, s, d, seen, k, mine);
    forall x | x in OwnedBy(t, s)
      ensures LosesToDonor(t, seen + {k}, x) <==> LosesToDonor(t, seen, x)
    {
      OneMoreDonor(t, seen, k, x);
    }
  }

  lemma LostAmongNone(t: ClaimTable<Eligible>, s: UserId, d: UserId)
    ensures LostAmong(t, s, {}) == map[]
  {
  }

  lemma LostAmongAll(t: ClaimTable<Eligible>, s: UserId, d: UserId)
    requires s != d
    ensures LostAmong(t, s, OwnedBy(t, d)) == LostEligibilities(t, s, d)
  {
  }

  /** Compare each donor eligibility with the survivor's for the same badge type. */
  method ResolveEligibilities(t: ClaimTable<Eligible>, s: UserId, d: UserId)
    returns (deleted: ClaimTable<Eligible>, toMove: set<RowId>)
    requires s != d && UniqueSlots(t)
    ensures deleted == LostEligibilities(t, s, d)
    ensures toMove == OwnedBy(t, d) - deleted.Keys
  {
    hide LostAmong, LostEligibilities, LosesToSurvivor, LosesToDonor;
    var survivorByType := map k | k in OwnedBy(t, s) :: t[k].data.slot := k;
    var todo := OwnedBy(t, d);
    ghost var seen: set<RowId> := {};
    deleted, toMove := map[], {};
    LostAmongNone(t, s, d);
    LostAmongAll(t, s, d);
    while todo != {}
      invariant seen + todo == OwnedBy(t, d) && seen !! todo
      invariant deleted == LostAmong(t, s, seen)
      invariant deleted.Keys !! todo
      invariant toMove == seen - deleted.Keys
    {
      var k :| k in todo;
      todo := todo - {k};
      var slot := t[k].data.slot;
      if slot !in survivorByType {
        NoRival(t, s, d, seen, k);
        toMove := toMove + {k};
      } else {
        var mine := survivorByType[slot];
        OnlyRival(t, s, d, seen, k, mine);
        if t[k].data.info.eligibleAt < t[mine].data.info.eligibleAt {
          EarlierRival(t, s, d, seen, k, mine);
          deleted := deleted[mine := t[mine]];
          toMove := toMove + {k};
        } else {
          LaterRival(t, s, d, seen, k, mine);
          deleted := deleted[k := t[k]];
        }
      }
      seen := seen + {k};
      assert toMove == seen - deleted.Keys;
    }
    assert seen == OwnedBy(t, d);
  }

  method ResolveRedemptions(t: ClaimTable<int>, s: UserId, d: UserId)
    returns (deleted: ClaimTable<int>, toMove: set<RowId>)
    requires s != d
    ensures deleted == LostRedemptions(t, s, d)
    ensures toMove == OwnedBy(t, d) - deleted.Keys
  {
    var survivorCodes := set k | k in OwnedBy(t, s) :: t[k].data.slot;
    deleted, toMove := map[], {};
    var todo := OwnedBy(t, d);
    while todo != {}
      invariant todo <= OwnedBy(t, d)
      invariant deleted.Keys <= OwnedBy(t, d) - todo
      invariant forall k :: k in deleted ==> deleted[k] == t[k]
      invariant forall k :: k in OwnedBy(t, d) - todo ==> (k in deleted <==> LosesRedemption(t, s, d, k))
      invariant toMove == OwnedBy(t, d) - todo - deleted.Keys
    {
      var k :| k in todo;
      todo := todo - {k};
      if t[k].data.slot in survivorCodes {
        deleted := deleted[k := t[k]];
      } else {
        toMove := toMove + {k};
      }
    }
  }

  /** Move the entries of `from` at the given clients, one update each; a taken place aborts. */
  method MoveEach<X>(m: PerClient<X>, cs: set<ClientId>, from: UserId, to: UserId)
    returns (ok: bool, r: PerClient<X>, count: nat)
    requires from != to
    ensures ok <==> CanRekey(m, cs, from, to)
    ensures ok ==> r == RekeyPresent(m, cs, from, to) && count == |cs * ClientsOf(m, from)|
  {
    hide Rekey, ClientsOf, Done;
    ok, r, count := true, m, 0;
    var todo := cs;
    ghost var done: set<ClientId> := {};
    MovedNone(m, from, to);
    NoneDone(cs, ClientsOf(m, from));
    while todo != {}
      invariant todo <= cs && done == Done(cs, todo, ClientsOf(m, from)) && count == |done|
      invariant forall c :: c in done ==> (to, c) !in m
      invariant r == Rekey(m, done, from, to)
    {
      var c :| c in todo;
      OneMoreDone(cs, todo, c, ClientsOf(m, from));
      todo := todo - {c};
      if (from, c) in r {
        if (to, c) in r {
          assert (from, c) in m && (to, c) in m;
          ok := false;
          return;
        }
        MovedOneMore(m, done, c, from, to);
        r := (r - {(from, c)})[(to, c) := r[(from, c)]];
        done := done + {c};
        count := count + 1;
      }
    }
  }

  /** The clients with an entry among those already visited. */
  ghost function Done(cs: set<ClientId>, todo: set<ClientId>, clients: set<ClientId>): (r: set<ClientId>)
    ensures r <= clients && r <= cs && r !! todo
    ensures todo == {} ==> r == cs * clients
  {
    (cs - todo) * clients
  }

  lemma NoneDone(cs: set<ClientId>, clients: set<ClientId>)
    ensures Done(cs, cs, clients) == {}
  {
  }

  lemma OneMoreDone(cs: set<ClientId>, todo: set<ClientId>, c: ClientId, clients: set<ClientId>)
    requires c in todo && todo <= cs
    ensures Done(cs, todo - {c}, clients) ==
            if c in clients then Done(cs, todo, clients) + {c} else Done(cs, todo, clients)
  {
  }

  lemma MovedNone<X>(m: PerClient<X>, from: UserId, to: UserId)
    requires from != to
    ensures Rekey(m, {}, from, to) == m
  {
  }

  lemma MovedOneMore<X>(m: PerClient<X>, done: set<ClientId>, c: ClientId, from: UserId, to: UserId)
    requires from != to && done <= ClientsOf(m, from) && c in ClientsOf(m, from) && c !in done
    ensures (from, c) in Rekey(m, done, from, to)
    ensures var r := Rekey(m, done, from, to);
            (r - {(from, c)})[(to, c) := r[(from, c)]] == Rekey(m, done + {c}, from, to)
  {
    var r := Rekey(m, done, from, to);
    var a, b := (r - {(from, c)})[(to, c) := r[(from, c)]], Rekey(m, done + {c}, from, to);
    forall k ensures (k in a <==> k in b) && (k in a ==> a[k] == b[k]) {
      assert k == (k.0, k.1);
    }
  }

  /** The survivor's grant at a client the donor has one for. */
  function AbsorbedGrant(g: PerClient<Grant>, s: UserId, d: UserId, c: ClientId): Grant
    requires (d, c) in g
  {
    if (s, c) in g then Grant(g[(s, c)].id, UnionFields(g[(s, c)].fields, g[(d, c)].fields)) else g[(d, c)]
  }

  /** The grants once the donor's clients in `seen` have been handled. */
  ghost function GrantsAfter(g: PerClient<Grant>, s: UserId, d: UserId, seen: set<ClientId>): (r: PerClient<Grant>)
    requires s != d && seen <= ClientsOf(g, d)
    ensures forall u, c :: (u, c) in r <==> (u == s && c in seen) || ((u, c) in g && !(u == d && c in seen))
    ensures forall u, c :: (u, c) in r ==>
      r[(u, c)] == if u == s && c in seen then AbsorbedGrant(g, s, d, c) else g[(u, c)]
  {
    map k | k in g.Keys + Pairs(s, seen) && !(k.0 == d && k.1 in seen) ::
      if k.0 == s && k.1 in seen then AbsorbedGrant(g, s, d, k.1) else g[k]
  }

  lemma GrantsAfterOneMore(g: PerClient<Grant>, s: UserId, d: UserId, seen: set<ClientId>, c: ClientId)
    requires s != d && seen <= ClientsOf(g, d) && c in ClientsOf(g, d) - seen
    ensures GrantsAfter(g, s, d, seen)[(s, c) := AbsorbedGrant(g, s, d, c)] - {(d, c)} ==
      GrantsAfter(g, s, d, seen + {c})
  {
    hide GrantsAfter, AbsorbedGrant, ClientsOf;
    SameEntries(GrantsAfter(g, s, d, seen)[(s, c) := AbsorbedGrant(g, s, d, c)] - {(d, c)},
               GrantsAfter(g, s, d, seen + {c}));
  }

  lemma GrantsAfterAll(g: PerClient<Grant>, s: UserId, d: UserId)
    requires s != d
    ensures GrantsAfter(g, s, d, {}) == g
    ensures GrantsAfter(g, s, d, ClientsOf(g, d)) == MergedGrants(g, s, d)
  {
    SameEntries(GrantsAfter(g, s, d, {}), g);
    SameEntries(GrantsAfter(g, s, d, ClientsOf(g, d)), MergedGrants(g, s, d));
  }

  /** Union-merge the shared grants and move the donor-only ones. */
  method MergeGrants(g: PerClient<Grant>, s: UserId, d: UserId)
    returns (r: PerClient<Grant>, moved: set<ClientId>, merged: map<ClientId, GrantSplit>)
    requires s != d
    ensures r == MergedGrants(g, s, d)
    ensures moved == MovedGrants(g, s, d)
    ensures merged == GrantSplits(g, s, d)
  {
    hide GrantsAfter, MergedGrants, UnionFields, ClientsOf;
    r, moved, merged := g, {}, map[];
    var todo := ClientsOf(g, d);
    ghost var seen: set<ClientId> := {};
    GrantsAfterAll(g, s, d);
    while todo != {}
      invariant seen + todo == ClientsOf(g, d) && seen !! todo
      invariant r == GrantsAfter(g, s, d, seen)
      invariant moved == seen - ClientsOf(g, s)
      invariant merged.Keys == seen * ClientsOf(g, s)
      invariant forall c :: c in merged ==> merged[c] == GrantSplit(g[(s, c)].fields, g[(d, c)])
    {
      var c :| c in todo;
      todo := todo - {c};
      var dg := g[(d, c)];
      GrantsAfterOneMore(g, s, d, seen, c);
      if (s, c) !in g {
        r := r[(s, c) := dg] - {(d, c)};
        moved := moved + {c};
      } else {
        var sg := g[(s, c)];
        merged := merged[c := GrantSplit(sg.fields, dg)];
        r := r[(s, c) := Grant(sg.id, UnionFields(sg.fields, dg.fields))];
        r := r - {(d, c)};
      }
      seen := seen + {c};
      assert merged.Keys == seen * ClientsOf(g, s);
    }
    assert seen == ClientsOf(g, d);
  }

  /** One create per override; a taken key aborts. */
  method CreateOverrides(o: PerClient<Sub>, u: UserId, added: map<ClientId, Sub>)
    returns (ok: bool, r: PerClient<Sub>)
    ensures ok <==> forall c :: c in added ==> (u, c) !in o
    ensures ok ==> r == AddEntries(o, u, added)
  {
    hide AddEntries;
    ok, r := true, o;
    var todo := added.Keys;
    AddedNone(o, u, added);
    while todo != {}
      invariant todo <= added.Keys
      invariant forall c :: c in added.Keys - todo ==> (u, c) !in o
      invariant r == AddEntries(o, u, added - todo)
    {
      var c :| c in todo;
      AddedOneMore(o, u, added, todo, c);
      if (u, c) in r {
        ok := false;
        return;
      }
      todo := todo - {c};
      r := r[(u, c) := added[c]];
    }
    assert added - {} == added;
  }

  lemma AddedNone<X>(o: PerClient<X>, u: UserId, added: map<ClientId, X>)
    ensures AddEntries(o, u, added - added.Keys) == o
  {
    hide AddEntries;
    SameEntries(AddEntries(o, u, added - added.Keys), o);
  }

  lemma AddedOneMore<X>(o: PerClient<X>, u: UserId, added: map<ClientId, X>, todo: set<ClientId>, c: ClientId)
    requires c in todo && todo <= added.Keys
    ensures (u, c) in AddEntries(o, u, added - todo) <==> (u, c) in o
    ensures AddEntries(o, u, added - todo)[(u, c) := added[c]] == AddEntries(o, u, added - (todo - {c}))
  {
    hide AddEntries;
    SameEntries(AddEntries(o, u, added - todo)[(u, c) := added[c]], AddEntries(o, u, added - (todo - {c})));
  }

  /** Delete the overrides a merge created, where they still hold what it wrote. */
  method DeleteOverrides(o: PerClient<Sub>, u: UserId, dropped: map<ClientId, Sub>) returns (r: PerClient<Sub>)
    ensures r == DropEntries(o, u, dropped)
  {
    r := o;
    var todo := dropped.Keys;
    while todo != {}
      invariant todo <= dropped.Keys
      invariant r == DropEntries(o, u, dropped - todo)
    {
      var c :| c in todo;
      todo := todo - {c};
      if (u, c) in r && r[(u, c)] == dropped[c] {
        r := r - {(u, c)};
      }
      forall k ensures (k in r <==> k in DropEntries(o, u, dropped - todo)) {
        assert k == (k.0, k.1);
      }
    }
    assert dropped - {} == dropped;
  }

  /** One create per deleted row; a taken id or (owner, slot) aborts. */
  method Recreate<V>(t: ClaimTable<V>, lost: ClaimTable<V>) returns (ok: bool, r: ClaimTable<V>)
    requires UniqueSlots(t)
    ensures ok <==> CanRecreate(t, lost)
    ensures ok ==> r == t + lost
  {
    hide UniqueSlots;
    ok, r := true, t;
    var todo := lost.Keys;
    while todo != {}
      invariant todo <= lost.Keys
      invariant t.Keys !! lost.Keys - todo
      invariant r == t + (lost - todo)
      invariant UniqueSlots(r)
    {
      var k :| k in todo;
      todo := todo - {k};
      if k in r || exists j :: j in r && j != k && r[j].owner == lost[k].owner && r[j].data.slot == lost[k].data.slot {
        ok := false;
        RecreateClash(t, lost, todo + {k}, k);
        return;
      }
      NewSlot(r, k, lost[k]);
      r := r[k := lost[k]];
    }
    assert lost - {} == lost;
  }

  lemma NewSlot<V>(t: ClaimTable<V>, k: RowId, row: Owned<Claim<V>>)
    requires UniqueSlots(t) && k !in t
    requires forall j :: j in t && t[j].owner == row.owner ==> t[j].data.slot != row.data.slot
    ensures UniqueSlots(t[k := row])
  {
  }

  lemma RecreateClash<V>(t: ClaimTable<V>, lost: ClaimTable<V>, todo: set<RowId>, k: RowId)
    requires k in todo && todo <= lost.Keys
    requires var r := t + (lost - todo);
             k in r || exists j ::
               j in r && j != k && r[j].owner == lost[k].owner && r[j].data.slot == lost[k].data.slot
    ensures !CanRecreate(t, lost)
  {
    var r := t + (lost - todo);
    if k !in r && t.Keys !! lost.Keys {
      var j :| j in r && j != k && r[j].owner == lost[k].owner && r[j].data.slot == lost[k].data.slot;
      assert (t + lost)[j] == r[j] && (t + lost)[k] == lost[k];
    }
  }

  lemma SplitAt(g: PerClient<Grant>, s: UserId, d: UserId, splits: map<ClientId, GrantSplit>)
    ensures var r := SplitGrants(g, s, d, splits);
            && (forall u, c :: (u, c) in r <==> (u, c) in g || (u == d && c in splits))
            && (forall u, c :: (u, c) in r ==>
                  r[(u, c)] ==
                  if u == d && c in splits then splits[c].donorDeleted
                  else if u == s && c in splits then Grant(g[(u, c)].id, splits[c].survivorPrev)
                  else g[(u, c)])
  {
  }

  lemma SplitOneMore(
    g: PerClient<Grant>, s: UserId, d: UserId, splits: map<ClientId, GrantSplit>, todo: set<ClientId>, c: ClientId)
    requires s != d && c in todo && todo <= splits.Keys
    ensures var r := SplitGrants(g, s, d, splits - todo);
            var mid := if (s, c) in r then r[(s, c) := Grant(r[(s, c)].id, splits[c].survivorPrev)] else r;
            mid[(d, c) := splits[c].donorDeleted] == SplitGrants(g, s, d, splits - (todo - {c}))
  {
    hide SplitGrants;
    SplitAt(g, s, d, splits - todo);
    SplitAt(g, s, d, splits - (todo - {c}));
    var r := SplitGrants(g, s, d, splits - todo);
    var mid := if (s, c) in r then r[(s, c) := Grant(r[(s, c)].id, splits[c].survivorPrev)] else r;
    SameEntries(mid[(d, c) := splits[c].donorDeleted], SplitGrants(g, s, d, splits - (todo - {c})));
  }

  lemma SplitClash(
    g: PerClient<Grant>, s: UserId, d: UserId, splits: map<ClientId, GrantSplit>, todo: set<ClientId>, c: ClientId)
    requires s != d && c in todo && todo <= splits.Keys
    requires forall e :: e in splits.Keys - todo ==> (d, e) !in g
    requires var r := SplitGrants(g, s, d, splits - todo);
             (d, c) in r || exists k :: k in r && r[k].id == splits[c].donorDeleted.id
    ensures !CanSplit(g, s, d, splits)
  {
    hide SplitGrants;
    SplitAt(g, s, d, splits - todo);
    SplitAt(g, s, d, splits);
    var r, all := SplitGrants(g, s, d, splits - todo), SplitGrants(g, s, d, splits);
    if (d, c) !in g && forall e :: e in splits ==> (d, e) !in g {
      var k :| k in r && r[k].id == splits[c].donorDeleted.id;
      assert k == (k.0, k.1) && k in all && all[k].id == r[k].id;
      assert (d, c) in all && all[(d, c)].id == all[k].id && k != (d, c);
    }
  }

  /** Restore the survivor's side and recreate the donor's; a taken key or id aborts. */
  method SplitEach(g: PerClient<Grant>, s: UserId, d: UserId, splits: map<ClientId, GrantSplit>)
    returns (ok: bool, r: PerClient<Grant>)
    requires s != d && UniqueGrantIds(g)
    ensures ok <==> CanSplit(g, s, d, splits)
    ensures ok ==> r == SplitGrants(g, s, d, splits)
  {
    hide SplitGrants, UniqueGrantIds;
    ok, r := true, g;
    var todo := splits.Keys;
    SplitNone(g, s, d, splits);
    while todo != {}
      invariant todo <= splits.Keys
      invariant forall c :: c in splits.Keys - todo ==> (d, c) !in g
      invariant r == SplitGrants(g, s, d, splits - todo)
      invariant UniqueGrantIds(r)
    {
      var c :| c in todo;
      SplitOneMore(g, s, d, splits, todo, c);
      if (s, c) in r {
        SameGrantIds(r, (s, c), splits[c].survivorPrev);
        r := r[(s, c) := Grant(r[(s, c)].id, splits[c].survivorPrev)];
      }
      if (d, c) in r || exists k :: k in r && r[k].id == splits[c].donorDeleted.id {
        ok := false;
        SplitClash(g, s, d, splits, todo, c);
        return;
      }
      SplitAt(g, s, d, splits - todo);
      NewGrantId(r, (d, c), splits[c].donorDeleted);
      r := r[(d, c) := splits[c].donorDeleted];
      todo := todo - {c};
    }
    assert splits - {} == splits;
  }

  lemma SameGrantIds(g: PerClient<Grant>, k: (UserId, ClientId), fields: GrantFields)
    requires UniqueGrantIds(g) && k in g
    ensures UniqueGrantIds(g[k := Grant(g[k].id, fields)])
  {
  }

  lemma NewGrantId(g: PerClient<Grant>, k: (UserId, ClientId), grant: Grant)
    requires UniqueGrantIds(g) && k !in g && forall l :: l in g ==> g[l].id != grant.id
    ensures UniqueGrantIds(g[k := grant])
  {
  }

  lemma SplitNone(g: PerClient<Grant>, s: UserId, d: UserId, splits: map<ClientId, GrantSplit>)
    ensures SplitGrants(g, s, d, splits - splits.Keys) == g
  {
    hide SplitGrants;
    SplitAt(g, s, d, splits - splits.Keys);
    SameEntries(SplitGrants(g, s, d, splits - splits.Keys), g);
  }

  // ---------------------------------------------------------------------------
  // The plain tables, one updateMany each
  // ---------------------------------------------------------------------------

  const PLAIN_TABLES: seq<PlainTable> :=
    [Account, Session, Badge, ShareLink, WizardSession, AuditLog, RecoveryCode, RecoveryAttempt, OidcClient]

  lemma AllPlainTables(t: PlainTable)
    ensures t in PLAIN_TABLES
  {
    assert Account == PLAIN_TABLES[0] && Session == PLAIN_TABLES[1] && Badge == PLAIN_TABLES[2];
    assert ShareLink == PLAIN_TABLES[3] && WizardSession == PLAIN_TABLES[4] && AuditLog == PLAIN_TABLES[5];
    assert RecoveryCode == PLAIN_TABLES[6] && RecoveryAttempt == PLAIN_TABLES[7] && OidcClient == PLAIN_TABLES[8];
  }

  method RePointTables(rows: Table<RowKey, string>, d: UserId, s: UserId) returns (r: Table<RowKey, string>)
    ensures r == RePoint(rows, d, s)
  {
    r := rows;
    for i := 0 to |PLAIN_TABLES|
      invariant r.Keys == rows.Keys
      invariant forall k :: k in rows ==>
        r[k] == if k.table in PLAIN_TABLES[..i] && rows[k].owner == Some(d)
                then Owned(Some(s), rows[k].data) else rows[k]
    {
      var table := PLAIN_TABLES[i];
      r := map k | k in r ::
        if k.table == table && r[k].owner == Some(d) then Owned(Some(s), r[k].data) else r[k];
      assert PLAIN_TABLES[..i + 1] == PLAIN_TABLES[..i] + [table];
    }
    forall t: PlainTable ensures t in PLAIN_TABLES[..|PLAIN_TABLES|] { AllPlainTables(t); }
  }

  /** The given rows that live in one of the first i tables. */
  ghost function InFirst(ids: set<RowKey>, i: nat): set<RowKey>
    requires i <= |PLAIN_TABLES|
  {
    set k | k in ids && k.table in PLAIN_TABLES[..i]
  }

  lemma OneMoreTable(ids: set<RowKey>, i: nat)
    requires i < |PLAIN_TABLES|
    ensures var hit := set k | k in ids && k.table == PLAIN_TABLES[i];
            InFirst(ids, i + 1) == InFirst(ids, i) + hit && InFirst(ids, i) !! hit
  {
    forall j | 0 <= j < i ensures PLAIN_TABLES[j] != PLAIN_TABLES[i] { }
    assert PLAIN_TABLES[..i + 1] == PLAIN_TABLES[..i] + [PLAIN_TABLES[i]];
  }

  lemma EveryTable(ids: set<RowKey>)
    ensures InFirst(ids, 0) == {} && InFirst(ids, |PLAIN_TABLES|) == ids
  {
    forall t: PlainTable ensures t in PLAIN_TABLES[..|PLAIN_TABLES|] { AllPlainTables(t); }
  }

  lemma PointToTwice<K, V>(t: Table<K, V>, a: set<K>, b: set<K>, u: UserId)
    ensures PointTo(PointTo(t, a, u), b, u) == PointTo(t, a + b, u)
    ensures PointTo(t, {}, u) == t
    ensures PointTo(t, a * t.Keys, u) == PointTo(t, a, u)
    ensures PointTo(t, a, u).Keys == t.Keys
  {
  }

  method PointTablesBack(rows: Table<RowKey, string>, ids: set<RowKey>, d: UserId)
    returns (r: Table<RowKey, string>, count: nat)
    ensures r == PointTo(rows, ids, d)
    ensures count == |ids * rows.Keys|
  {
    hide PointTo, InFirst;
    r, count := rows, 0;
    ghost var present := ids * rows.Keys;
    PointToTwice(rows, ids, {}, d);
    EveryTable(present);
    for i := 0 to |PLAIN_TABLES|
      invariant r == PointTo(rows, InFirst(present, i), d) && count == |InFirst(present, i)|
    {
      PointToTwice(rows, InFirst(present, i), {}, d);
      var hit := set k | k in ids && k in r && k.table == PLAIN_TABLES[i];
      assert hit == set k | k in present && k.table == PLAIN_TABLES[i];
      OneMoreTable(present, i);
      PointToTwice(rows, InFirst(present, i), hit, d);
      r := PointTo(r, hit, d);
      count := count + |hit|;
    }
  }
}
