/** How the page is built: rows are accumulated in maps, shaped, attached and sorted. */
module TransparencyBuilder {
  import opened Ordering
  import opened PublicCounts
  import opened Transparency

  type RowsByType = map<string, TypeRow>
  type EntriesByKey = map<string, seq<Entry>>

  function At(accum: map<string, EntriesByKey>, t: string, k: string): seq<Entry> {
    if t in accum && k in accum[t] then accum[t][k] else []
  }

  /** The maps hold what the rows read so far call for. */
  ghost predicate Accumulated(byType: RowsByType, accum: map<string, EntriesByKey>, stats: seq<Stat>, p: Policy) {
    && (forall t :: t in byType <==> HasType(stats, t, p))
    && (forall t :: t in byType ==> byType[t] == TypeRow(t, Label(Total(stats, t)), Total(stats, t), []))
    && (forall t :: t in accum ==> t in byType)
    && (forall t, k :: At(accum, t, k) == Entries(stats, t, k, p))
    && (forall t, k :: t in accum && k in accum[t] ==> accum[t][k] != [])
  }

  lemma TypeStep(stats: seq<Stat>, s: Stat, t: string, p: Policy)
    ensures HasType(stats + [s], t, p) <==>
            HasType(stats, t, p) || (s.badgeType == t && (IsTotal(s) || IsAttribute(s, p)))
  {
    var all := stats + [s];
    if HasType(stats, t, p) {
      var i :| 0 <= i < |stats| && stats[i].badgeType == t && (IsTotal(stats[i]) || IsAttribute(stats[i], p));
      assert all[i] == stats[i];
    }
    assert all[|stats|] == s;
  }

  lemma TotalStep(stats: seq<Stat>, s: Stat, t: string)
    ensures Total(stats + [s], t) == if IsTotal(s) && s.badgeType == t then s.count else Total(stats, t)
  {
    assert (stats + [s])[..|stats|] == stats;
  }

  lemma EntriesStep(stats: seq<Stat>, s: Stat, t: string, k: string, p: Policy)
    ensures Entries(stats + [s], t, k, p) ==
            if IsAttribute(s, p) && s.badgeType == t && s.key == k
            then Entries(stats, t, k, p) + [Entry(s.value, s.count)] else Entries(stats, t, k, p)
  {
    assert (stats + [s])[..|stats|] == stats;
  }

  lemma {:induction false} NoTotalYet(stats: seq<Stat>, t: string, p: Policy)
    requires !HasType(stats, t, p)
    ensures Total(stats, t) == 0
  {
    if stats != [] {
      var last, rest := stats[|stats| - 1], stats[..|stats| - 1];
      assert stats == rest + [last];
      TypeStep(rest, last, t, p);
      NoTotalYet(rest, t, p);
    }
  }

  /** Reading one more row of the table. */
  lemma AccumulateStep(byType: RowsByType, accum: map<string, EntriesByKey>, stats: seq<Stat>, s: Stat,
                       byType': RowsByType, accum': map<string, EntriesByKey>, p: Policy)
    requires Accumulated(byType, accum, stats, p)
    requires var t := s.badgeType;
             if IsTotal(s) then
               byType' == byType[t := TypeRow(t, Label(s.count), s.count, [])] && accum' == accum
             else if IsAttribute(s, p) then
               && byType' == (if t in byType then byType else byType[t := TypeRow(t, Label(0), 0, [])])
               && accum' == accum[t := (if t in accum then accum[t] else map[])
                                         [s.key := At(accum, t, s.key) + [Entry(s.value, s.count)]]]
             else byType' == byType && accum' == accum
    ensures Accumulated(byType', accum', stats + [s], p)
  {
    hide HasType, Total, Entries, Label, IsTotal, IsAttribute;
    var all := stats + [s];
    Excluded(s, p);
    forall t ensures t in byType' <==> HasType(all, t, p) { TypeStep(stats, s, t, p); }
    forall t | t in byType' ensures byType'[t] == TypeRow(t, Label(Total(all, t)), Total(all, t), []) {
      TotalStep(stats, s, t);
      if t !in byType { NoTotalYet(stats, t, p); }
    }
    forall t, k ensures At(accum', t, k) == Entries(all, t, k, p) {
      EntriesStep(stats, s, t, k, p);
      assert At(accum, t, k) == Entries(stats, t, k, p);
    }
  }

  lemma Excluded(s: Stat, p: Policy)
    ensures !(IsTotal(s) && IsAttribute(s, p))
  {
  }

  method Accumulate(stats: seq<Stat>, p: Policy) returns (byType: RowsByType, accum: map<string, EntriesByKey>)
    ensures Accumulated(byType, accum, stats, p)
  {
    hide Accumulated;
    byType, accum := map[], map[];
    NothingYet(p);
    for i := 0 to |stats|
      invariant Accumulated(byType, accum, stats[..i], p)
    {
      var s := stats[i];
      var t := s.badgeType;
      ghost var byType0, accum0 := byType, accum;
      if IsTotal(s) {
        byType := byType[t := TypeRow(t, Label(s.count), s.count, [])];
      } else if p.allowKey(t, s.key) && p.allowValue(t, s.key, s.value) {
        if t !in byType { byType := byType[t := TypeRow(t, Label(0), 0, [])]; }
        var byKey := if t in accum then accum[t] else map[];
        var values := if s.key in byKey then byKey[s.key] else [];
        accum := accum[t := byKey[s.key := values + [Entry(s.value, s.count)]]];
      }
      AccumulateStep(byType0, accum0, stats[..i], s, byType, accum, p);
      assert stats[..i + 1] == stats[..i] + [s];
    }
    assert stats[..|stats|] == stats;
  }

  lemma NothingYet(p: Policy)
    ensures Accumulated(map[], map[], [], p)
  {
  }

  // ---------------------------------------------------------------------------
  // Shaping and sorting
  // ---------------------------------------------------------------------------

  ghost predicate Shaped(groups: seq<AttrGroup>, keys: set<string>, byKey: EntriesByKey, p: Policy) {
    && (forall i, j :: 0 <= i < j < |groups| ==> groups[i].key != groups[j].key)
    && (forall i :: 0 <= i < |groups| ==>
          && groups[i].key in keys && groups[i].key in byKey
          && IsGroup(groups[i], byKey[groups[i].key], p))
    && (forall k :: k in keys ==> exists i :: 0 <= i < |groups| && groups[i].key == k)
  }

  lemma ShapedMore(groups: seq<AttrGroup>, keys: set<string>, byKey: EntriesByKey, g: AttrGroup, p: Policy)
    requires Shaped(groups, keys, byKey, p) && g.key !in keys && g.key in byKey && IsGroup(g, byKey[g.key], p)
    ensures Shaped(groups + [g], keys + {g.key}, byKey, p)
  {
    hide IsGroup;
    var more := groups + [g];
    forall k | k in keys + {g.key} ensures exists i :: 0 <= i < |more| && more[i].key == k {
      if k == g.key {
        assert more[|groups|].key == k;
      } else {
        var i :| 0 <= i < |groups| && groups[i].key == k;
        assert more[i].key == k;
      }
    }
  }

  lemma ShapedSorted(groups: seq<AttrGroup>, sorted: seq<AttrGroup>, keys: set<string>, byKey: EntriesByKey, p: Policy)
    requires Shaped(groups, keys, byKey, p) && multiset(groups) == multiset(sorted)
    ensures Shaped(sorted, keys, byKey, p)
  {
    hide IsGroup;
    SameMembers(groups, sorted);
    assert Distinct(groups);
    DistinctKept(groups, sorted);
    forall i, j | 0 <= i < j < |sorted| ensures sorted[i].key != sorted[j].key {
      assert sorted[i] in groups && sorted[j] in groups && sorted[i] != sorted[j];
    }
    forall i | 0 <= i < |sorted|
      ensures sorted[i].key in keys && sorted[i].key in byKey && IsGroup(sorted[i], byKey[sorted[i].key], p)
    {
      assert sorted[i] in groups;
    }
    forall k | k in keys ensures exists i :: 0 <= i < |sorted| && sorted[i].key == k {
      var i :| 0 <= i < |groups| && groups[i].key == k;
      assert groups[i] in sorted;
    }
  }

  lemma DistinctKept<T>(s: seq<T>, t: seq<T>)
    requires Distinct(s) && multiset(s) == multiset(t)
    ensures Distinct(t)
  {
    forall i, j | 0 <= i < j < |t| ensures t[i] != t[j] {
      CountInDistinct(s, t[i]);
      WithoutBag(t, i);
      assert t[j] == Without(t, i)[j - 1];
      assert t[j] in multiset(Without(t, i));
    }
  }

  method BuildGroups(byKey: EntriesByKey, p: Policy) returns (groups: seq<AttrGroup>)
    ensures Shaped(groups, byKey.Keys, byKey, p) && Sorted(groups, GroupKey(p))
  {
    hide IsGroup, Shaped, Sorted;
    groups := [];
    var todo := byKey.Keys;
    NothingShaped(byKey, p);
    while todo != {}
      invariant todo <= byKey.Keys && Shaped(groups, byKey.Keys - todo, byKey, p)
      decreases |todo|
    {
      ghost var done := byKey.Keys - todo;
      var k :| k in todo;
      var values := SortBy(byKey[k], EntryKey(p));
      var g := AttrGroup(k, Show(values));
      GroupBuilt(g, values, byKey[k], p);
      ShapedMore(groups, done, byKey, g, p);
      groups := groups + [g];
      todo := todo - {k};
      assert byKey.Keys - todo == done + {k};
    }
    assert byKey.Keys - todo == byKey.Keys;
    var sorted := SortBy(groups, GroupKey(p));
    ShapedSorted(groups, sorted, byKey.Keys, byKey, p);
    groups := sorted;
  }

  lemma NothingShaped(byKey: EntriesByKey, p: Policy)
    ensures Shaped([], byKey.Keys - byKey.Keys, byKey, p)
  {
  }

  lemma GroupBuilt(g: AttrGroup, es: seq<Entry>, entries: seq<Entry>, p: Policy)
    requires multiset(es) == multiset(entries) && Sorted(es, EntryKey(p)) && g.values == Show(es)
    ensures IsGroup(g, entries, p)
  {
  }

  /** The groups of a type's accumulated entries are the groups the page calls for. */
  lemma GroupsFit(groups: seq<AttrGroup>, byKey: EntriesByKey, stats: seq<Stat>, t: string, p: Policy)
    requires Shaped(groups, byKey.Keys, byKey, p) && Sorted(groups, GroupKey(p))
    requires forall k :: Entries(stats, t, k, p) == if k in byKey then byKey[k] else []
    requires forall k :: k in byKey ==> byKey[k] != []
    ensures AreGroups(groups, stats, t, p)
  {
    hide IsGroup, Entries, Sorted;
    forall k ensures Entries(stats, t, k, p) != [] <==> exists i :: 0 <= i < |groups| && groups[i].key == k {
      assert Entries(stats, t, k, p) != [] <==> k in byKey.Keys;
    }
  }

  lemma NoGroupsFit(stats: seq<Stat>, t: string, p: Policy)
    requires forall k :: Entries(stats, t, k, p) == []
    ensures AreGroups([], stats, t, p)
  {
    hide Entries, IsGroup;
    forall k ensures Entries(stats, t, k, p) == [] { }
  }

  /** Shape every type's attributes and give each type its row. */
  method BuildRows(byType: RowsByType, accum: map<string, EntriesByKey>, ghost stats: seq<Stat>, p: Policy)
    returns (rows: seq<TypeRow>)
    requires Accumulated(byType, accum, stats, p)
    ensures forall i, j :: 0 <= i < j < |rows| ==> rows[i].name != rows[j].name
    ensures forall i :: 0 <= i < |rows| ==> rows[i].name in byType && IsRow(rows[i], stats, p)
    ensures forall t :: t in byType ==> exists i :: 0 <= i < |rows| && rows[i].name == t
  {
    hide AreGroups, Shaped, Sorted, Entries, Total, Label, HasType;
    rows := [];
    var todo := byType.Keys;
    while todo != {}
      invariant todo <= byType.Keys
      invariant forall i, j :: 0 <= i < j < |rows| ==> rows[i].name != rows[j].name
      invariant forall i :: 0 <= i < |rows| ==> rows[i].name in byType.Keys - todo && IsRow(rows[i], stats, p)
      invariant forall t :: t in byType.Keys - todo ==> exists i :: 0 <= i < |rows| && rows[i].name == t
      decreases |todo|
    {
      ghost var done := byType.Keys - todo;
      var t :| t in todo;
      var row := byType[t];
      if t in accum {
        var groups := BuildGroups(accum[t], p);
        AtType(byType, accum, stats, t, p);
        GroupsFit(groups, accum[t], stats, t, p);
        row := row.(attributes := groups);
      } else {
        AtType(byType, accum, stats, t, p);
        NoGroupsFit(stats, t, p);
      }
      ghost var before := rows;
      rows := rows + [row];
      todo := todo - {t};
      Covered(before, row, done, byType.Keys - todo);
    }
    assert byType.Keys - todo == byType.Keys;
  }

  lemma AtType(byType: RowsByType, accum: map<string, EntriesByKey>, stats: seq<Stat>, t: string, p: Policy)
    requires Accumulated(byType, accum, stats, p)
    ensures forall k :: Entries(stats, t, k, p) == if t in accum && k in accum[t] then accum[t][k] else []
    ensures t in accum ==> forall k :: k in accum[t] ==> accum[t][k] != []
  {
    hide Entries, HasType, Total, Label;
    forall k ensures Entries(stats, t, k, p) == if t in accum && k in accum[t] then accum[t][k] else [] {
      assert At(accum, t, k) == Entries(stats, t, k, p);
    }
  }

  lemma Covered(rows: seq<TypeRow>, row: TypeRow, names: set<string>, names': set<string>)
    requires forall t :: t in names ==> exists i :: 0 <= i < |rows| && rows[i].name == t
    requires forall t :: t in names' ==> t in names || t == row.name
    ensures forall t :: t in names' ==> exists i :: 0 <= i < |rows + [row]| && (rows + [row])[i].name == t
  {
    var all := rows + [row];
    forall t | t in names' ensures exists i :: 0 <= i < |all| && all[i].name == t {
      if t in names {
        var i :| 0 <= i < |rows| && rows[i].name == t;
        assert all[i].name == t;
      } else {
        assert all[|rows|].name == t;
      }
    }
  }

  lemma RowsSorted(rows: seq<TypeRow>, sorted: seq<TypeRow>, stats: seq<Stat>, p: Policy)
    requires multiset(rows) == multiset(sorted) && Sorted(sorted, RowKey(p))
    requires forall i, j :: 0 <= i < j < |rows| ==> rows[i].name != rows[j].name
    requires forall i :: 0 <= i < |rows| ==> HasType(stats, rows[i].name, p) && IsRow(rows[i], stats, p)
    requires forall t :: HasType(stats, t, p) ==> exists i :: 0 <= i < |rows| && rows[i].name == t
    ensures IsPage(sorted, stats, p)
  {
    hide IsRow, HasType, Sorted;
    SameMembers(rows, sorted);
    assert Distinct(rows);
    DistinctKept(rows, sorted);
    forall i, j | 0 <= i < j < |sorted| ensures sorted[i].name != sorted[j].name {
      assert sorted[i] in rows && sorted[j] in rows && sorted[i] != sorted[j];
    }
    forall i | 0 <= i < |sorted| ensures HasType(stats, sorted[i].name, p) && IsRow(sorted[i], stats, p) {
      assert sorted[i] in rows;
    }
    forall t | HasType(stats, t, p) ensures exists i :: 0 <= i < |sorted| && sorted[i].name == t {
      var i :| 0 <= i < |rows| && rows[i].name == t;
      assert rows[i] in sorted;
    }
  }

  /** Build the page. */
  method BuildPublicTypeRows(stats: seq<Stat>, p: Policy) returns (rows: seq<TypeRow>)
    ensures IsPage(rows, stats, p)
  {
    hide IsPage, IsRow, HasType, Sorted, Label, Total, Entries;
    var byType, accum := Accumulate(stats, p);
    var built := BuildRows(byType, accum, stats, p);
    rows := SortBy(built, RowKey(p));
    RowsSorted(built, rows, stats, p);
  }

  /** Nothing off the allowlist reaches the page. */
  lemma OnlyAllowlisted(rows: seq<TypeRow>, stats: seq<Stat>, p: Policy, i: nat, j: nat, v: AttrValue)
    requires IsPage(rows, stats, p) && i < |rows| && j < |rows[i].attributes| && v in rows[i].attributes[j].values
    ensures p.allowKey(rows[i].name, rows[i].attributes[j].key)
    ensures p.allowValue(rows[i].name, rows[i].attributes[j].key, v.value)
  {
    hide Label, Sorted, Entries, Total, HasType;
    assert IsRow(rows[i], stats, p);
    var t, g := rows[i].name, rows[i].attributes[j];
    assert IsGroup(g, Entries(stats, t, g.key, p), p);
    var es: seq<Entry> :| multiset(es) == multiset(Entries(stats, t, g.key, p)) && g.values == Show(es);
    var n :| 0 <= n < |es| && g.values[n] == v;
    SameMembers(es, Entries(stats, t, g.key, p));
    assert Show(es)[n] == AttrValue(es[n].value, Label(es[n].count)) && es[n] in es;
    EntryAllowed(stats, t, g.key, es[n], p);
  }

  lemma {:induction false} EntryAllowed(stats: seq<Stat>, t: string, k: string, e: Entry, p: Policy)
    requires e in Entries(stats, t, k, p)
    ensures p.allowKey(t, k) && p.allowValue(t, k, e.value)
  {
    var last, rest := stats[|stats| - 1], stats[..|stats| - 1];
    if e in Entries(rest, t, k, p) { EntryAllowed(rest, t, k, e, p); }
  }

  // ---------------------------------------------------------------------------
  // Nothing is missing, and the order is as announced
  // ---------------------------------------------------------------------------

  lemma {:induction false} EntryThere(stats: seq<Stat>, p: Policy, n: nat)
    requires n < |stats| && IsAttribute(stats[n], p)
    ensures Entry(stats[n].value, stats[n].count) in Entries(stats, stats[n].badgeType, stats[n].key, p)
  {
    if n < |stats| - 1 { EntryThere(stats[..|stats| - 1], p, n); }
  }

  /** Every allowlisted statistic is on the page, under its type and attribute, with its printed count. */
  lemma EverythingShown(rows: seq<TypeRow>, stats: seq<Stat>, p: Policy, n: nat) returns (i: nat, j: nat)
    requires IsPage(rows, stats, p) && n < |stats| && (stats[n].key != "" || stats[n].value != "")
    requires p.allowKey(stats[n].badgeType, stats[n].key)
    requires p.allowValue(stats[n].badgeType, stats[n].key, stats[n].value)
    ensures i < |rows| && j < |rows[i].attributes|
    ensures rows[i].name == stats[n].badgeType && rows[i].attributes[j].key == stats[n].key
    ensures AttrValue(stats[n].value, Label(stats[n].count)) in rows[i].attributes[j].values
  {
    hide Label, Sorted, Entries, Total;
    var t, k := stats[n].badgeType, stats[n].key;
    assert IsAttribute(stats[n], p);
    assert HasType(stats, t, p);
    i :| 0 <= i < |rows| && rows[i].name == t;
    assert IsRow(rows[i], stats, p);
    EntryThere(stats, p, n);
    j :| 0 <= j < |rows[i].attributes| && rows[i].attributes[j].key == k;
    var e := Entry(stats[n].value, stats[n].count);
    assert IsGroup(rows[i].attributes[j], Entries(stats, t, k, p), p);
    var es: seq<Entry> :| multiset(es) == multiset(Entries(stats, t, k, p)) && rows[i].attributes[j].values == Show(es);
    SameMembers(es, Entries(stats, t, k, p));
    var m :| 0 <= m < |es| && es[m] == e;
    assert Show(es)[m] == AttrValue(e.value, Label(e.count));
  }

  /** Every type with a total is on the page, with the printed count of its last total. */
  lemma TotalShown(rows: seq<TypeRow>, stats: seq<Stat>, p: Policy, n: nat) returns (i: nat)
    requires IsPage(rows, stats, p) && n < |stats| && stats[n].key == "" && stats[n].value == ""
    requires forall m :: n < m < |stats| && stats[m].key == "" && stats[m].value == "" ==>
      stats[m].badgeType != stats[n].badgeType
    ensures i < |rows| && rows[i].name == stats[n].badgeType && rows[i].totalDisplay == Label(stats[n].count)
  {
    hide Label, Sorted, Entries, Total, AreGroups;
    assert HasType(stats, stats[n].badgeType, p);
    i :| 0 <= i < |rows| && rows[i].name == stats[n].badgeType;
    assert IsRow(rows[i], stats, p);
    LastTotal(stats, n);
  }

  lemma {:induction false} LastTotal(stats: seq<Stat>, n: nat)
    requires n < |stats| && IsTotal(stats[n])
    requires forall m :: n < m < |stats| && IsTotal(stats[m]) ==> stats[m].badgeType != stats[n].badgeType
    ensures Total(stats, stats[n].badgeType) == stats[n].count
  {
    if n < |stats| - 1 { LastTotal(stats[..|stats| - 1], n); }
  }

  /** One key is not after another: a larger range first, and names in order within a range. */
  predicate NotAfter(countA: int, nameA: string, countB: int, nameB: string, p: Policy) {
    LowerBound(countA) > LowerBound(countB) ||
    (LowerBound(countA) == LowerBound(countB) && p.rank(nameA) <= p.rank(nameB))
  }

  /** Types from the largest range to the smallest, and by name within a range; attributes by name; their values
      like the types. */
  lemma PageInOrder(rows: seq<TypeRow>, stats: seq<Stat>, p: Policy)
    requires IsPage(rows, stats, p)
    ensures forall i, j :: 0 <= i < j < |rows| ==>
              NotAfter(Total(stats, rows[i].name), rows[i].name, Total(stats, rows[j].name), rows[j].name, p)
    ensures forall r, i, j :: 0 <= r < |rows| && 0 <= i < j < |rows[r].attributes| ==>
              p.rank(rows[r].attributes[i].key) <= p.rank(rows[r].attributes[j].key)
    ensures forall r, g :: 0 <= r < |rows| && 0 <= g < |rows[r].attributes| ==>
              ValuesInOrder(rows[r].attributes[g], Entries(stats, rows[r].name, rows[r].attributes[g].key, p), p)
  {
    hide Label, LowerBound, Total, Entries, Show;
    forall i, j | 0 <= i < j < |rows|
      ensures NotAfter(Total(stats, rows[i].name), rows[i].name, Total(stats, rows[j].name), rows[j].name, p)
    {
      assert IsRow(rows[i], stats, p) && IsRow(rows[j], stats, p);
      assert !Before(RowKey(p)(rows[j]), RowKey(p)(rows[i]));
    }
    forall r, i, j | 0 <= r < |rows| && 0 <= i < j < |rows[r].attributes|
      ensures p.rank(rows[r].attributes[i].key) <= p.rank(rows[r].attributes[j].key)
    {
      assert IsRow(rows[r], stats, p);
      assert !Before(GroupKey(p)(rows[r].attributes[j]), GroupKey(p)(rows[r].attributes[i]));
    }
    forall r, g | 0 <= r < |rows| && 0 <= g < |rows[r].attributes|
      ensures ValuesInOrder(rows[r].attributes[g], Entries(stats, rows[r].name, rows[r].attributes[g].key, p), p)
    {
      assert IsRow(rows[r], stats, p);
      GroupInOrder(rows[r].attributes[g], Entries(stats, rows[r].name, rows[r].attributes[g].key, p), p);
    }
  }

  /** The group prints its entries in order. */
  ghost predicate ValuesInOrder(g: AttrGroup, entries: seq<Entry>, p: Policy) {
    exists es: seq<Entry> ::
      && multiset(es) == multiset(entries) && g.values == Show(es)
      && forall m, n :: 0 <= m < n < |es| ==> NotAfter(es[m].count, es[m].value, es[n].count, es[n].value, p)
  }

  lemma GroupInOrder(g: AttrGroup, entries: seq<Entry>, p: Policy)
    requires IsGroup(g, entries, p)
    ensures ValuesInOrder(g, entries, p)
  {
    hide Label, LowerBound, Show;
    var es: seq<Entry> :| multiset(es) == multiset(entries) && Sorted(es, EntryKey(p)) && g.values == Show(es);
    forall m, n | 0 <= m < n < |es| ensures NotAfter(es[m].count, es[m].value, es[n].count, es[n].value, p) {
      assert !Before(EntryKey(p)(es[n]), EntryKey(p)(es[m]));
    }
  }
}
