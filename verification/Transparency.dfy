/**
 The public transparency page: badge statistics grouped by type and attribute, printed as ranges and
 ordered by what is printed. The page is a function of the printed ranges alone.
 */
module Transparency {
  import opened Ordering
  import opened PublicCounts

  datatype Stat = Stat(badgeType: string, key: string, value: string, count: int)

  /** An attribute value with its raw count, before it is printed. */
  datatype Entry = Entry(value: string, count: int)

  datatype AttrValue = AttrValue(value: string, display: string)
  datatype AttrGroup = AttrGroup(key: string, values: seq<AttrValue>)

  /** rawTotal orders the rows and is never printed. */
  datatype TypeRow = TypeRow(name: string, totalDisplay: string, rawTotal: int, attributes: seq<AttrGroup>)

  /** What the page prints of a row. */
  datatype Printed = Printed(name: string, totalDisplay: string, attributes: seq<AttrGroup>)

  /** The allowlist, and the order of names in the locale as a rank. */
  datatype Policy = Policy(
    allowKey: (string, string) -> bool, allowValue: (string, string, string) -> bool, rank: string -> real)

  ghost predicate NamesApart(p: Policy) {
    forall a, b :: p.rank(a) == p.rank(b) ==> a == b
  }

  predicate IsTotal(s: Stat) {
    s.key == "" && s.value == ""
  }

  predicate IsAttribute(s: Stat, p: Policy) {
    !IsTotal(s) && p.allowKey(s.badgeType, s.key) && p.allowValue(s.badgeType, s.key, s.value)
  }

  // ---------------------------------------------------------------------------
  // What the page holds
  // ---------------------------------------------------------------------------

  ghost predicate HasType(stats: seq<Stat>, t: string, p: Policy) {
    exists i :: 0 <= i < |stats| && stats[i].badgeType == t && (IsTotal(stats[i]) || IsAttribute(stats[i], p))
  }

  /** The count of the last total row of a type, or zero. */
  ghost function Total(stats: seq<Stat>, t: string): int {
    if stats == [] then 0
    else
      var last := stats[|stats| - 1];
      if IsTotal(last) && last.badgeType == t then last.count else Total(stats[..|stats| - 1], t)
  }

  /** The allowlisted values of one attribute of one type. */
  ghost function Entries(stats: seq<Stat>, t: string, k: string, p: Policy): seq<Entry> {
    if stats == [] then []
    else
      var last, rest := stats[|stats| - 1], Entries(stats[..|stats| - 1], t, k, p);
      if IsAttribute(last, p) && last.badgeType == t && last.key == k
      then rest + [Entry(last.value, last.count)] else rest
  }

  function EntryKey(p: Policy): Entry -> Key {
    (e: Entry) => (LowerBound(e.count), p.rank(e.value))
  }

  function GroupKey(p: Policy): AttrGroup -> Key {
    (g: AttrGroup) => (0, p.rank(g.key))
  }

  function RowKey(p: Policy): TypeRow -> Key {
    (r: TypeRow) => (LowerBound(r.rawTotal), p.rank(r.name))
  }

  function Show(es: seq<Entry>): (vs: seq<AttrValue>)
    ensures |vs| == |es|
  {
    seq(|es|, i requires 0 <= i < |es| => AttrValue(es[i].value, Label(es[i].count)))
  }

  /** A group prints its attribute's values, sorted by range and then by name. */
  ghost predicate IsGroup(g: AttrGroup, entries: seq<Entry>, p: Policy) {
    exists es: seq<Entry> :: multiset(es) == multiset(entries) && Sorted(es, EntryKey(p)) && g.values == Show(es)
  }

  ghost predicate AreGroups(groups: seq<AttrGroup>, stats: seq<Stat>, t: string, p: Policy) {
    && (forall i, j :: 0 <= i < j < |groups| ==> groups[i].key != groups[j].key)
    && Sorted(groups, GroupKey(p))
    && (forall k :: Entries(stats, t, k, p) != [] <==> exists i :: 0 <= i < |groups| && groups[i].key == k)
    && (forall i :: 0 <= i < |groups| ==> IsGroup(groups[i], Entries(stats, t, groups[i].key, p), p))
  }

  ghost predicate IsRow(r: TypeRow, stats: seq<Stat>, p: Policy) {
    r.rawTotal == Total(stats, r.name) && r.totalDisplay == Label(r.rawTotal) &&
      AreGroups(r.attributes, stats, r.name, p)
  }

  ghost predicate IsPage(rows: seq<TypeRow>, stats: seq<Stat>, p: Policy) {
    && (forall i, j :: 0 <= i < j < |rows| ==> rows[i].name != rows[j].name)
    && Sorted(rows, RowKey(p))
    && (forall t :: HasType(stats, t, p) <==> exists i :: 0 <= i < |rows| && rows[i].name == t)
    && (forall i :: 0 <= i < |rows| ==> IsRow(rows[i], stats, p))
  }

  ghost function Print(rows: seq<TypeRow>): (r: seq<Printed>)
    ensures |r| == |rows|
  {
    seq(|rows|, i requires 0 <= i < |rows| => Printed(rows[i].name, rows[i].totalDisplay, rows[i].attributes))
  }

  // ---------------------------------------------------------------------------
  // Only ranges matter
  // ---------------------------------------------------------------------------

  /** An entry with its count reduced to the bottom of its range. */
  ghost function Coarse(e: Entry): Entry {
    Entry(e.value, LowerBound(e.count))
  }

  ghost function CoarseAll(es: seq<Entry>): (cs: seq<Entry>)
    ensures |cs| == |es|
  {
    seq(|es|, i requires 0 <= i < |es| => Coarse(es[i]))
  }

  /** Two tables that differ within printed ranges only. */
  ghost predicate SameRanges(a: seq<Stat>, b: seq<Stat>, p: Policy) {
    && (forall t :: HasType(a, t, p) <==> HasType(b, t, p))
    && (forall t :: LowerBound(Total(a, t)) == LowerBound(Total(b, t)))
    && (forall t, k :: multiset(CoarseAll(Entries(a, t, k, p))) == multiset(CoarseAll(Entries(b, t, k, p))))
  }

  lemma ShowOfCoarse(es: seq<Entry>)
    ensures Show(CoarseAll(es)) == Show(es)
  {
    hide Label, LowerBound;
    forall i | 0 <= i < |es| ensures Show(CoarseAll(es))[i] == Show(es)[i] {
      BoundIsItsOwn(es[i].count);
    }
  }

  lemma CoarseSorted(es: seq<Entry>, p: Policy)
    requires Sorted(es, EntryKey(p))
    ensures Sorted(CoarseAll(es), EntryKey(p))
  {
    hide Label, LowerBound;
    var cs := CoarseAll(es);
    forall i, j | 0 <= i < j < |cs| ensures !Before(EntryKey(p)(cs[j]), EntryKey(p)(cs[i])) {
      BoundIsItsOwn(es[i].count);
      BoundIsItsOwn(es[j].count);
      assert !Before(EntryKey(p)(es[j]), EntryKey(p)(es[i]));
    }
  }

  lemma CoarseWithout(es: seq<Entry>, j: nat)
    requires j < |es|
    ensures multiset(CoarseAll(es)) == multiset{Coarse(es[j])} + multiset(CoarseAll(Without(es, j)))
  {
    hide Coarse;
    WithoutBag(CoarseAll(es), j);
    assert Without(CoarseAll(es), j) == CoarseAll(Without(es, j));
  }

  lemma {:induction false} CoarsePermutes(es: seq<Entry>, fs: seq<Entry>)
    requires multiset(es) == multiset(fs)
    ensures multiset(CoarseAll(es)) == multiset(CoarseAll(fs))
    decreases |es|
  {
    hide CoarseAll, Without;
    if es == [] {
      assert |multiset(fs)| == 0;
    } else {
      var j := HeadElsewhere(es, fs);
      CoarsePermutes(es[1..], Without(fs, j));
      CoarseWithout(es, 0);
      WithoutHead(es);
      CoarseWithout(fs, j);
    }
  }

  /** Entries that agree up to ranges print as the same list. */
  lemma SameValues(g: AttrGroup, h: AttrGroup, a: seq<Entry>, b: seq<Entry>, p: Policy)
    requires NamesApart(p) && IsGroup(g, a, p) && IsGroup(h, b, p)
    requires multiset(CoarseAll(a)) == multiset(CoarseAll(b))
    ensures g.values == h.values
  {
    hide Label, LowerBound, CoarseAll, Show, Sorted;
    var es: seq<Entry> :| multiset(es) == multiset(a) && Sorted(es, EntryKey(p)) && g.values == Show(es);
    var fs: seq<Entry> :| multiset(fs) == multiset(b) && Sorted(fs, EntryKey(p)) && h.values == Show(fs);
    CoarsePermutes(es, a);
    CoarsePermutes(fs, b);
    CoarseSorted(es, p);
    CoarseSorted(fs, p);
    CoarseKeys(es, p);
    SortedUnique(CoarseAll(es), CoarseAll(fs), EntryKey(p));
    ShowOfCoarse(es);
    ShowOfCoarse(fs);
  }

  lemma CoarseKeys(es: seq<Entry>, p: Policy)
    requires NamesApart(p)
    ensures forall x, y :: x in CoarseAll(es) && y in CoarseAll(es) && EntryKey(p)(x) == EntryKey(p)(y) ==> x == y
  {
    hide Label, LowerBound;
    forall x | x in CoarseAll(es) ensures LowerBound(x.count) == x.count {
      var i :| 0 <= i < |es| && x == Coarse(es[i]);
      BoundIsItsOwn(es[i].count);
    }
  }

  // ---------------------------------------------------------------------------
  // One page for one set of ranges
  // ---------------------------------------------------------------------------

  datatype Head = Head(name: string, lower: int)

  ghost function HeadKey(p: Policy): Head -> Key {
    (h: Head) => (h.lower, p.rank(h.name))
  }

  ghost function Heads(rows: seq<TypeRow>): (hs: seq<Head>)
    ensures |hs| == |rows|
  {
    seq(|rows|, i requires 0 <= i < |rows| => Head(rows[i].name, LowerBound(rows[i].rawTotal)))
  }

  lemma HeadsOfPage(rows: seq<TypeRow>, stats: seq<Stat>, p: Policy)
    requires IsPage(rows, stats, p)
    ensures Distinct(Heads(rows)) && Sorted(Heads(rows), HeadKey(p))
    ensures forall h :: h in Heads(rows) <==> HasType(stats, h.name, p) && h.lower == LowerBound(Total(stats, h.name))
  {
    hide LowerBound, Total, HasType, AreGroups;
    var hs := Heads(rows);
    forall i, j | 0 <= i < j < |hs| ensures !Before(HeadKey(p)(hs[j]), HeadKey(p)(hs[i])) && hs[i] != hs[j] {
      assert !Before(RowKey(p)(rows[j]), RowKey(p)(rows[i])) && rows[i].name != rows[j].name;
    }
    forall h ensures h in hs <==> HasType(stats, h.name, p) && h.lower == LowerBound(Total(stats, h.name)) {
      if h in hs {
        var i :| 0 <= i < |hs| && hs[i] == h;
        assert IsRow(rows[i], stats, p);
      }
      if HasType(stats, h.name, p) && h.lower == LowerBound(Total(stats, h.name)) {
        var i :| 0 <= i < |rows| && rows[i].name == h.name;
        assert IsRow(rows[i], stats, p) && hs[i] == h;
      }
    }
  }

  ghost function Keys(groups: seq<AttrGroup>): (ks: seq<string>)
    ensures |ks| == |groups|
  {
    seq(|groups|, i requires 0 <= i < |groups| => groups[i].key)
  }

  lemma KeysOfGroups(groups: seq<AttrGroup>, stats: seq<Stat>, t: string, p: Policy)
    requires AreGroups(groups, stats, t, p)
    ensures Distinct(Keys(groups)) && Sorted(Keys(groups), (k: string) => (0, p.rank(k)))
    ensures forall k :: k in Keys(groups) <==> Entries(stats, t, k, p) != []
  {
    hide Entries, IsGroup;
    var ks := Keys(groups);
    var key := (k: string) => (0, p.rank(k));
    forall i, j | 0 <= i < j < |ks| ensures !Before(key(ks[j]), key(ks[i])) && ks[i] != ks[j] {
      assert !Before(GroupKey(p)(groups[j]), GroupKey(p)(groups[i])) && groups[i].key != groups[j].key;
    }
    forall k ensures k in ks <==> Entries(stats, t, k, p) != [] {
      if k in ks { var i :| 0 <= i < |ks| && ks[i] == k; assert groups[i].key == k; }
      if Entries(stats, t, k, p) != [] { var i :| 0 <= i < |groups| && groups[i].key == k; assert ks[i] == k; }
    }
  }

  lemma SameGroups(g: seq<AttrGroup>, h: seq<AttrGroup>, a: seq<Stat>, b: seq<Stat>, t: string, p: Policy)
    requires NamesApart(p) && AreGroups(g, a, t, p) && AreGroups(h, b, t, p)
    requires forall k :: multiset(CoarseAll(Entries(a, t, k, p))) == multiset(CoarseAll(Entries(b, t, k, p)))
    ensures g == h
  {
    hide Entries, IsGroup, CoarseAll, Sorted, Distinct;
    KeysOfGroups(g, a, t, p);
    KeysOfGroups(h, b, t, p);
    forall k ensures k in Keys(g) <==> k in Keys(h) {
      assert |multiset(CoarseAll(Entries(a, t, k, p)))| == |Entries(a, t, k, p)|;
      assert |multiset(CoarseAll(Entries(b, t, k, p)))| == |Entries(b, t, k, p)|;
    }
    DistinctUnique(Keys(g), Keys(h), (k: string) => (0, p.rank(k)));
    forall i | 0 <= i < |g| ensures g[i] == h[i] {
      assert Keys(g)[i] == Keys(h)[i];
      SameValues(g[i], h[i], Entries(a, t, g[i].key, p), Entries(b, t, g[i].key, p), p);
    }
  }

  /** The page is a function of the ranges: tables that agree up to ranges print identically. */
  lemma PageFromRanges(rows: seq<TypeRow>, a: seq<Stat>, rows': seq<TypeRow>, b: seq<Stat>, p: Policy)
    requires NamesApart(p) && IsPage(rows, a, p) && IsPage(rows', b, p) && SameRanges(a, b, p)
    ensures Print(rows) == Print(rows')
  {
    hide Entries, AreGroups, CoarseAll, LowerBound, Label, Total, HasType, Sorted, Distinct, Heads;
    HeadsOfPage(rows, a, p);
    HeadsOfPage(rows', b, p);
    DistinctUnique(Heads(rows), Heads(rows'), HeadKey(p));
    forall i | 0 <= i < |rows| ensures Print(rows)[i] == Print(rows')[i] {
      HeadAt(rows, i);
      HeadAt(rows', i);
      assert IsRow(rows[i], a, p) && IsRow(rows'[i], b, p);
      LabelMeansBound(rows[i].rawTotal, rows'[i].rawTotal);
      SameGroups(rows[i].attributes, rows'[i].attributes, a, b, rows[i].name, p);
    }
  }

  lemma HeadAt(rows: seq<TypeRow>, i: nat)
    requires i < |rows|
    ensures Heads(rows)[i] == Head(rows[i].name, LowerBound(rows[i].rawTotal))
  {
  }

  // ---------------------------------------------------------------------------
  // Replacing every count by the bottom of its range
  // ---------------------------------------------------------------------------

  ghost function CoarseStat(s: Stat): Stat {
    s.(count := LowerBound(s.count))
  }

  ghost function CoarseStats(stats: seq<Stat>): (r: seq<Stat>)
    ensures |r| == |stats|
  {
    seq(|stats|, i requires 0 <= i < |stats| => CoarseStat(stats[i]))
  }

  lemma {:induction false} CoarseTotal(stats: seq<Stat>, t: string)
    ensures Total(CoarseStats(stats), t) == LowerBound(Total(stats, t))
  {
    hide LowerBound;
    if stats == [] {
      BoundIsItsOwn(0);
    } else {
      CoarseTotal(stats[..|stats| - 1], t);
      assert CoarseStats(stats)[..|stats| - 1] == CoarseStats(stats[..|stats| - 1]);
    }
  }

  lemma {:induction false} CoarseEntries(stats: seq<Stat>, t: string, k: string, p: Policy)
    ensures Entries(CoarseStats(stats), t, k, p) == CoarseAll(Entries(stats, t, k, p))
  {
    hide LowerBound;
    if stats != [] {
      CoarseEntries(stats[..|stats| - 1], t, k, p);
      assert CoarseStats(stats)[..|stats| - 1] == CoarseStats(stats[..|stats| - 1]);
    }
  }

  lemma CoarseTwice(es: seq<Entry>)
    ensures CoarseAll(CoarseAll(es)) == CoarseAll(es)
  {
    hide LowerBound;
    forall i | 0 <= i < |es| ensures CoarseAll(CoarseAll(es))[i] == CoarseAll(es)[i] { BoundIsItsOwn(es[i].count); }
  }

  lemma CoarseType(stats: seq<Stat>, t: string, p: Policy)
    ensures HasType(stats, t, p) <==> HasType(CoarseStats(stats), t, p)
  {
    hide LowerBound;
    var cs := CoarseStats(stats);
    assert forall i :: 0 <= i < |cs| ==> cs[i] == CoarseStat(stats[i]);
  }

  lemma CoarseSameRanges(stats: seq<Stat>, p: Policy)
    ensures SameRanges(stats, CoarseStats(stats), p)
  {
    hide LowerBound, Total, Entries, CoarseAll, HasType, CoarseStats;
    forall t ensures HasType(stats, t, p) <==> HasType(CoarseStats(stats), t, p) { CoarseType(stats, t, p); }
    forall t ensures LowerBound(Total(stats, t)) == LowerBound(Total(CoarseStats(stats), t)) {
      CoarseTotal(stats, t);
      BoundIsItsOwn(Total(stats, t));
    }
    forall t, k ensures multiset(CoarseAll(Entries(stats, t, k, p))) ==
                        multiset(CoarseAll(Entries(CoarseStats(stats), t, k, p))) {
      CoarseEntries(stats, t, k, p);
      CoarseTwice(Entries(stats, t, k, p));
    }
  }

  /** Nothing printed, and no position, reveals where in its range a count lies. */
  lemma CountsStayHidden(rows: seq<TypeRow>, rows': seq<TypeRow>, stats: seq<Stat>, p: Policy)
    requires NamesApart(p) && IsPage(rows, stats, p) && IsPage(rows', CoarseStats(stats), p)
    ensures Print(rows) == Print(rows')
  {
    hide IsPage, SameRanges, CoarseStats;
    CoarseSameRanges(stats, p);
    PageFromRanges(rows, stats, rows', CoarseStats(stats), p);
  }

  // ---------------------------------------------------------------------------
  // The order of the table
  // ---------------------------------------------------------------------------

  /** The total rows of a type all print the same. */
  ghost predicate TotalsAgree(stats: seq<Stat>) {
    forall x, y :: x in stats && y in stats && IsTotal(x) && IsTotal(y) && x.badgeType == y.badgeType ==>
      Label(x.count) == Label(y.count)
  }

  lemma {:induction false} TotalOfType(stats: seq<Stat>, t: string)
    ensures (exists x :: x in stats && IsTotal(x) && x.badgeType == t && x.count == Total(stats, t))
            || (Total(stats, t) == 0 && forall x :: x in stats && IsTotal(x) ==> x.badgeType != t)
  {
    if stats != [] {
      var last, rest := stats[|stats| - 1], stats[..|stats| - 1];
      TotalOfType(rest, t);
      assert stats == rest + [last];
      assert last in stats;
    }
  }

  lemma SameMembers<T>(a: seq<T>, b: seq<T>)
    requires multiset(a) == multiset(b)
    ensures forall x :: x in a <==> x in b
  {
    forall x ensures x in a <==> x in b {
      assert x in a <==> x in multiset(a);
      assert x in b <==> x in multiset(b);
    }
  }

  lemma SameTotal(a: seq<Stat>, b: seq<Stat>, t: string)
    requires multiset(a) == multiset(b) && TotalsAgree(a)
    ensures LowerBound(Total(a, t)) == LowerBound(Total(b, t))
  {
    hide LowerBound, Label, Total;
    SameMembers(a, b);
    TotalOfType(a, t);
    TotalOfType(b, t);
    LabelMeansBound(Total(a, t), Total(b, t));
  }

  lemma SameTypes(a: seq<Stat>, b: seq<Stat>, t: string, p: Policy)
    requires forall x :: x in a ==> x in b
    ensures HasType(a, t, p) ==> HasType(b, t, p)
  {
    if HasType(a, t, p) {
      var i :| 0 <= i < |a| && a[i].badgeType == t && (IsTotal(a[i]) || IsAttribute(a[i], p));
      assert a[i] in b;
    }
  }

  lemma {:induction false} EntriesAppend(a: seq<Stat>, b: seq<Stat>, t: string, k: string, p: Policy)
    ensures Entries(a + b, t, k, p) == Entries(a, t, k, p) + Entries(b, t, k, p)
  {
    if b == [] {
      assert a + b == a;
    } else {
      EntriesAppend(a, b[..|b| - 1], t, k, p);
      assert (a + b)[..|a + b| - 1] == a + b[..|b| - 1];
    }
  }

  lemma EntriesWithout(stats: seq<Stat>, j: nat, t: string, k: string, p: Policy)
    requires j < |stats|
    ensures multiset(Entries(stats, t, k, p)) ==
            multiset(Entries([stats[j]], t, k, p)) + multiset(Entries(Without(stats, j), t, k, p))
  {
    hide Entries;
    assert stats == stats[..j] + [stats[j]] + stats[j + 1..];
    EntriesAppend(stats[..j] + [stats[j]], stats[j + 1..], t, k, p);
    EntriesAppend(stats[..j], [stats[j]], t, k, p);
    EntriesAppend(stats[..j], stats[j + 1..], t, k, p);
  }

  lemma {:induction false} EntriesPermute(a: seq<Stat>, b: seq<Stat>, t: string, k: string, p: Policy)
    requires multiset(a) == multiset(b)
    ensures multiset(Entries(a, t, k, p)) == multiset(Entries(b, t, k, p))
    decreases |a|
  {
    hide Entries, Without;
    if a == [] {
      assert |multiset(b)| == 0;
    } else {
      var j := HeadElsewhere(a, b);
      EntriesPermute(a[1..], Without(b, j), t, k, p);
      EntriesWithout(a, 0, t, k, p);
      WithoutHead(a);
      EntriesWithout(b, j, t, k, p);
    }
  }

  /** The order of the table's rows does not show while each type's totals print alike. */
  lemma OrderIndependent(rows: seq<TypeRow>, a: seq<Stat>, rows': seq<TypeRow>, b: seq<Stat>, p: Policy)
    requires NamesApart(p) && IsPage(rows, a, p) && IsPage(rows', b, p)
    requires multiset(a) == multiset(b) && TotalsAgree(a)
    ensures Print(rows) == Print(rows')
  {
    hide IsPage, Total, LowerBound, Label, Entries, CoarseAll, HasType, TotalsAgree;
    SameMembers(a, b);
    forall t ensures HasType(a, t, p) <==> HasType(b, t, p) { SameTypes(a, b, t, p); SameTypes(b, a, t, p); }
    forall t ensures LowerBound(Total(a, t)) == LowerBound(Total(b, t)) { SameTotal(a, b, t); }
    forall t, k ensures multiset(CoarseAll(Entries(a, t, k, p))) == multiset(CoarseAll(Entries(b, t, k, p))) {
      EntriesPermute(a, b, t, k, p);
      CoarsePermutes(Entries(a, t, k, p), Entries(b, t, k, p));
    }
    PageFromRanges(rows, a, rows', b, p);
  }

  /** Otherwise it does: two arrangements of the table print differently. */
  lemma OrderMattersOtherwise(stats: seq<Stat>, p: Policy) returns (a: seq<Stat>, b: seq<Stat>)
    requires !TotalsAgree(stats)
    ensures multiset(a) == multiset(stats) == multiset(b)
    ensures forall rows, rows' :: IsPage(rows, a, p) && IsPage(rows', b, p) ==> Print(rows) != Print(rows')
  {
    var x, y :| x in stats && y in stats && IsTotal(x) && IsTotal(y) && x.badgeType == y.badgeType
                && Label(x.count) != Label(y.count);
    a := MovedLast(stats, x);
    b := MovedLast(stats, y);
    forall rows, rows' | IsPage(rows, a, p) && IsPage(rows', b, p) ensures Print(rows) != Print(rows') {
      TotalsDiffer(rows, a, x, rows', b, y, p);
    }
  }

  lemma TotalsDiffer(rows: seq<TypeRow>, a: seq<Stat>, x: Stat, rows': seq<TypeRow>, b: seq<Stat>, y: Stat, p: Policy)
    requires IsPage(rows, a, p) && a != [] && a[|a| - 1] == x && IsTotal(x)
    requires IsPage(rows', b, p) && b != [] && b[|b| - 1] == y && IsTotal(y)
    requires x.badgeType == y.badgeType && Label(x.count) != Label(y.count)
    ensures Print(rows) != Print(rows')
  {
    hide Label, Sorted, IsRow;
    var i := PageShowsTotal(rows, a, x, p);
    var j := PageShowsTotal(rows', b, y, p);
    assert i < |rows'| && i != j ==> rows'[i].name != rows'[j].name;
    assert Print(rows)[i].name != Print(rows')[j].name || Print(rows)[i].totalDisplay != Print(rows')[j].totalDisplay;
  }

  lemma MovedLast(stats: seq<Stat>, x: Stat) returns (r: seq<Stat>)
    requires x in stats
    ensures multiset(r) == multiset(stats) && r != [] && r[|r| - 1] == x
  {
    var i :| 0 <= i < |stats| && stats[i] == x;
    r := Without(stats, i) + [x];
    WithoutBag(stats, i);
  }

  lemma PageShowsTotal(rows: seq<TypeRow>, stats: seq<Stat>, x: Stat, p: Policy) returns (i: nat)
    requires IsPage(rows, stats, p) && stats != [] && stats[|stats| - 1] == x && IsTotal(x)
    ensures i < |rows| && rows[i].name == x.badgeType && rows[i].totalDisplay == Label(x.count)
  {
    hide Label, LowerBound, AreGroups, Sorted;
    assert HasType(stats, x.badgeType, p);
    i :| 0 <= i < |rows| && rows[i].name == x.badgeType;
    assert IsRow(rows[i], stats, p);
  }
}
