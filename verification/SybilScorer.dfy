/**
 sybilScore as it runs: badges are folded into a map of categories to maps of family keys,
 the members of each category are sorted and summed with decay. Proved equal to SybilModel.
 */
module SybilScorer {
  import opened Common
  import opened SybilModel
  import opened SybilLaws
  import Ordering

  /** Family members share a key, every other badge gets a number of its own. */
  datatype Key = FamilyKey(fam: Family) | SingleKey(number: nat)

  function KeyFor(kind: string, memberSeq: nat): Key {
    if FamilyOf(kind) == NoFamily then SingleKey(memberSeq) else FamilyKey(FamilyOf(kind))
  }

  type Families = map<Key, int>

  // ---------------------------------------------------------------------------
  // The values of a map, with repetition
  // ---------------------------------------------------------------------------

  ghost function ValuesOf(m: Families): multiset<int> {
    if m == map[] then multiset{} else
      var k :| k in m;
      multiset{m[k]} + ValuesOf(m - {k})
  }

  lemma ValuesUnfold(m: Families) returns (j: Key)
    requires m != map[]
    ensures j in m && ValuesOf(m) == multiset{m[j]} + ValuesOf(m - {j})
  {
    j :| j in m && ValuesOf(m) == multiset{m[j]} + ValuesOf(m - {j});
  }

  lemma Swap(a: int, b: int, x: multiset<int>)
    ensures multiset{a} + (multiset{b} + x) == multiset{b} + (multiset{a} + x)
  {
  }

  lemma {:induction false} ValuesPick(m: Families, k: Key)
    requires k in m
    ensures ValuesOf(m) == multiset{m[k]} + ValuesOf(m - {k})
    decreases |m|
  {
    hide ValuesOf;
    var j := ValuesUnfold(m);
    if j != k {
      ValuesPick(m - {j}, k);
      ValuesPick(m - {k}, j);
      assert m - {j} - {k} == m - {k} - {j};
      Swap(m[j], m[k], ValuesOf(m - {j} - {k}));
    }
  }

  lemma ValuesSet(m: Families, k: Key, w: int)
    ensures k !in m ==> ValuesOf(m[k := w]) == multiset{w} + ValuesOf(m)
    ensures k in m ==>
              && ValuesOf(m[k := w]) == multiset{w} + ValuesOf(m - {k})
              && ValuesOf(m) == multiset{m[k]} + ValuesOf(m - {k})
  {
    hide ValuesOf;
    var n := m[k := w];
    ValuesPick(n, k);
    if k in m {
      ValuesPick(m, k);
      assert n - {k} == m - {k};
    } else {
      assert n - {k} == m;
    }
  }

  // ---------------------------------------------------------------------------
  // Folding the badges
  // ---------------------------------------------------------------------------

  ghost function Row(per: map<string, Families>, cat: string): Families {
    if cat in per then per[cat] else map[]
  }

  /** What one category's map holds after the badges seen so far. */
  ghost predicate RowIs(row: Families, seen: seq<Badge>, config: Config, ctx: Context, cat: string, memberSeq: nat) {
    && ValuesOf(row) == Members(seen, config, ctx, cat)
    && (forall k :: k in row && k.SingleKey? ==> k.number < memberSeq)
    && FamilyKey(NoFamily) !in row
    && FamilyIs(row, AgeOver, Heaviest(seen, config, ctx, cat, AgeOver))
    && FamilyIs(row, Residency, Heaviest(seen, config, ctx, cat, Residency))
  }

  ghost predicate FamilyIs(row: Families, fam: Family, w: int) {
    if w > 0 then FamilyKey(fam) in row && row[FamilyKey(fam)] == w else FamilyKey(fam) !in row
  }

  ghost predicate PerCategoryIs(
    per: map<string, Families>, seen: seq<Badge>, config: Config, ctx: Context, memberSeq: nat) {
    && (forall cat :: RowIs(Row(per, cat), seen, config, ctx, cat, memberSeq))
    && (forall cat :: cat in per ==> per[cat] != map[] && cat in config.categoryByType.Values)
  }

  /** A badge that does not count, or counts elsewhere, leaves a category's row right. */
  lemma RowUntouched(
    row: Families, seen: seq<Badge>, b: Badge, config: Config, ctx: Context, cat: string, n: nat, n': nat)
    requires RowIs(row, seen, config, ctx, cat, n) && n <= n'
    requires !(Counted(b, config, ctx) && config.categoryByType[b.kind] == cat)
    ensures RowIs(row, seen + [b], config, ctx, cat, n')
  {
    hide Singles, Heaviest, WeightFor, FamilyOf;
    PiecesAppend(seen, b, config, ctx, cat);
  }

  lemma OneMore(w: int, a: multiset<int>, b: multiset<int>, c: multiset<int>)
    ensures multiset{w} + (a + b + c) == a + multiset{w} + b + c
  {
  }

  lemma RowSingle(row: Families, seen: seq<Badge>, b: Badge, config: Config, ctx: Context, cat: string, n: nat)
    requires RowIs(row, seen, config, ctx, cat, n)
    requires CountedIn(b, config, ctx, cat, NoFamily)
    ensures SingleKey(n) !in row
    ensures RowIs(row[SingleKey(n) := WeightFor(config, b)], seen + [b], config, ctx, cat, n + 1)
  {
    hide Singles, Heaviest, WeightFor, FamilyOf, ValuesOf, FamilyMember;
    PiecesAppend(seen, b, config, ctx, cat);
    ValuesSet(row, SingleKey(n), WeightFor(config, b));
    OneMore(WeightFor(config, b), Singles(seen, config, ctx, cat),
      FamilyMember(Heaviest(seen, config, ctx, cat, AgeOver)),
      FamilyMember(Heaviest(seen, config, ctx, cat, Residency)));
  }

  /** The entry of a family after one more badge of weight w. */
  ghost function Raise(row: Families, fam: Family, w: int): Families {
    var k := FamilyKey(fam);
    if k !in row || w > row[k] then row[k := w] else row
  }

  lemma RaiseValues(row: Families, fam: Family, w: int, h: int, rest: multiset<int>)
    requires w > 0 && h >= 0 && FamilyIs(row, fam, h) && ValuesOf(row) == rest + FamilyMember(h)
    ensures ValuesOf(Raise(row, fam, w)) == rest + FamilyMember(Max(h, w))
    ensures FamilyIs(Raise(row, fam, w), fam, Max(h, w))
  {
    hide ValuesOf;
    var k := FamilyKey(fam);
    ValuesSet(row, k, w);
    if h > 0 {
      Cancel(h, ValuesOf(row - {k}), rest);
    }
  }

  lemma RowFamily(
    row: Families, seen: seq<Badge>, b: Badge, config: Config, ctx: Context, cat: string, fam: Family, n: nat)
    requires RowIs(row, seen, config, ctx, cat, n)
    requires fam != NoFamily && CountedIn(b, config, ctx, cat, fam)
    ensures RowIs(Raise(row, fam, WeightFor(config, b)), seen + [b], config, ctx, cat, n)
  {
    hide Singles, Heaviest, WeightFor, FamilyOf, ValuesOf, FamilyMember, Members;
    PiecesAppend(seen, b, config, ctx, cat);
    MembersSplit(seen, config, ctx, cat, fam);
    MembersSplit(seen + [b], config, ctx, cat, fam);
    var h, other := Heaviest(seen, config, ctx, cat, fam),
      Heaviest(seen, config, ctx, cat, if fam == AgeOver then Residency else AgeOver);
    RaiseValues(row, fam, WeightFor(config, b), h, Singles(seen, config, ctx, cat) + FamilyMember(other));
    assert Singles(seen, config, ctx, cat) + multiset{} == Singles(seen, config, ctx, cat);
  }

  lemma MembersSplit(seen: seq<Badge>, config: Config, ctx: Context, cat: string, fam: Family)
    requires fam != NoFamily
    ensures Members(seen, config, ctx, cat) ==
            Singles(seen, config, ctx, cat)
            + FamilyMember(Heaviest(seen, config, ctx, cat, if fam == AgeOver then Residency else AgeOver))
            + FamilyMember(Heaviest(seen, config, ctx, cat, fam))
  {
  }

  lemma Cancel(h: int, a: multiset<int>, b: multiset<int>)
    requires multiset{h} + a == b + multiset{h}
    ensures a == b
  {
    forall e ensures a[e] == b[e] {
      assert (multiset{h} + a)[e] == (b + multiset{h})[e];
    }
  }

  method Collect(badges: seq<Badge>, config: Config, ctx: Context) returns (per: map<string, Families>)
    ensures forall cat :: ValuesOf(Row(per, cat)) == Members(badges, config, ctx, cat)
    ensures forall cat :: cat in per ==> per[cat] != map[] && cat in config.categoryByType.Values
  {
    hide Singles, Heaviest, WeightFor, FamilyOf, ValuesOf, RowIs, QualifierChain, Members;
    per := map[];
    var memberSeq := 0;
    CollectNothing(config, ctx);
    for i := 0 to |badges|
      invariant PerCategoryIs(per, badges[..i], config, ctx, memberSeq)
    {
      var b := badges[i];
      ghost var old_, seen, n := per, badges[..i], memberSeq;
      assert badges[..i + 1] == seen + [b];
      var weight := WeightFor(config, b);
      if b.issuer == ctx.nativeDid && !(b.expiresAt.Some? && b.expiresAt.value < ctx.now)
         && weight > 0 && b.kind in config.categoryByType {
        var cat := config.categoryByType[b.kind];
        assert b.kind in config.categoryByType.Keys;
        var families := if cat in per then per[cat] else map[];
        assert families == Row(per, cat);
        var key := KeyFor(b.kind, memberSeq);
        if FamilyOf(b.kind) == NoFamily {
          RowSingle(families, seen, b, config, ctx, cat, memberSeq);
          memberSeq := memberSeq + 1;
        } else {
          RowFamily(families, seen, b, config, ctx, cat, FamilyOf(b.kind), memberSeq);
        }
        if key !in families || weight > families[key] {
          families := families[key := weight];
        }
        per := per[cat := families];
        assert families != map[];
      }
      forall cat ensures RowIs(Row(per, cat), seen + [b], config, ctx, cat, memberSeq) {
        if !(Counted(b, config, ctx) && config.categoryByType[b.kind] == cat) {
          RowUntouched(Row(old_, cat), seen, b, config, ctx, cat, n, memberSeq);
        }
      }
    }
    assert badges[..|badges|] == badges;
    forall cat ensures ValuesOf(Row(per, cat)) == Members(badges, config, ctx, cat) {
      RowValues(Row(per, cat), badges, config, ctx, cat, memberSeq);
    }
  }

  lemma RowValues(row: Families, seen: seq<Badge>, config: Config, ctx: Context, cat: string, n: nat)
    requires RowIs(row, seen, config, ctx, cat, n)
    ensures ValuesOf(row) == Members(seen, config, ctx, cat)
  {
  }

  lemma CollectNothing(config: Config, ctx: Context)
    ensures PerCategoryIs(map[], [], config, ctx, 0)
  {
  }

  // ---------------------------------------------------------------------------
  // Scoring one category
  // ---------------------------------------------------------------------------

  method ValuesList(m: Families) returns (s: seq<int>)
    ensures multiset(s) == ValuesOf(m)
  {
    hide ValuesOf;
    s := [];
    var rest := m;
    ValuesNone();
    while rest != map[]
      invariant multiset(s) + ValuesOf(rest) == ValuesOf(m)
      decreases |rest|
    {
      var k :| k in rest;
      ValuesPick(rest, k);
      s := s + [rest[k]];
      rest := rest - {k};
    }
  }

  lemma ValuesNone()
    ensures ValuesOf(map[]) == multiset{}
  {
  }

  method SortDescending(a: seq<int>) returns (s: seq<int>)
    ensures s == Ranking(multiset(a))
  {
    var key := (w: int) => (w, 0.0);
    s := Ordering.SortBy(a, key);
    forall i, j | 0 <= i < j < |s| ensures s[i] >= s[j] { assert !Ordering.Before(key(s[j]), key(s[i])); }
    RankingUnique(s);
  }

  method ScoreCategory(families: Families, config: Config, cat: string) returns (contribution: int)
    requires families != map[]
    ensures contribution == Contribution(ValuesOf(families), config, cat)
  {
    hide Share, Ranking, ValuesOf;
    var values := ValuesList(families);
    var memberWeights := SortDescending(values);
    contribution := 0;
    for i := 0 to |memberWeights|
      invariant contribution + Decay(memberWeights[i..], i) == Decay(memberWeights, 0)
    {
      assert memberWeights[i..][1..] == memberWeights[i + 1..];
      contribution := contribution + Share(memberWeights[i], i);
    }
    if cat in config.caps {
      contribution := Min(contribution, config.caps[cat]);
    }
    ValuesSome(families);
  }

  lemma ValuesSome(m: Families)
    requires m != map[]
    ensures ValuesOf(m) != multiset{}
  {
    var k :| k in m;
    ValuesPick(m, k);
    assert m[k] in ValuesOf(m);
  }

  // ---------------------------------------------------------------------------
  // The score
  // ---------------------------------------------------------------------------

  method SybilScore(badges: seq<Badge>, config: Config, ctx: Context) returns (raw: int, bucket: nat)
    ensures raw == RawScore(badges, config, ctx)
    ensures bucket == BucketOf(badges, config, ctx)
  {
    hide ValuesOf, Members, CategoryScore, SumOver, QualifyingCategories;
    var per := Collect(badges, config, ctx);
    ghost var f := (cat: string) => CategoryScore(badges, config, ctx, cat);
    raw := 0;
    var qualifyingCats := 0;
    var todo := per.Keys;
    ghost var qualified: set<string> := {};
    while todo != {}
      invariant todo <= per.Keys
      invariant raw + SumOver(todo, f) == SumOver(per.Keys, f)
      invariant qualified <= per.Keys - todo && qualifyingCats == |qualified|
      invariant forall cat :: cat in per.Keys - todo ==> (cat in qualified <==> f(cat) >= CATEGORY_QUALIFY_THRESHOLD)
    {
      var cat :| cat in todo;
      var contribution := ScoreCategory(per[cat], config, cat);
      ScoreOfRow(per, badges, config, ctx, cat);
      assert contribution == f(cat);
      SumPick(todo, f, cat);
      raw := raw + contribution;
      todo := todo - {cat};
      if contribution >= CATEGORY_QUALIFY_THRESHOLD {
        qualifyingCats := qualifyingCats + 1;
        qualified := qualified + {cat};
      }
    }
    SumNone(f);
    EmptyCategories(per, badges, config, ctx);
    SumIgnoresZeros(config.categoryByType.Values, per.Keys, f);
    QualifiedAre(qualified, per.Keys, badges, config, ctx);
    bucket := Bucket(raw, qualifyingCats, config.cutoffs);
  }

  lemma SumNone<T(!new)>(f: T -> int)
    ensures SumOver({}, f) == 0
  {
  }

  lemma ScoreOfRow(per: map<string, Families>, badges: seq<Badge>, config: Config, ctx: Context, cat: string)
    requires cat in per && ValuesOf(Row(per, cat)) == Members(badges, config, ctx, cat)
    ensures Contribution(ValuesOf(per[cat]), config, cat) == CategoryScore(badges, config, ctx, cat)
  {
    hide ValuesOf, Members, Contribution;
  }

  lemma QualifiedAre(qualified: set<string>, cats: set<string>, badges: seq<Badge>, config: Config, ctx: Context)
    requires qualified <= cats <= config.categoryByType.Values
    requires forall cat :: cat in cats ==>
      (cat in qualified <==> CategoryScore(badges, config, ctx, cat) >= CATEGORY_QUALIFY_THRESHOLD)
    requires forall cat :: cat !in cats ==> CategoryScore(badges, config, ctx, cat) == 0
    ensures qualified == QualifyingCategories(badges, config, ctx)
  {
    hide CategoryScore;
  }

  lemma EmptyCategories(per: map<string, Families>, badges: seq<Badge>, config: Config, ctx: Context)
    requires forall cat :: ValuesOf(Row(per, cat)) == Members(badges, config, ctx, cat)
    ensures forall cat :: cat !in per ==> CategoryScore(badges, config, ctx, cat) == 0
  {
    hide ValuesOf, Members;
    forall cat | cat !in per ensures CategoryScore(badges, config, ctx, cat) == 0 {
      assert Row(per, cat) == map[];
      ValuesNone();
    }
  }
}
