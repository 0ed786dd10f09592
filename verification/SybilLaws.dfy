/**
 Laws of the anti-sybil score: it does not depend on the order badges are listed in, more
 badges never hurt, families count once, and a category's reach is bounded however many
 badges are farmed in it.
 */
module SybilLaws {
  import opened Common
  import opened SybilModel

  // ---------------------------------------------------------------------------
  // Sorting
  // ---------------------------------------------------------------------------

  lemma PrependMax(x: int, t: seq<int>)
    requires Descending(t) && forall y :: y in t ==> y <= x
    ensures Descending([x] + t) && multiset([x] + t) == multiset(t) + multiset{x}
  {
    var u := [x] + t;
    forall i, j | 0 <= i < j < |u| ensures u[i] >= u[j] {
      assert u[j] == t[j - 1] && t[j - 1] in t;
      if i > 0 { assert u[i] == t[i - 1]; }
    }
  }

  lemma EmptyDescends()
    ensures Descending([])
  {
  }

  lemma BelowGreatest(m: multiset<int>, x: int, t: seq<int>)
    requires IsGreatest(m, x) && multiset(t) == m - multiset{x}
    ensures forall y :: y in t ==> y <= x
    ensures multiset(t) + multiset{x} == m
  {
    forall y | y in t ensures y <= x {
      assert y in multiset(t);
    }
  }

  lemma {:induction false} RankingFacts(m: multiset<int>)
    ensures multiset(Ranking(m)) == m && Descending(Ranking(m))
    decreases |m|
  {
    hide Descending;
    if m == multiset{} {
      EmptyDescends();
    } else {
      var x := Greatest(m);
      var rest := m - multiset{x};
      RankingFacts(rest);
      BelowGreatest(m, x, Ranking(rest));
      PrependMax(x, Ranking(rest));
    }
  }

  lemma HeadIsGreatest(s: seq<int>)
    requires Descending(s) && s != []
    ensures Greatest(multiset(s)) == s[0] && multiset(s) - multiset{s[0]} == multiset(s[1..]) && Descending(s[1..])
  {
    assert s == [s[0]] + s[1..];
    var x := Greatest(multiset(s));
    assert s[0] in multiset(s) && x in multiset(s) && x in s;
  }

  lemma {:induction false} RankingUnique(s: seq<int>)
    requires Descending(s)
    ensures s == Ranking(multiset(s))
  {
    hide Descending;
    if s != [] {
      HeadIsGreatest(s);
      RankingUnique(s[1..]);
    }
  }

  function InsertDesc(s: seq<int>, y: int): seq<int> {
    if s == [] || y >= s[0] then [y] + s else [s[0]] + InsertDesc(s[1..], y)
  }

  lemma {:induction false} InsertFacts(s: seq<int>, y: int)
    requires Descending(s)
    ensures multiset(InsertDesc(s, y)) == multiset(s) + multiset{y} && Descending(InsertDesc(s, y))
  {
    if s == [] || y >= s[0] {
      PrependMax(y, s);
    } else {
      InsertFacts(s[1..], y);
      var t := InsertDesc(s[1..], y);
      forall z | z in t ensures z <= s[0] {
        assert z in multiset(s[1..]) + multiset{y};
        assert z in s[1..] || z == y;
      }
      PrependMax(s[0], t);
      assert s == [s[0]] + s[1..];
    }
  }

  lemma RankingInsert(m: multiset<int>, y: int)
    ensures Ranking(m + multiset{y}) == InsertDesc(Ranking(m), y)
  {
    RankingFacts(m);
    InsertFacts(Ranking(m), y);
    RankingUnique(InsertDesc(Ranking(m), y));
  }

  // ---------------------------------------------------------------------------
  // Domination
  // ---------------------------------------------------------------------------

  ghost predicate Dominated(s: seq<int>, t: seq<int>) {
    |s| <= |t| && forall k :: 0 <= k < |s| ==> s[k] <= t[k]
  }

  ghost predicate NonNegative(s: seq<int>) {
    forall k :: 0 <= k < |s| ==> s[k] >= 0
  }

  lemma DivBelow(a: int, k: int, d: nat)
    requires d >= 1 && a < k * d
    ensures a / d < k
  {
    assert (k - a / d) * d > 0;
  }

  lemma ShareMonotone(a: int, b: int, i: nat)
    requires a <= b
    ensures Share(a, i) <= Share(b, i)
  {
    var d := Pow2(i);
    assert b < (b / d + 1) * d;
    DivBelow(a, b / d + 1, d);
  }

  lemma ShareFacts(w: int, i: nat)
    ensures w >= 0 ==> Share(w, i) >= 0
    ensures Share(w, 0) == w
  {
    if w >= 0 { ShareMonotone(0, w, i); }
  }

  lemma {:induction false} DecayDominated(s: seq<int>, t: seq<int>, i: nat)
    requires Dominated(s, t) && NonNegative(t)
    ensures Decay(s, i) <= Decay(t, i)
    decreases |t|
  {
    hide Share;
    if t != [] {
      if s == [] {
        ShareFacts(t[0], i);
        DecayDominated([], t[1..], i + 1);
      } else {
        ShareMonotone(s[0], t[0], i);
        DecayDominated(s[1..], t[1..], i + 1);
      }
    }
  }

  /** A new member pushes every place of the ranking up or leaves it. */
  lemma {:induction false} InsertDominates(s: seq<int>, y: int)
    requires Descending(s)
    ensures Dominated(s, InsertDesc(s, y))
  {
    if s == [] || y >= s[0] {
      var t := [y] + s;
      forall k | 0 <= k < |s| ensures s[k] <= t[k] {
        if k > 0 { assert t[k] == s[k - 1]; }
      }
    } else {
      InsertDominates(s[1..], y);
    }
  }

  /** So does a heavier member in place of a lighter one. */
  lemma {:induction false} RaiseDominates(s: seq<int>, x: int, y: int)
    requires Descending(s) && x <= y
    ensures Dominated(InsertDesc(s, x), InsertDesc(s, y))
  {
    if s == [] || x >= s[0] {
    } else if y >= s[0] {
      InsertLast(s, x, y);
    } else {
      RaiseDominates(s[1..], x, y);
    }
  }

  lemma {:induction false} InsertLast(s: seq<int>, x: int, y: int)
    requires Descending(s) && x <= y && (s == [] || s[0] <= y)
    ensures Dominated(InsertDesc(s, x), [y] + s)
  {
    if s == [] || x >= s[0] {
    } else {
      InsertLast(s[1..], x, s[0]);
      assert s == [s[0]] + s[1..];
    }
  }

  // ---------------------------------------------------------------------------
  // How one more badge changes the members of a category
  // ---------------------------------------------------------------------------

  ghost predicate Positive(m: multiset<int>) {
    forall x :: x in m ==> x > 0
  }

  datatype Growth = Same | Added(w: int) | Raised(x: int, y: int)

  /** Unchanged, one more member, or one member replaced by a heavier one. */
  ghost predicate GrownBy(m: multiset<int>, m': multiset<int>, g: Growth) {
    match g
    case Same => m' == m
    case Added(w) => w > 0 && m' == m + multiset{w}
    case Raised(x, y) => x in m && x < y && m' == m - multiset{x} + multiset{y}
  }

  ghost predicate Grown(m: multiset<int>, m': multiset<int>) {
    exists g :: GrownBy(m, m', g)
  }

  lemma {:induction false} MembersPositive(badges: seq<Badge>, config: Config, ctx: Context, cat: string)
    ensures Positive(Members(badges, config, ctx, cat))
  {
    SinglesPositive(badges, config, ctx, cat);
  }

  lemma {:induction false} SinglesPositive(badges: seq<Badge>, config: Config, ctx: Context, cat: string)
    ensures Positive(Singles(badges, config, ctx, cat))
  {
    if badges != [] {
      SinglesPositive(badges[..|badges| - 1], config, ctx, cat);
    }
  }

  lemma FamilyGrows(rest: multiset<int>, h: int, w: int)
    requires h >= 0 && w > 0
    ensures Grown(rest + FamilyMember(h), rest + FamilyMember(Max(h, w)))
    ensures rest + FamilyMember(Max(h, w)) != multiset{}
  {
    var m, m' := rest + FamilyMember(h), rest + FamilyMember(Max(h, w));
    assert Max(h, w) in m';
    assert GrownBy(m, m', if w <= h then Same else if h == 0 then Added(w) else Raised(h, w));
  }

  lemma PiecesAppend(badges: seq<Badge>, b: Badge, config: Config, ctx: Context, cat: string)
    ensures Singles(badges + [b], config, ctx, cat) ==
            Singles(badges, config, ctx, cat) +
            (if CountedIn(b, config, ctx, cat, NoFamily) then multiset{WeightFor(config, b)} else multiset{})
    ensures forall fam ::
              Heaviest(badges + [b], config, ctx, cat, fam) ==
              if CountedIn(b, config, ctx, cat, fam)
              then Max(Heaviest(badges, config, ctx, cat, fam), WeightFor(config, b))
              else Heaviest(badges, config, ctx, cat, fam)
  {
    assert (badges + [b])[..|badges|] == badges;
  }

  lemma MembersGrow(badges: seq<Badge>, b: Badge, config: Config, ctx: Context, cat: string)
    ensures Grown(Members(badges, config, ctx, cat), Members(badges + [b], config, ctx, cat))
    ensures !(Counted(b, config, ctx) && config.categoryByType[b.kind] == cat) ==>
              Members(badges + [b], config, ctx, cat) == Members(badges, config, ctx, cat)
    ensures Counted(b, config, ctx) && config.categoryByType[b.kind] == cat ==>
              Members(badges + [b], config, ctx, cat) != multiset{}
  {
    hide Singles, Heaviest, FamilyMember, FamilyOf, Grown, WeightFor;
    PiecesAppend(badges, b, config, ctx, cat);
    var m, m' := Members(badges, config, ctx, cat), Members(badges + [b], config, ctx, cat);
    var one := Singles(badges, config, ctx, cat);
    var age, res := Heaviest(badges, config, ctx, cat, AgeOver), Heaviest(badges, config, ctx, cat, Residency);
    var w := WeightFor(config, b);
    if Counted(b, config, ctx) && config.categoryByType[b.kind] == cat {
      match FamilyOf(b.kind)
      case NoFamily =>
        OneMoreSingle(one, FamilyMember(age), FamilyMember(res), w);
      case AgeOver =>
        FamilyGrows(one + FamilyMember(res), age, w);
        assert m == one + FamilyMember(res) + FamilyMember(age);
        assert m' == one + FamilyMember(res) + FamilyMember(Max(age, w));
      case Residency =>
        FamilyGrows(one + FamilyMember(age), res, w);
        assert m' == one + FamilyMember(age) + FamilyMember(Max(res, w));
    } else {
      assert m' == m;
      GrownSelf(m);
    }
  }

  lemma OneMoreSingle(one: multiset<int>, a: multiset<int>, r: multiset<int>, w: int)
    requires w > 0
    ensures Grown(one + a + r, one + multiset{w} + a + r)
    ensures one + multiset{w} + a + r != multiset{}
  {
    assert GrownBy(one + a + r, one + multiset{w} + a + r, Added(w));
    assert w in one + multiset{w} + a + r;
  }

  lemma GrownSelf(m: multiset<int>)
    ensures Grown(m, m)
  {
    assert GrownBy(m, m, Same);
  }

  lemma RankingNonNegative(m: multiset<int>)
    requires Positive(m)
    ensures NonNegative(Ranking(m)) && Descending(Ranking(m)) &&
      (m != multiset{} ==> Ranking(m) != [] && Ranking(m)[0] > 0)
  {
    RankingFacts(m);
    forall k | 0 <= k < |Ranking(m)| ensures Ranking(m)[k] > 0 {
      assert Ranking(m)[k] in multiset(Ranking(m));
    }
  }

  lemma DecayGrowsByInsert(m: multiset<int>, w: int)
    requires Positive(m) && w > 0
    ensures Decay(Ranking(m), 0) <= Decay(Ranking(m + multiset{w}), 0)
    ensures Positive(m + multiset{w}) && m + multiset{w} != multiset{}
  {
    assert w in m + multiset{w};
    hide Decay, Ranking;
    RankingNonNegative(m);
    RankingNonNegative(m + multiset{w});
    RankingInsert(m, w);
    InsertDominates(Ranking(m), w);
    DecayDominated(Ranking(m), Ranking(m + multiset{w}), 0);
  }

  lemma DecayGrowsByRaise(rest: multiset<int>, x: int, y: int)
    requires Positive(rest) && 0 < x < y
    ensures Decay(Ranking(rest + multiset{x}), 0) <= Decay(Ranking(rest + multiset{y}), 0)
  {
    hide Decay, Ranking;
    RankingNonNegative(rest);
    RankingNonNegative(rest + multiset{y});
    RankingInsert(rest, x);
    RankingInsert(rest, y);
    RaiseDominates(Ranking(rest), x, y);
    DecayDominated(Ranking(rest + multiset{x}), Ranking(rest + multiset{y}), 0);
  }

  lemma TakeOutPutIn(m: multiset<int>, x: int, y: int)
    requires Positive(m) && x in m && x < y
    ensures 0 < x && Positive(m - multiset{x}) && m - multiset{x} + multiset{x} == m
    ensures Positive(m - multiset{x} + multiset{y}) && m - multiset{x} + multiset{y} != multiset{}
  {
    assert y in m - multiset{x} + multiset{y};
  }

  lemma DecayGrows(m: multiset<int>, m': multiset<int>)
    requires Positive(m) && Grown(m, m')
    ensures Decay(Ranking(m), 0) <= Decay(Ranking(m'), 0)
    ensures Positive(m') && (m != multiset{} ==> m' != multiset{})
  {
    hide Decay, Ranking, Positive;
    var g :| GrownBy(m, m', g);
    match g
    case Same =>
    case Added(w) =>
      DecayGrowsByInsert(m, w);
    case Raised(x, y) =>
      TakeOutPutIn(m, x, y);
      DecayGrowsByRaise(m - multiset{x}, x, y);
  }

  lemma DecayPositive(m: multiset<int>)
    requires Positive(m) && m != multiset{}
    ensures Decay(Ranking(m), 0) >= 1
  {
    hide Ranking, Share;
    RankingNonNegative(m);
    var s := Ranking(m);
    ShareFacts(s[0], 0);
    DecayDominated([], s[1..], 1);
  }

  /** A category's contribution falls exactly when its first member meets a negative cap. */
  lemma ContributionFallsExactly(m: multiset<int>, m': multiset<int>, config: Config, cat: string)
    requires Positive(m) && Grown(m, m')
    ensures Contribution(m', config, cat) < Contribution(m, config, cat) <==>
            m == multiset{} && m' != multiset{} && cat in config.caps && config.caps[cat] < 0
  {
    hide Decay, Ranking, Grown;
    DecayGrows(m, m');
    if m' != multiset{} { DecayPositive(m'); }
    if m != multiset{} { DecayPositive(m); }
  }

  // ---------------------------------------------------------------------------
  // Order independence
  // ---------------------------------------------------------------------------

  lemma {:induction false} SinglesConcat(a: seq<Badge>, b: seq<Badge>, config: Config, ctx: Context, cat: string)
    ensures Singles(a + b, config, ctx, cat) == Singles(a, config, ctx, cat) + Singles(b, config, ctx, cat)
    decreases |b|
  {
    if b == [] {
      assert a + b == a;
    } else {
      var b' := b[..|b| - 1];
      assert (a + b)[..|a + b| - 1] == a + b';
      SinglesConcat(a, b', config, ctx, cat);
    }
  }

  lemma {:induction false} HeaviestConcat(
    a: seq<Badge>, b: seq<Badge>, config: Config, ctx: Context, cat: string, fam: Family)
    ensures Heaviest(a + b, config, ctx, cat, fam) ==
            Max(Heaviest(a, config, ctx, cat, fam), Heaviest(b, config, ctx, cat, fam))
    decreases |b|
  {
    if b == [] {
      assert a + b == a;
    } else {
      var b' := b[..|b| - 1];
      assert (a + b)[..|a + b| - 1] == a + b';
      HeaviestConcat(a, b', config, ctx, cat, fam);
    }
  }

  /** Moving one badge to the end changes nothing. */
  lemma MoveToEnd(a: seq<Badge>, x: Badge, b: seq<Badge>, config: Config, ctx: Context, cat: string)
    ensures Singles(a + [x] + b, config, ctx, cat) == Singles(a + b + [x], config, ctx, cat)
    ensures forall fam :: Heaviest(a + [x] + b, config, ctx, cat, fam) == Heaviest(a + b + [x], config, ctx, cat, fam)
  {
    SinglesConcat(a + [x], b, config, ctx, cat);
    SinglesConcat(a, [x], config, ctx, cat);
    SinglesConcat(a + b, [x], config, ctx, cat);
    SinglesConcat(a, b, config, ctx, cat);
    forall fam ensures Heaviest(a + [x] + b, config, ctx, cat, fam) == Heaviest(a + b + [x], config, ctx, cat, fam) {
      HeaviestConcat(a + [x], b, config, ctx, cat, fam);
      HeaviestConcat(a, [x], config, ctx, cat, fam);
      HeaviestConcat(a + b, [x], config, ctx, cat, fam);
      HeaviestConcat(a, b, config, ctx, cat, fam);
    }
  }

  lemma TakenOut(a: seq<Badge>, x: Badge, b1: seq<Badge>, b2: seq<Badge>)
    requires multiset(a + [x]) == multiset(b1 + [x] + b2)
    ensures multiset(a) == multiset(b1 + b2)
  {
    forall e ensures multiset(a)[e] == multiset(b1 + b2)[e] {
      assert multiset(a + [x])[e] == multiset(a)[e] + multiset{x}[e];
      assert multiset(b1 + [x] + b2)[e] == multiset(b1 + b2)[e] + multiset{x}[e];
    }
  }

  lemma {:induction false} SamePieces(a: seq<Badge>, b: seq<Badge>, config: Config, ctx: Context, cat: string)
    requires multiset(a) == multiset(b)
    ensures Singles(a, config, ctx, cat) == Singles(b, config, ctx, cat)
    ensures forall fam :: Heaviest(a, config, ctx, cat, fam) == Heaviest(b, config, ctx, cat, fam)
    decreases |a|
  {
    hide Singles, Heaviest;
    if a == [] {
      assert |multiset(b)| == 0;
      assert b == [];
    } else {
      var x, a' := a[|a| - 1], a[..|a| - 1];
      assert a == a' + [x];
      assert x in multiset(b);
      var k :| 0 <= k < |b| && b[k] == x;
      var b1, b2 := b[..k], b[k + 1..];
      assert b == b1 + [x] + b2;
      TakenOut(a', x, b1, b2);
      SamePieces(a', b1 + b2, config, ctx, cat);
      MoveToEnd(b1, x, b2, config, ctx, cat);
      PiecesAppend(a', x, config, ctx, cat);
      PiecesAppend(b1 + b2, x, config, ctx, cat);
    }
  }

  /** The score is a function of the multiset of badges. */
  lemma OrderIndependent(a: seq<Badge>, b: seq<Badge>, config: Config, ctx: Context)
    requires multiset(a) == multiset(b)
    ensures RawScore(a, config, ctx) == RawScore(b, config, ctx)
    ensures QualifyingCategories(a, config, ctx) == QualifyingCategories(b, config, ctx)
    ensures BucketOf(a, config, ctx) == BucketOf(b, config, ctx)
  {
    forall cat ensures CategoryScore(a, config, ctx, cat) == CategoryScore(b, config, ctx, cat) {
      SamePieces(a, b, config, ctx, cat);
    }
    SumCongruent(config.categoryByType.Values,
      cat => CategoryScore(a, config, ctx, cat), cat => CategoryScore(b, config, ctx, cat));
  }

  // ---------------------------------------------------------------------------
  // Monotonicity
  // ---------------------------------------------------------------------------

  predicate CapsNonNegative(config: Config) {
    forall cat :: cat in config.caps ==> config.caps[cat] >= 0
  }

  lemma CategoryMonotone(badges: seq<Badge>, b: Badge, config: Config, ctx: Context, cat: string)
    requires CapsNonNegative(config)
    ensures CategoryScore(badges, config, ctx, cat) <= CategoryScore(badges + [b], config, ctx, cat)
  {
    var m, m' := Members(badges, config, ctx, cat), Members(badges + [b], config, ctx, cat);
    MembersPositive(badges, config, ctx, cat);
    MembersGrow(badges, b, config, ctx, cat);
    ContributionFallsExactly(m, m', config, cat);
  }

  lemma BucketMonotone(raw: int, cats: int, raw': int, cats': int, c: Cutoffs)
    requires raw <= raw' && cats <= cats'
    ensures Bucket(raw, cats, c) <= Bucket(raw', cats', c)
  {
  }

  lemma SubsetSize<T>(a: set<T>, b: set<T>)
    requires a <= b
    ensures |a| <= |b|
  {
    assert b == a + (b - a);
  }

  /** With caps that are not negative, one more badge anywhere in the list never lowers the raw
      score, never disqualifies a category and never lowers the bucket, whatever the cutoffs. */
  lemma MoreBadgesNeverHurt(badges: seq<Badge>, b: Badge, more: seq<Badge>, config: Config, ctx: Context)
    requires CapsNonNegative(config)
    requires multiset(more) == multiset(badges) + multiset{b}
    ensures RawScore(badges, config, ctx) <= RawScore(more, config, ctx)
    ensures QualifyingCategories(badges, config, ctx) <= QualifyingCategories(more, config, ctx)
    ensures BucketOf(badges, config, ctx) <= BucketOf(more, config, ctx)
  {
    hide CategoryScore;
    assert multiset(badges + [b]) == multiset(more);
    OrderIndependent(badges + [b], more, config, ctx);
    forall cat ensures CategoryScore(badges, config, ctx, cat) <= CategoryScore(badges + [b], config, ctx, cat) {
      CategoryMonotone(badges, b, config, ctx, cat);
    }
    SumMonotone(config.categoryByType.Values,
      cat => CategoryScore(badges, config, ctx, cat), cat => CategoryScore(badges + [b], config, ctx, cat));
    SubsetSize(QualifyingCategories(badges, config, ctx), QualifyingCategories(badges + [b], config, ctx));
    BucketMonotone(RawScore(badges, config, ctx), |QualifyingCategories(badges, config, ctx)|,
      RawScore(badges + [b], config, ctx), |QualifyingCategories(badges + [b], config, ctx)|, config.cutoffs);
  }

  /** Without that assumption: a badge lowers the raw score exactly when it is the first member
      of a category whose cap is negative. */
  lemma RawFallsExactly(badges: seq<Badge>, b: Badge, config: Config, ctx: Context)
    ensures RawScore(badges + [b], config, ctx) < RawScore(badges, config, ctx) <==>
            && Counted(b, config, ctx)
            && var cat := config.categoryByType[b.kind];
               cat in config.caps && config.caps[cat] < 0 && Members(badges, config, ctx, cat) == multiset{}
  {
    var cats := config.categoryByType.Values;
    var f, g := (cat: string) => CategoryScore(badges, config, ctx, cat),
      (cat: string) => CategoryScore(badges + [b], config, ctx, cat);
    forall cat | !(Counted(b, config, ctx) && config.categoryByType[b.kind] == cat) ensures f(cat) == g(cat) {
      MembersGrow(badges, b, config, ctx, cat);
    }
    if Counted(b, config, ctx) {
      var cat := config.categoryByType[b.kind];
      assert b.kind in config.categoryByType.Keys && cat in cats;
      SumPick(cats, f, cat);
      SumPick(cats, g, cat);
      SumCongruent(cats - {cat}, f, g);
      MembersPositive(badges, config, ctx, cat);
      MembersGrow(badges, b, config, ctx, cat);
      ContributionFallsExactly(Members(badges, config, ctx, cat), Members(badges + [b], config, ctx, cat), config, cat);
    } else {
      SumCongruent(cats, f, g);
    }
  }

  // ---------------------------------------------------------------------------
  // Families and the geometric bound
  // ---------------------------------------------------------------------------

  lemma {:induction false} HeaviestBounds(badges: seq<Badge>, config: Config, ctx: Context, k: nat)
    requires k < |badges| && Counted(badges[k], config, ctx)
    ensures WeightFor(config, badges[k]) <=
            Heaviest(badges, config, ctx, config.categoryByType[badges[k].kind], FamilyOf(badges[k].kind))
  {
    if k < |badges| - 1 {
      HeaviestBounds(badges[..|badges| - 1], config, ctx, k);
    }
  }

  lemma {:induction false} HeaviestAtMost(
    badges: seq<Badge>, config: Config, ctx: Context, cat: string, fam: Family, w: nat)
    requires forall j :: 0 <= j < |badges| && CountedIn(badges[j], config, ctx, cat, fam) ==>
      WeightFor(config, badges[j]) <= w
    ensures Heaviest(badges, config, ctx, cat, fam) <= w
  {
    if badges != [] {
      HeaviestAtMost(badges[..|badges| - 1], config, ctx, cat, fam, w);
    }
  }

  /** The badges that do not count in the family, in order. */
  ghost function Others(badges: seq<Badge>, config: Config, ctx: Context, cat: string, fam: Family): seq<Badge> {
    if badges == [] then [] else
      Others(badges[..|badges| - 1], config, ctx, cat, fam) +
      (if CountedIn(badges[|badges| - 1], config, ctx, cat, fam) then [] else [badges[|badges| - 1]])
  }

  lemma {:induction false} OthersPieces(
    badges: seq<Badge>, config: Config, ctx: Context, cat: string, fam: Family, other: string)
    requires fam != NoFamily
    ensures var rest := Others(badges, config, ctx, cat, fam);
            && Singles(rest, config, ctx, other) == Singles(badges, config, ctx, other)
            && forall f :: Heaviest(rest, config, ctx, other, f) ==
                 if other == cat && f == fam then 0 else Heaviest(badges, config, ctx, other, f)
  {
    hide Singles, Heaviest, Counted, WeightFor;
    if badges == [] {
      HeaviestAtMost(badges, config, ctx, cat, fam, 0);
    } else {
      var b, init := badges[|badges| - 1], badges[..|badges| - 1];
      var rest := Others(init, config, ctx, cat, fam);
      OthersPieces(init, config, ctx, cat, fam, other);
      assert badges == init + [b];
      PiecesAppend(init, b, config, ctx, other);
      if CountedIn(b, config, ctx, cat, fam) {
        assert Others(badges, config, ctx, cat, fam) == rest;
      } else {
        assert Others(badges, config, ctx, cat, fam) == rest + [b];
        PiecesAppend(rest, b, config, ctx, other);
      }
    }
  }

  /** One badge k, the heaviest of its family in its category, stands for all of them. */
  ghost predicate Stands(badges: seq<Badge>, k: nat, config: Config, ctx: Context, cat: string, fam: Family) {
    && k < |badges| && CountedIn(badges[k], config, ctx, cat, fam)
    && (forall j :: 0 <= j < |badges| && CountedIn(badges[j], config, ctx, cat, fam) ==>
          WeightFor(config, badges[j]) <= WeightFor(config, badges[k]))
  }

  lemma CollapsedMembers(
    badges: seq<Badge>, k: nat, config: Config, ctx: Context, cat: string, fam: Family, other: string)
    requires fam != NoFamily && Stands(badges, k, config, ctx, cat, fam)
    ensures Members(Others(badges, config, ctx, cat, fam) + [badges[k]], config, ctx, other) ==
            Members(badges, config, ctx, other)
  {
    hide Singles, Heaviest, Others, Counted;
    HeaviestBoundsIn(badges, config, ctx, cat, fam, k);
    OthersPieces(badges, config, ctx, cat, fam, other);
    PiecesAppend(Others(badges, config, ctx, cat, fam), badges[k], config, ctx, other);
  }

  lemma HeaviestBoundsIn(badges: seq<Badge>, config: Config, ctx: Context, cat: string, fam: Family, k: nat)
    requires Stands(badges, k, config, ctx, cat, fam)
    ensures Heaviest(badges, config, ctx, cat, fam) == WeightFor(config, badges[k]) > 0
  {
    HeaviestBounds(badges, config, ctx, k);
    HeaviestAtMost(badges, config, ctx, cat, fam, WeightFor(config, badges[k]));
  }

  /** A family counts once per category: dropping all its badges there but one heaviest, in whatever order
      the rest is kept, leaves raw score, qualifying categories and bucket as they are. */
  lemma FamilyCollapses(
    badges: seq<Badge>, k: nat, kept: seq<Badge>, config: Config, ctx: Context, cat: string, fam: Family)
    requires fam != NoFamily && Stands(badges, k, config, ctx, cat, fam)
    requires multiset(kept) == multiset(Others(badges, config, ctx, cat, fam)) + multiset{badges[k]}
    ensures RawScore(kept, config, ctx) == RawScore(badges, config, ctx)
    ensures QualifyingCategories(kept, config, ctx) == QualifyingCategories(badges, config, ctx)
    ensures BucketOf(kept, config, ctx) == BucketOf(badges, config, ctx)
  {
    hide Singles, Heaviest, Members, Others, Counted, WeightFor;
    var one := Others(badges, config, ctx, cat, fam) + [badges[k]];
    assert multiset(one) == multiset(kept);
    OrderIndependent(one, kept, config, ctx);
    forall x ensures CategoryScore(one, config, ctx, x) == CategoryScore(badges, config, ctx, x) {
      CollapsedMembers(badges, k, config, ctx, cat, fam, x);
    }
    SumCongruent(config.categoryByType.Values,
      x => CategoryScore(one, config, ctx, x), x => CategoryScore(badges, config, ctx, x));
  }

  function PopCount(g: nat): nat {
    if g == 0 then 0 else g % 2 + PopCount(g / 2)
  }

  /** g + g/2 + g/4 + ..., n terms. */
  function Halvings(g: nat, n: nat): nat
    decreases n
  {
    if n == 0 then 0 else g + Halvings(g / 2, n - 1)
  }

  lemma MulCancel(a: int, b: int, d: nat)
    requires d >= 1 && a * d < b * d
    ensures a < b
  {
    assert (b - a) * d > 0;
  }

  lemma DivAbove(g: int, p: int, d: nat)
    requires d >= 1 && g >= p * d
    ensures g / d >= p
  {
    assert g < (g / d + 1) * d;
    MulCancel(p, g / d + 1, d);
  }

  lemma DivUnique(g: int, d: nat, p: int, r: int)
    requires d >= 1 && g == p * d + r && 0 <= r < d
    ensures g / d == p
  {
    DivBelow(g, p + 1, d);
    DivAbove(g, p, d);
  }

  lemma ShareHalves(w: int, i: nat)
    ensures Share(w, i + 1) == Share(w, i) / 2
  {
    var d := Pow2(i);
    var q, r := w / d, w % d;
    var p := q / 2;
    assert Pow2(i + 1) == 2 * d;
    assert w == q * d + r;
    if q == 2 * p {
      assert w == p * (2 * d) + r;
      DivUnique(w, 2 * d, p, r);
    } else {
      assert q == 2 * p + 1;
      assert w == p * (2 * d) + (d + r);
      DivUnique(w, 2 * d, p, d + r);
    }
  }

  lemma {:induction false} DecayBelowHalvings(s: seq<int>, i: nat, g: nat)
    requires forall k :: 0 <= k < |s| ==> s[k] <= g
    requires Share(g, i) >= 0
    ensures Decay(s, i) <= Halvings(Share(g, i), |s|)
  {
    hide Share;
    if s != [] {
      ShareMonotone(s[0], g, i);
      ShareHalves(g, i);
      DecayBelowHalvings(s[1..], i + 1, g);
    }
  }

  lemma {:induction false} HalvingsBound(g: nat, n: nat)
    ensures Halvings(g, n) <= 2 * g - PopCount(g)
    ensures Pow2(n) > g ==> Halvings(g, n) == 2 * g - PopCount(g)
    decreases n
  {
    PopCountBound(g);
    if n > 0 {
      HalvingsBound(g / 2, n - 1);
    }
  }

  lemma {:induction false} PopCountBound(g: nat)
    ensures PopCount(g) <= g
  {
    if g > 0 { PopCountBound(g / 2); }
  }

  /** However many badges are held, a category whose heaviest member weighs g contributes at most
      2g - popcount(g), and never more than its cap. */
  lemma GeometricBound(m: multiset<int>, config: Config, cat: string)
    requires Positive(m) && m != multiset{}
    ensures Contribution(m, config, cat) <= 2 * Greatest(m) - PopCount(Greatest(m))
    ensures cat in config.caps ==> Contribution(m, config, cat) <= config.caps[cat]
  {
    hide Share, Ranking, Decay;
    RankingFacts(m);
    var g, s := Greatest(m), Ranking(m);
    forall k | 0 <= k < |s| ensures s[k] <= g { assert s[k] in multiset(s); }
    ShareFacts(g, 0);
    DecayBelowHalvings(s, 0, g);
    HalvingsBound(g, |s|);
  }

  lemma {:induction false} EqualMembers(s: seq<int>, g: nat, i: nat)
    requires forall k :: 0 <= k < |s| ==> s[k] == g
    requires Share(g, i) >= 0
    ensures Decay(s, i) == Halvings(Share(g, i), |s|)
  {
    hide Share;
    if s != [] {
      ShareHalves(g, i);
      EqualMembers(s[1..], g, i + 1);
    }
  }

  /** The bound is reached: enough equal members of weight g attain it. */
  lemma BoundAttained(s: seq<int>, g: nat)
    requires (forall k :: 0 <= k < |s| ==> s[k] == g) && Pow2(|s|) > g
    ensures Decay(s, 0) == 2 * g - PopCount(g)
  {
    hide Share, Decay;
    ShareFacts(g, 0);
    EqualMembers(s, g, 0);
    HalvingsBound(g, |s|);
  }

  /** Such an input: a first badge in a category capped at minus one. */
  lemma NegativeCapLowers(kind: string, attrs: Attributes, issuer: string, now: int) returns (b: Badge, config: Config)
    ensures config.caps == map["c" := -1] && CapsNonNegative(config.(caps := map[])) &&
      Counted(b, config, Context(now, issuer))
    ensures RawScore([b], config, Context(now, issuer)) < RawScore([], config, Context(now, issuer))
  {
    hide RawScore;
    b := Badge(kind, attrs, None, issuer);
    var chain := QualifierChain(kind, attrs);
    config := Config(map[kind := map[chain[0] := 1]], map[kind := "c"], map["c" := -1], Cutoffs(1, 1, 1, 1, 1, 1));
    var none: seq<Badge> := [];
    assert none + [b] == [b] && Members(none, config, Context(now, issuer), "c") == multiset{};
    RawFallsExactly(none, b, config, Context(now, issuer));
  }

  // ---------------------------------------------------------------------------
  // Weights
  // ---------------------------------------------------------------------------

  /** Candidate i is configured and no more specific one is. */
  ghost predicate FirstAt(byQualifier: map<string, int>, chain: seq<string>, i: nat) {
    i < |chain| && chain[i] in byQualifier && forall j :: 0 <= j < i ==> chain[j] !in byQualifier
  }

  lemma {:induction false} FirstConfiguredAt(byQualifier: map<string, int>, chain: seq<string>, i: nat)
    requires FirstAt(byQualifier, chain, i)
    ensures FirstConfigured(byQualifier, chain) == byQualifier[chain[i]]
  {
    if i > 0 {
      assert forall j :: 0 <= j < i - 1 ==> chain[1..][j] == chain[j + 1];
      FirstConfiguredAt(byQualifier, chain[1..], i - 1);
    }
  }

  lemma {:induction false} NoneConfigured(byQualifier: map<string, int>, chain: seq<string>)
    requires forall q :: q in chain ==> q !in byQualifier
    ensures FirstConfigured(byQualifier, chain) == 0
  {
    if chain != [] { NoneConfigured(byQualifier, chain[1..]); }
  }

  /** Some attributes are missing that were there. */
  predicate Fewer(a: Attributes, b: Attributes) {
    && (a.provider == b.provider || a.provider == Missing)
    && (a.olderThanMonths == b.olderThanMonths || a.olderThanMonths == Missing)
    && (a.followersAtLeast == b.followersAtLeast || a.followersAtLeast == Missing)
  }

  /** What is left of a chain when its first candidates are dropped; the wildcard is always the last. */
  predicate FallsBackTo(fewer: seq<string>, more: seq<string>) {
    0 < |fewer| <= |more| && fewer == more[|more| - |fewer|..] && more[|more| - 1] == "*"
  }

  /** Missing attributes drop the most specific candidates and nothing else. */
  lemma FewerAttributesFallBack(kind: string, a: Attributes, b: Attributes)
    requires Fewer(a, b)
    ensures FallsBackTo(QualifierChain(kind, a), QualifierChain(kind, b))
  {
    hide ProviderChain, FallsBackTo, Printed;
    if kind == "oauth-account" {
      OneCandidate(QualifierChain(kind, a), QualifierChain(kind, b));
    } else if kind == "account-age" {
      ProviderFallsBack(a.provider, a.olderThanMonths, b.provider, b.olderThanMonths);
    } else if kind == "wallet-age" {
      OneCandidate(QualifierChain(kind, a), QualifierChain(kind, b));
    } else if kind == "social-following" {
      ProviderFallsBack(a.provider, a.followersAtLeast, b.provider, b.followersAtLeast);
    } else {
      OneCandidate(["*"], ["*"]);
    }
  }

  lemma OneCandidate(fewer: seq<string>, more: seq<string>)
    requires (|more| == 1 && more[0] == "*") || (|more| == 2 && more[1] == "*")
    requires fewer == more || fewer == ["*"]
    ensures FallsBackTo(fewer, more)
  {
    assert more == [more[0]] + more[1..];
    if |more| == 1 {
      assert fewer == more == more[0..];
    } else {
      assert more[0..] == more && more[1..] == [more[1]];
    }
  }

  lemma ProviderFallsBack(p: Json, x: Json, p': Json, x': Json)
    requires (p == p' || p == Missing) && (x == x' || x == Missing)
    ensures FallsBackTo(ProviderChain(p, x), ProviderChain(p', x'))
  {
  }

  /** The most specific configured candidate sets the weight; with none configured it is zero. */
  lemma WeightIsMostSpecific(config: Config, b: Badge)
    ensures b.kind in config.weights ==>
              var byQualifier, chain := config.weights[b.kind], QualifierChain(b.kind, b.attributes);
              && (forall i: nat :: FirstAt(byQualifier, chain, i) ==> WeightFor(config, b) == byQualifier[chain[i]])
              && ((forall q :: q in chain ==> q !in byQualifier) ==> WeightFor(config, b) == 0)
    ensures b.kind !in config.weights ==> WeightFor(config, b) == 0
  {
    hide QualifierChain, FirstConfigured;
    if b.kind in config.weights {
      var byQualifier, chain := config.weights[b.kind], QualifierChain(b.kind, b.attributes);
      forall i: nat | FirstAt(byQualifier, chain, i) ensures WeightFor(config, b) == byQualifier[chain[i]] {
        FirstConfiguredAt(byQualifier, chain, i);
      }
      if forall q :: q in chain ==> q !in byQualifier { NoneConfigured(byQualifier, chain); }
    }
  }
}
