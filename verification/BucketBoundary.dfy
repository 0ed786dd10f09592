/**
 The instant at which a badge expires: the batched pass no longer counts it, the direct computation
 still does. Which holdings show the difference under some configuration, exactly.
 */
module BucketBoundary {
  import opened Common
  import opened SybilModel
  import opened SybilLaws
  import opened BucketStats

  ghost predicate Expiring(r: StoredBadge, u: UserId, native: string, now: int) {
    r.userId == u && r.badge.issuer == native && r.badge.expiresAt == Some(now)
  }

  /** Another badge of the same family kind stands in for it. */
  ghost predicate Covered(rows: seq<StoredBadge>, r: StoredBadge, u: UserId, native: string, now: int) {
    && FamilyOf(r.badge.kind) != NoFamily
    && exists q :: q in rows && q.userId == u && Selected(q.badge, native, now) && q.badge.kind == r.badge.kind
  }

  ghost predicate AllCovered(rows: seq<StoredBadge>, u: UserId, native: string, now: int) {
    forall r :: r in rows && Expiring(r, u, native, now) ==> Covered(rows, r, u, native, now)
  }

  // ---------------------------------------------------------------------------
  // Covered badges change nothing
  // ---------------------------------------------------------------------------

  /** Family kinds have no qualifiers, so a weight goes with the kind. */
  lemma KindFixesWeight(config: Config, x: Badge, y: Badge)
    requires FamilyOf(x.kind) != NoFamily && x.kind == y.kind
    ensures WeightFor(config, x) == WeightFor(config, y)
  {
    FamilyKinds(x.kind, x.attributes);
    FamilyKinds(y.kind, y.attributes);
  }

  lemma FamilyKinds(kind: string, attrs: Attributes)
    requires FamilyOf(kind) != NoFamily
    ensures QualifierChain(kind, attrs) == ["*"]
  {
    assert kind[0] == 'a' || kind[0] == 'r';
    assert kind[0] == 'a' ==> kind[1] == 'g';
    assert "oauth-account"[0] == 'o' && "account-age"[1] == 'c' && "wallet-age"[0] == 'w' &&
      "social-following"[0] == 's';
  }

  lemma {:induction false} HeldMembers(rows: seq<StoredBadge>, u: UserId, native: string, now: int)
    ensures forall r :: r in rows && r.userId == u ==> r.badge in HeldBy(rows, u)
    ensures forall r :: r in rows && r.userId == u && Selected(r.badge, native, now) ==>
      r.badge in HeldInBatch(rows, u, native, now)
    ensures forall b :: b in HeldBy(rows, u) ==> exists r :: r in rows && r.userId == u && r.badge == b
  {
    if rows != [] {
      var last, rest := rows[|rows| - 1], rows[..|rows| - 1];
      HeldMembers(rest, u, native, now);
      assert rows == rest + [last];
    }
  }

  lemma AtMostHeaviest(badges: seq<Badge>, b: Badge, config: Config, ctx: Context)
    requires b in badges && Counted(b, config, ctx)
    ensures WeightFor(config, b) <= Heaviest(badges, config, ctx, config.categoryByType[b.kind], FamilyOf(b.kind))
  {
    hide Heaviest, WeightFor;
    var k :| 0 <= k < |badges| && badges[k] == b;
    HeaviestBounds(badges, config, ctx, k);
  }

  /** What the selected badges miss is covered by them. */
  lemma {:induction false} CoveredPieces(
    p: seq<StoredBadge>, rows: seq<StoredBadge>, u: UserId, config: Config, native: string, now: int, cat: string)
    requires AllCovered(rows, u, native, now) && forall r :: r in p ==> r in rows
    ensures var ctx := Context(now, native);
            && Singles(HeldBy(p, u), config, ctx, cat) == Singles(HeldInBatch(p, u, native, now), config, ctx, cat)
            && (forall fam :: fam != NoFamily ==>
                  && Heaviest(HeldBy(p, u), config, ctx, cat, fam) <=
                     Heaviest(HeldInBatch(rows, u, native, now), config, ctx, cat, fam)
                  && Heaviest(HeldInBatch(p, u, native, now), config, ctx, cat, fam) <=
                     Heaviest(HeldBy(p, u), config, ctx, cat, fam))
  {
    hide Singles, Heaviest, WeightFor, FamilyOf, AllCovered, Covered;
    var ctx := Context(now, native);
    PiecesOfNothing(config, ctx, cat);
    if p != [] {
      var r, rest := p[|p| - 1], p[..|p| - 1];
      assert r in p && forall x :: x in rest ==> x in p;
      CoveredPieces(rest, rows, u, config, native, now, cat);
      var batch, all := HeldInBatch(rest, u, native, now), HeldBy(rest, u);
      PiecesAppend(batch, r.badge, config, ctx, cat);
      PiecesAppend(all, r.badge, config, ctx, cat);
      assert batch + [] == batch && all + [] == all;
      if r.userId == u && Counted(r.badge, config, ctx) {
        CoveredWeight(rows, r, u, config, native, now);
      }
    }
  }

  lemma CoveredWeight(rows: seq<StoredBadge>, r: StoredBadge, u: UserId, config: Config, native: string, now: int)
    requires AllCovered(rows, u, native, now) && r in rows && r.userId == u &&
      Counted(r.badge, config, Context(now, native))
    ensures !Selected(r.badge, native, now) ==> FamilyOf(r.badge.kind) != NoFamily
    ensures WeightFor(config, r.badge) <=
            Heaviest(HeldInBatch(rows, u, native, now), config, Context(now, native),
              config.categoryByType[r.badge.kind], FamilyOf(r.badge.kind))
  {
    hide Heaviest, FamilyOf, WeightFor;
    var ctx, sel := Context(now, native), HeldInBatch(rows, u, native, now);
    HeldMembers(rows, u, native, now);
    if Selected(r.badge, native, now) {
      AtMostHeaviest(sel, r.badge, config, ctx);
    } else {
      assert Expiring(r, u, native, now) && Covered(rows, r, u, native, now);
      var q :| q in rows && q.userId == u && Selected(q.badge, native, now) && q.badge.kind == r.badge.kind;
      KindFixesWeight(config, r.badge, q.badge);
      AtMostHeaviest(sel, q.badge, config, ctx);
    }
  }

  lemma CoveredBatchIsDirect(rows: seq<StoredBadge>, u: UserId, config: Config, native: string, now: int)
    requires AllCovered(rows, u, native, now)
    ensures BatchBucket(rows, u, config, native, now) == DirectBucket(rows, u, config, native, now)
  {
    hide Singles, Heaviest, AllCovered, BucketOf;
    var ctx := Context(now, native);
    var a, b := HeldInBatch(rows, u, native, now), HeldBy(rows, u);
    forall cat ensures Members(a, config, ctx, cat) == Members(b, config, ctx, cat) {
      CoveredPieces(rows, rows, u, config, native, now, cat);
    }
    SameMembersSameBucket(a, b, config, ctx);
  }

  lemma SameMembersSameBucket(a: seq<Badge>, b: seq<Badge>, config: Config, ctx: Context)
    requires forall cat :: Members(a, config, ctx, cat) == Members(b, config, ctx, cat)
    ensures BucketOf(a, config, ctx) == BucketOf(b, config, ctx)
  {
    hide Members;
    forall cat ensures CategoryScore(a, config, ctx, cat) == CategoryScore(b, config, ctx, cat) {
      assert Members(a, config, ctx, cat) == Members(b, config, ctx, cat);
    }
    SumCongruent(config.categoryByType.Values,
      cat => CategoryScore(a, config, ctx, cat), cat => CategoryScore(b, config, ctx, cat));
    assert QualifyingCategories(a, config, ctx) == QualifyingCategories(b, config, ctx);
  }

  // ---------------------------------------------------------------------------
  // An uncovered badge shows
  // ---------------------------------------------------------------------------

  /** One kind of badge, one weight, one category, and a first cutoff. */
  ghost function OneKind(kind: string, w: int, cutoff: int): Config {
    Config(map[kind := map["*" := w]], map[kind := "c"], map[],
      Cutoffs(cutoff, cutoff + 1, cutoff + 1, cutoff + 1, 0, 0))
  }

  ghost function Copies(n: nat, w: int): seq<int> {
    seq(n, _ => w)
  }

  lemma OneKindWeight(kind: string, w: int, cutoff: int, b: Badge)
    ensures WeightFor(OneKind(kind, w, cutoff), b) == if b.kind == kind then w else 0
  {
    var config := OneKind(kind, w, cutoff);
    if b.kind == kind {
      var table, chain := config.weights[kind], QualifierChain(b.kind, b.attributes);
      WildcardLast(b.kind, b.attributes);
      AnyConfigured(table, chain, w);
    }
  }

  lemma WildcardLast(kind: string, attrs: Attributes)
    ensures QualifierChain(kind, attrs) != [] && "*" in QualifierChain(kind, attrs)
  {
    var chain := QualifierChain(kind, attrs);
    assert chain[|chain| - 1] == "*";
  }

  lemma {:induction false} AnyConfigured(table: map<string, int>, chain: seq<string>, w: int)
    requires table == map["*" := w] && "*" in chain
    ensures FirstConfigured(table, chain) == w
  {
    if chain[0] != "*" { AnyConfigured(table, chain[1..], w); }
  }

  /** How many members the only category has. */
  ghost function MemberCount(badges: seq<Badge>, kind: string, ctx: Context): nat {
    if FamilyOf(kind) == NoFamily then CountOf(badges, kind, ctx) else if CountOf(badges, kind, ctx) > 0 then 1 else 0
  }

  ghost predicate Current(b: Badge, kind: string, ctx: Context) {
    b.kind == kind && b.issuer == ctx.nativeDid && !(b.expiresAt.Some? && b.expiresAt.value < ctx.now)
  }

  ghost function CountOf(badges: seq<Badge>, kind: string, ctx: Context): nat {
    if badges == [] then 0
    else CountOf(badges[..|badges| - 1], kind, ctx) + if Current(badges[|badges| - 1], kind, ctx) then 1 else 0
  }

  lemma {:induction false} OneKindSingles(badges: seq<Badge>, kind: string, w: int, cutoff: int, ctx: Context)
    requires w > 0
    ensures Singles(badges, OneKind(kind, w, cutoff), ctx, "c") ==
            multiset(Copies(if FamilyOf(kind) == NoFamily then CountOf(badges, kind, ctx) else 0, w))
  {
    hide WeightFor, FamilyOf, Heaviest, CountedIn, OneKind;
    if badges == [] {
      assert Copies(0, w) == [];
    } else {
      var b, rest := badges[|badges| - 1], badges[..|badges| - 1];
      OneKindSingles(rest, kind, w, cutoff, ctx);
      OneKindWeight(kind, w, cutoff, b);
      var n := CountOf(rest, kind, ctx);
      assert Copies(n + 1, w) == Copies(n, w) + [w];
      CountedCurrent(b, kind, w, cutoff, ctx);
    }
  }

  lemma CountedCurrent(b: Badge, kind: string, w: int, cutoff: int, ctx: Context)
    requires w > 0
    ensures forall fam :: CountedIn(b, OneKind(kind, w, cutoff), ctx, "c", fam) <==>
      Current(b, kind, ctx) && FamilyOf(kind) == fam
  {
    hide WeightFor, FamilyOf;
    OneKindWeight(kind, w, cutoff, b);
  }

  lemma {:induction false} OneKindHeaviest(
    badges: seq<Badge>, kind: string, w: int, cutoff: int, ctx: Context, fam: Family)
    requires w > 0
    ensures Heaviest(badges, OneKind(kind, w, cutoff), ctx, "c", fam) ==
            if FamilyOf(kind) == fam && CountOf(badges, kind, ctx) > 0 then w else 0
  {
    hide WeightFor, FamilyOf, CountedIn, OneKind;
    if badges != [] {
      var b, rest := badges[|badges| - 1], badges[..|badges| - 1];
      OneKindHeaviest(rest, kind, w, cutoff, ctx, fam);
      OneKindWeight(kind, w, cutoff, b);
      CountedCurrent(b, kind, w, cutoff, ctx);
    }
  }

  lemma OneKindMembers(badges: seq<Badge>, kind: string, w: int, cutoff: int, ctx: Context)
    requires w > 0
    ensures Members(badges, OneKind(kind, w, cutoff), ctx, "c") == multiset(Copies(MemberCount(badges, kind, ctx), w))
  {
    hide Singles, Heaviest, FamilyOf;
    OneKindSingles(badges, kind, w, cutoff, ctx);
    OneKindHeaviest(badges, kind, w, cutoff, ctx, AgeOver);
    OneKindHeaviest(badges, kind, w, cutoff, ctx, Residency);
    assert Copies(0, w) == [] && Copies(1, w) == [w];
  }

  lemma OneKindRaw(badges: seq<Badge>, kind: string, w: nat, cutoff: int, ctx: Context)
    requires w > 0
    ensures RawScore(badges, OneKind(kind, w, cutoff), ctx) == Halvings(w, MemberCount(badges, kind, ctx))
  {
    hide Members, FamilyOf, MemberCount, Decay, Ranking, Share;
    var config, n := OneKind(kind, w, cutoff), MemberCount(badges, kind, ctx);
    assert config.categoryByType.Values == {"c"} by { assert config.categoryByType[kind] == "c"; }
    var f := cat => CategoryScore(badges, config, ctx, cat);
    SumPick({"c"}, f, "c");
    assert {"c"} - {"c"} == {};
    OneKindMembers(badges, kind, w, cutoff, ctx);
    var s := Copies(n, w);
    RankingUnique(s);
    ShareFacts(w, 0);
    EqualMembers(s, w, 0);
    if n > 0 { assert s[0] in multiset(s); } else { assert s == []; }
  }

  lemma {:induction false} HalvingsGrow(g: nat, n: nat)
    requires g >= Pow2(n)
    ensures Halvings(g, n) < Halvings(g, n + 1)
  {
    if n > 0 { HalvingsGrow(g / 2, n - 1); }
  }

  lemma {:induction false} HalvingsIncrease(g: nat, m: nat, n: nat)
    requires m < n && g >= Pow2(n)
    ensures Halvings(g, m) < Halvings(g, n)
  {
    Pow2Grows(n - 1);
    HalvingsGrow(g, n - 1);
    if m < n - 1 { HalvingsIncrease(g, m, n - 1); }
  }

  lemma Pow2Grows(n: nat)
    ensures Pow2(n) <= Pow2(n + 1)
  {
  }

  /** With more members in the direct computation, some configuration tells the two apart. */
  lemma CountsShow(rows: seq<StoredBadge>, u: UserId, native: string, now: int, kind: string) returns (config: Config)
    requires var ctx := Context(now, native);
             MemberCount(HeldInBatch(rows, u, native, now), kind, ctx) < MemberCount(HeldBy(rows, u), kind, ctx)
    ensures BatchBucket(rows, u, config, native, now) < DirectBucket(rows, u, config, native, now)
  {
    hide MemberCount, RawScore, QualifyingCategories;
    var ctx, sel, all := Context(now, native), HeldInBatch(rows, u, native, now), HeldBy(rows, u);
    var m, n := MemberCount(sel, kind, ctx), MemberCount(all, kind, ctx);
    var w := Pow2(n);
    HalvingsIncrease(w, m, n);
    var cutoff := Halvings(w, n);
    config := OneKind(kind, w, cutoff);
    OneKindRaw(sel, kind, w, cutoff, ctx);
    OneKindRaw(all, kind, w, cutoff, ctx);
  }

  /** The batch counts no more, and fewer if one of the kind is expiring. */
  lemma {:induction false} BatchCounts(
    rows: seq<StoredBadge>, u: UserId, native: string, now: int, kind: string, more: bool)
    requires more ==> exists r :: r in rows && Expiring(r, u, native, now) && r.badge.kind == kind
    ensures var ctx := Context(now, native);
            CountOf(HeldInBatch(rows, u, native, now), kind, ctx) + (if more then 1 else 0) <=
            CountOf(HeldBy(rows, u), kind, ctx)
  {
    hide CountOf;
    var ctx := Context(now, native);
    NoneCounted(kind, ctx);
    if rows != [] {
      var r, rest := rows[|rows| - 1], rows[..|rows| - 1];
      assert rows == rest + [r];
      var here := Expiring(r, u, native, now) && r.badge.kind == kind;
      BatchCounts(rest, u, native, now, kind, more && !here);
      CountAppend(HeldInBatch(rest, u, native, now), r.badge, kind, ctx);
      CountAppend(HeldBy(rest, u), r.badge, kind, ctx);
      assert HeldInBatch(rest, u, native, now) + [] == HeldInBatch(rest, u, native, now) &&
        HeldBy(rest, u) + [] == HeldBy(rest, u);
    }
  }

  lemma {:induction false} NoneSelected(rows: seq<StoredBadge>, u: UserId, native: string, now: int, kind: string)
    requires forall q :: q in rows && q.userId == u && Selected(q.badge, native, now) ==> q.badge.kind != kind
    ensures CountOf(HeldInBatch(rows, u, native, now), kind, Context(now, native)) == 0
  {
    hide CountOf;
    NoneCounted(kind, Context(now, native));
    if rows != [] {
      var r, rest := rows[|rows| - 1], rows[..|rows| - 1];
      assert rows == rest + [r];
      NoneSelected(rest, u, native, now, kind);
      CountAppend(HeldInBatch(rest, u, native, now), r.badge, kind, Context(now, native));
      assert HeldInBatch(rest, u, native, now) + [] == HeldInBatch(rest, u, native, now);
    }
  }

  lemma NoneCounted(kind: string, ctx: Context)
    ensures CountOf([], kind, ctx) == 0
  {
  }

  lemma CountAppend(badges: seq<Badge>, b: Badge, kind: string, ctx: Context)
    ensures CountOf(badges + [b], kind, ctx) == CountOf(badges, kind, ctx) + if Current(b, kind, ctx) then 1 else 0
  {
    assert (badges + [b])[..|badges|] == badges;
  }

  /**
   Batch and direct computation put a user in the same bucket under every configuration, if and only
   if every native badge that expires at this very instant is of a family kind and the user holds
   another native badge of the same kind that lives on.
   */
  lemma BatchIsDirectExactly(rows: seq<StoredBadge>, u: UserId, native: string, now: int)
    ensures (forall config :: BatchBucket(rows, u, config, native, now) == DirectBucket(rows, u, config, native, now))
            <==> AllCovered(rows, u, native, now)
  {
    hide BatchBucket, DirectBucket, HeldInBatch, HeldBy, CountOf, FamilyOf;
    if AllCovered(rows, u, native, now) {
      forall config ensures BatchBucket(rows, u, config, native, now) == DirectBucket(rows, u, config, native, now) {
        CoveredBatchIsDirect(rows, u, config, native, now);
      }
    } else {
      var r :| r in rows && Expiring(r, u, native, now) && !Covered(rows, r, u, native, now);
      BatchCounts(rows, u, native, now, r.badge.kind, true);
      if FamilyOf(r.badge.kind) != NoFamily { NoneSelected(rows, u, native, now, r.badge.kind); }
      var config := CountsShow(rows, u, native, now, r.badge.kind);
      assert BatchBucket(rows, u, config, native, now) != DirectBucket(rows, u, config, native, now);
    }
  }

  /** Such an input: one badge, in its last millisecond. */
  lemma LastMillisecond(u: UserId, native: string, now: int, kind: string, attrs: Attributes)
    returns (rows: seq<StoredBadge>, config: Config)
    ensures |rows| == 1 && BatchBucket(rows, u, config, native, now) == 0 &&
      DirectBucket(rows, u, config, native, now) == 1
  {
    hide RawScore, QualifyingCategories, FamilyOf;
    var b, ctx := Badge(kind, attrs, Some(now), native), Context(now, native);
    rows := [StoredBadge(u, b)];
    assert rows[..0] == [] && HeldBy(rows, u) == [b] && HeldInBatch(rows, u, native, now) == [];
    assert [b][..0] == [] && CountOf([b], kind, ctx) == 1;
    config := OneKind(kind, 1, 1);
    OneKindRaw([b], kind, 1, 1, ctx);
    OneKindRaw([], kind, 1, 1, ctx);
    assert Halvings(1, 1) == 1;
  }

  /** Under that condition for every user, each count is the number of users the direct computation puts
      in the bucket at the same instant. */
  lemma {:induction false} TallyAtInstant(
    users: seq<UserId>, rows: seq<StoredBadge>, config: Config, native: string, now: int, b: nat)
    requires AscendingIds(users) && forall u :: u in users ==> AllCovered(rows, u, native, now)
    ensures Tally(users, rows, config, native, now, b) == |DirectUsers(users, rows, config, native, now, b)|
  {
    hide DirectBucket, BatchBucket, DirectUsers, AllCovered, AscendingIds;
    if users == [] {
      NoUsers(rows, config, native, now, b);
    } else {
      var last, rest := users[|users| - 1], users[..|users| - 1];
      assert users == rest + [last];
      FewerUsers(users);
      TallyAtInstant(rest, rows, config, native, now, b);
      CoveredBatchIsDirect(rows, last, config, native, now);
      OneMoreUser(rest, last, rows, config, native, now, b);
    }
  }

  lemma FewerUsers(users: seq<UserId>)
    requires AscendingIds(users) && users != []
    ensures var last, rest := users[|users| - 1], users[..|users| - 1];
      AscendingIds(rest) && last !in rest && last in users
    ensures forall u :: u in users[..|users| - 1] ==> u in users
  {
  }
}
