/** What the bucket says of a holder: the score and the breadth it takes to reach each level. */
module SybilLevels {
  import opened Common
  import opened SybilModel
  import opened SybilLaws

  /** The raw score a level asks for. */
  function ScoreOf(c: Cutoffs, level: nat): int
    requires 1 <= level <= 4
  {
    if level == 1 then c.b1 else if level == 2 then c.b2 else if level == 3 then c.b3 else c.b4
  }

  /** The number of categories worth at least eight points that a level asks for. */
  ghost predicate Broad(badges: seq<Badge>, config: Config, ctx: Context, level: nat) {
    var strong := set cat | cat in config.categoryByType.Values && CategoryScore(badges, config, ctx, cat) >= 8;
    && (level == 3 ==> |strong| >= config.cutoffs.b3Cats)
    && (level == 4 ==> |strong| >= config.cutoffs.b4Cats)
  }

  ghost predicate Meets(badges: seq<Badge>, config: Config, ctx: Context, level: nat)
    requires 1 <= level <= 4
  {
    RawScore(badges, config, ctx) >= ScoreOf(config.cutoffs, level) && Broad(badges, config, ctx, level)
  }

  /** The bucket is the highest level of which the holder meets both the score and the breadth. */
  lemma BucketIsHighestMet(badges: seq<Badge>, config: Config, ctx: Context)
    ensures BucketOf(badges, config, ctx) > 0 ==> Meets(badges, config, ctx, BucketOf(badges, config, ctx))
    ensures forall level :: 1 <= level <= 4 && Meets(badges, config, ctx, level) ==>
              level <= BucketOf(badges, config, ctx)
  {
    hide CategoryScore, RawScore;
  }

  // ---------------------------------------------------------------------------
  // Few categories
  // ---------------------------------------------------------------------------

  /** Every badge that counts is in one of these categories. */
  ghost predicate Within(badges: seq<Badge>, config: Config, ctx: Context, cats: set<string>) {
    forall i :: 0 <= i < |badges| && Counted(badges[i], config, ctx) ==> config.categoryByType[badges[i].kind] in cats
  }

  lemma {:induction false} NothingThere(badges: seq<Badge>, config: Config, ctx: Context, cat: string)
    requires forall i :: 0 <= i < |badges| && Counted(badges[i], config, ctx) ==>
      config.categoryByType[badges[i].kind] != cat
    ensures Singles(badges, config, ctx, cat) == multiset{}
    ensures forall fam :: Heaviest(badges, config, ctx, cat, fam) == 0
  {
    if badges != [] {
      NothingThere(badges[..|badges| - 1], config, ctx, cat);
    }
  }

  /** However many badges are held, a level that asks for more categories than they lie in stays out of reach. */
  lemma NarrowHolder(badges: seq<Badge>, config: Config, ctx: Context, cats: set<string>)
    requires Within(badges, config, ctx, cats)
    ensures |cats| < config.cutoffs.b4Cats ==> BucketOf(badges, config, ctx) <= 3
    ensures |cats| < config.cutoffs.b4Cats && |cats| < config.cutoffs.b3Cats ==> BucketOf(badges, config, ctx) <= 2
  {
    hide Singles, Heaviest, Counted, RawScore;
    var strong := QualifyingCategories(badges, config, ctx);
    forall cat | cat !in cats ensures cat !in strong {
      NothingThere(badges, config, ctx, cat);
      assert Members(badges, config, ctx, cat) == multiset{};
    }
    SubsetSize(strong, cats);
  }

  // ---------------------------------------------------------------------------
  // Many categories
  // ---------------------------------------------------------------------------

  /** The category holds a badge that counts for at least eight, and its cap lets that through. */
  ghost predicate StrongIn(badges: seq<Badge>, config: Config, ctx: Context, cat: string) {
    && (cat in config.caps ==> config.caps[cat] >= 8)
    && exists i :: 0 <= i < |badges| && CountsIn(badges[i], config, ctx, cat) && WeightFor(config, badges[i]) >= 8
  }

  predicate CountsIn(b: Badge, config: Config, ctx: Context, cat: string) {
    Counted(b, config, ctx) && config.categoryByType[b.kind] == cat
  }

  lemma {:induction false} WeightAmongMembers(badges: seq<Badge>, config: Config, ctx: Context, i: nat)
    requires i < |badges| && Counted(badges[i], config, ctx)
    ensures var cat, fam := config.categoryByType[badges[i].kind], FamilyOf(badges[i].kind);
            && (fam == NoFamily ==> WeightFor(config, badges[i]) in Singles(badges, config, ctx, cat))
            && WeightFor(config, badges[i]) <= Heaviest(badges, config, ctx, cat, fam)
  {
    HeaviestBounds(badges, config, ctx, i);
    if i < |badges| - 1 {
      WeightAmongMembers(badges[..|badges| - 1], config, ctx, i);
    }
  }

  lemma DecayFromHead(m: multiset<int>, w: int)
    requires Positive(m) && w in m
    ensures Decay(Ranking(m), 0) >= w
  {
    hide Share, Ranking, Decay;
    RankingFacts(m);
    RankingNonNegative(m);
    var s := Ranking(m);
    assert w in multiset(s);
    HeadCounts(s, w);
  }

  lemma HeadCounts(s: seq<int>, w: int)
    requires NonNegative(s) && Descending(s) && w in s
    ensures Decay(s, 0) >= w
  {
    ShareFacts(s[0], 0);
    DecayNonNegative(s[1..], 1);
  }

  lemma {:induction false} DecayNonNegative(s: seq<int>, i: nat)
    requires NonNegative(s)
    ensures Decay(s, i) >= 0
    decreases |s|
  {
    hide Share;
    if s != [] {
      ShareFacts(s[0], i);
      DecayNonNegative(s[1..], i + 1);
    }
  }

  lemma StrongQualifies(badges: seq<Badge>, config: Config, ctx: Context, cat: string)
    requires StrongIn(badges, config, ctx, cat)
    ensures CategoryScore(badges, config, ctx, cat) >= 8 && cat in config.categoryByType.Values
  {
    hide Singles, Heaviest, Decay, Ranking, WeightFor;
    var i :| 0 <= i < |badges| && CountsIn(badges[i], config, ctx, cat) && WeightFor(config, badges[i]) >= 8;
    CategoryKnown(badges[i], config, ctx);
    WeightAmongMembers(badges, config, ctx, i);
    MembersPositive(badges, config, ctx, cat);
    var m, w := Members(badges, config, ctx, cat), WeightFor(config, badges[i]);
    if FamilyOf(badges[i].kind) == NoFamily {
      assert w in m;
      DecayFromHead(m, w);
    } else {
      var h := Heaviest(badges, config, ctx, cat, FamilyOf(badges[i].kind));
      assert h in FamilyMember(h) && h in m;
      DecayFromHead(m, h);
    }
  }

  lemma CategoryKnown(b: Badge, config: Config, ctx: Context)
    requires Counted(b, config, ctx)
    ensures config.categoryByType[b.kind] in config.categoryByType.Values
  {
    assert b.kind in config.categoryByType.Keys;
  }

  lemma {:induction false} EightEach(all: set<string>, cats: set<string>, f: string -> int)
    requires cats <= all && (forall cat :: cat in all ==> f(cat) >= 0) && (forall cat :: cat in cats ==> f(cat) >= 8)
    ensures SumOver(all, f) >= 8 * |cats|
    decreases |cats|
  {
    if cats == {} {
      SumNonNegative(all, f);
    } else {
      var cat :| cat in cats;
      SumPick(all, f, cat);
      EightEach(all - {cat}, cats - {cat}, f);
    }
  }

  lemma {:induction false} SumNonNegative(all: set<string>, f: string -> int)
    requires forall cat :: cat in all ==> f(cat) >= 0
    ensures SumOver(all, f) >= 0
    decreases |all|
  {
    if cat :| cat in all {
      SumPick(all, f, cat);
      SumNonNegative(all - {cat}, f);
    }
  }

  /** A holder with a badge of weight eight or more in each of n categories has at least eight points from
      each, so every level that asks for no more than that is reached. */
  lemma BroadHolder(badges: seq<Badge>, config: Config, ctx: Context, cats: set<string>, level: nat)
    requires CapsNonNegative(config) && 1 <= level <= 4
    requires forall cat :: cat in cats ==> StrongIn(badges, config, ctx, cat)
    requires 8 * |cats| >= ScoreOf(config.cutoffs, level)
    requires (level == 3 ==> |cats| >= config.cutoffs.b3Cats) && (level == 4 ==> |cats| >= config.cutoffs.b4Cats)
    ensures BucketOf(badges, config, ctx) >= level
  {
    hide StrongIn, CategoryScore;
    forall cat | cat in cats
      ensures CategoryScore(badges, config, ctx, cat) >= 8 && cat in config.categoryByType.Values
    {
      StrongQualifies(badges, config, ctx, cat);
    }
    forall cat ensures CategoryScore(badges, config, ctx, cat) >= 0 { ScoreNonNegative(badges, config, ctx, cat); }
    EightEach(config.categoryByType.Values, cats, cat => CategoryScore(badges, config, ctx, cat));
    SubsetSize(cats, QualifyingCategories(badges, config, ctx));
  }

  lemma ScoreNonNegative(badges: seq<Badge>, config: Config, ctx: Context, cat: string)
    requires CapsNonNegative(config)
    ensures CategoryScore(badges, config, ctx, cat) >= 0
  {
    hide Singles, Heaviest, Decay, Ranking;
    var m := Members(badges, config, ctx, cat);
    MembersPositive(badges, config, ctx, cat);
    RankingNonNegative(m);
    DecayNonNegative(Ranking(m), 0);
  }

  // ---------------------------------------------------------------------------
  // Ladders, by the names of the badge types
  // ---------------------------------------------------------------------------

  /** The badge counts in the category and is a rung of the ladder. */
  ghost predicate Rung(b: Badge, config: Config, ctx: Context, cat: string, ladder: string) {
    CountsIn(b, config, ctx, cat) && ladder <= b.kind
  }

  ghost function Rest(badges: seq<Badge>, config: Config, ctx: Context, cat: string, ladder: string): seq<Badge> {
    if badges == [] then [] else
      Rest(badges[..|badges| - 1], config, ctx, cat, ladder) +
      (if Rung(badges[|badges| - 1], config, ctx, cat, ladder) then [] else [badges[|badges| - 1]])
  }

  lemma LadderNames(kind: string)
    ensures "age-over-" <= kind <==> FamilyOf(kind) == AgeOver
    ensures "residency-" <= kind <==> FamilyOf(kind) == Residency
  {
    if "residency-" <= kind {
      assert kind[0] == "residency-"[0] && "age-over-"[0] == 'a';
    }
  }

  lemma {:induction false} RestIsOthers(
    badges: seq<Badge>, config: Config, ctx: Context, cat: string, ladder: string, fam: Family)
    requires (ladder == "age-over-" && fam == AgeOver) || (ladder == "residency-" && fam == Residency)
    ensures Rest(badges, config, ctx, cat, ladder) == Others(badges, config, ctx, cat, fam)
  {
    hide Counted, FamilyOf;
    if badges != [] {
      LadderNames(badges[|badges| - 1].kind);
      RestIsOthers(badges[..|badges| - 1], config, ctx, cat, ladder, fam);
    }
  }

  /** All age-over- badges of a category are worth what the heaviest is, and so are all residency- ones. */
  lemma LadderCollapses(
    badges: seq<Badge>, k: nat, kept: seq<Badge>, config: Config, ctx: Context, cat: string, ladder: string)
    requires (ladder == "age-over-" || ladder == "residency-") && k < |badges|
    requires Rung(badges[k], config, ctx, cat, ladder)
    requires forall j :: 0 <= j < |badges| && Rung(badges[j], config, ctx, cat, ladder) ==>
      WeightFor(config, badges[j]) <= WeightFor(config, badges[k])
    requires multiset(kept) == multiset(Rest(badges, config, ctx, cat, ladder)) + multiset{badges[k]}
    ensures RawScore(kept, config, ctx) == RawScore(badges, config, ctx)
    ensures BucketOf(kept, config, ctx) == BucketOf(badges, config, ctx)
  {
    hide Counted, FamilyOf, WeightFor, RawScore, BucketOf, Others, Rest;
    LadderNames(badges[k].kind);
    var fam := FamilyOf(badges[k].kind);
    forall j | 0 <= j < |badges| ensures
        Rung(badges[j], config, ctx, cat, ladder) <==> CountedIn(badges[j], config, ctx, cat, fam)
    {
      LadderNames(badges[j].kind);
    }
    WhichLadder(badges[k].kind, ladder);
    RestIsOthers(badges, config, ctx, cat, ladder, fam);
    FamilyCollapses(badges, k, kept, config, ctx, cat, fam);
  }

  lemma WhichLadder(kind: string, ladder: string)
    requires (ladder == "age-over-" || ladder == "residency-") && ladder <= kind
    ensures (ladder == "age-over-" && FamilyOf(kind) == AgeOver) ||
            (ladder == "residency-" && FamilyOf(kind) == Residency)
  {
    LadderNames(kind);
  }

  /** A badge of any other type is a member of its own, however many of its type are held. */
  lemma OtherBadgesCountEach(badges: seq<Badge>, b: Badge, config: Config, ctx: Context)
    requires Counted(b, config, ctx) && !("age-over-" <= b.kind) && !("residency-" <= b.kind)
    ensures var cat := config.categoryByType[b.kind];
            Members(badges + [b], config, ctx, cat) ==
            Members(badges, config, ctx, cat) + multiset{WeightFor(config, b)}
  {
    hide Singles, Heaviest, WeightFor;
    LadderNames(b.kind);
    PiecesAppend(badges, b, config, ctx, config.categoryByType[b.kind]);
  }

  // ---------------------------------------------------------------------------
  // Weights, by the attributes
  // ---------------------------------------------------------------------------

  /** The weight configured for a qualifier, or what is otherwise found. */
  function Or(byQualifier: map<string, int>, qualifier: string, otherwise: int): int {
    if qualifier in byQualifier then byQualifier[qualifier] else otherwise
  }

  /** What a badge weighs: an account by its provider; an account age or a following by its provider and detail,
      then by its provider; a wallet by its age; everything at last by the star; and nothing if none is set. */
  lemma WeightByAttributes(config: Config, b: Badge)
    requires b.kind in config.weights
    ensures var m, a, w := config.weights[b.kind], b.attributes, WeightFor(config, b);
            var star := Or(config.weights[b.kind], "*", 0);
            && (b.kind == "oauth-account" ==> w == if a.provider.Text? then Or(m, a.provider.text, star) else star)
            && (b.kind == "wallet-age" ==>
                  w == if Printable(a.olderThanMonths) then Or(m, Printed(a.olderThanMonths), star) else star)
            && (b.kind == "account-age" ==> w == ByProvider(m, a.provider, a.olderThanMonths, star))
            && (b.kind == "social-following" ==> w == ByProvider(m, a.provider, a.followersAtLeast, star))
            && (b.kind !in {"oauth-account", "wallet-age", "account-age", "social-following"} ==> w == star)
  {
    hide Printed, ProviderChain, FirstConfigured, ByProvider;
    var m, a := config.weights[b.kind], b.attributes;
    KindsApart();
    OneQualifier(m, "*");
    ProviderWeight(m, a.provider, a.olderThanMonths);
    ProviderWeight(m, a.provider, a.followersAtLeast);
    if a.provider.Text? { TwoQualifiers(m, a.provider.text); }
    if Printable(a.olderThanMonths) { TwoQualifiers(m, Printed(a.olderThanMonths)); }
  }

  lemma ProviderWeight(m: map<string, int>, provider: Json, detail: Json)
    ensures FirstConfigured(m, ProviderChain(provider, detail)) == ByProvider(m, provider, detail, Or(m, "*", 0))
  {
    hide Printed, FirstConfigured;
    OneQualifier(m, "*");
    if !provider.Text? {
      assert ProviderChain(provider, detail) == ["*"];
    } else if Printable(detail) {
      ThreeQualifiers(m, provider.text, Printed(detail));
    } else {
      TwoQualifiers(m, provider.text);
      assert ProviderChain(provider, detail) == [provider.text, "*"];
    }
  }

  function ByProvider(m: map<string, int>, provider: Json, detail: Json, star: int): int {
    if !provider.Text? then star
    else if Printable(detail) then Or(m, provider.text + ":" + Printed(detail), Or(m, provider.text, star))
    else Or(m, provider.text, star)
  }

  lemma KindsApart()
    ensures "oauth-account" != "wallet-age" && "oauth-account" != "account-age" && "oauth-account" != "social-following"
    ensures "wallet-age" != "account-age" && "wallet-age" != "social-following" && "account-age" != "social-following"
  {
    assert "oauth-account"[0] == 'o' && "account-age"[0] == 'a' && "wallet-age"[0] == 'w';
    assert "social-following"[0] == 's';
  }

  lemma OneQualifier(m: map<string, int>, q: string)
    ensures FirstConfigured(m, [q]) == Or(m, q, 0)
  {
  }

  lemma TwoQualifiers(m: map<string, int>, q: string)
    ensures FirstConfigured(m, [q, "*"]) == Or(m, q, Or(m, "*", 0))
  {
    assert [q, "*"][1..] == ["*"];
    OneQualifier(m, "*");
  }

  lemma ThreeQualifiers(m: map<string, int>, q: string, detail: string)
    ensures FirstConfigured(m, [q + ":" + detail] + [q] + ["*"]) == Or(m, q + ":" + detail, Or(m, q, Or(m, "*", 0)))
  {
    var chain := [q + ":" + detail] + [q] + ["*"];
    assert chain[1..] == [q, "*"] && chain[0] == q + ":" + detail;
    TwoQualifiers(m, q);
  }
}
