/**
 The anti-sybil score as mathematics: which badges count, what each category's members are,
 and how the members, caps and cutoffs make up the raw score and the bucket. Module
 SybilScorer proves that the map-and-sort implementation computes exactly this.
 */
module SybilModel {
  import opened Common

  // ---------------------------------------------------------------------------
  // Data
  // ---------------------------------------------------------------------------

  /** A value of the unconstrained attribute JSON; a number is carried by its printed form. */
  datatype Json = Missing | Text(text: string) | Number(printed: string) | OtherJson

  datatype Attributes = Attributes(provider: Json, olderThanMonths: Json, followersAtLeast: Json)

  datatype Badge = Badge(kind: string, attributes: Attributes, expiresAt: Option<int>, issuer: string)

  datatype Cutoffs = Cutoffs(b1: int, b2: int, b3: int, b4: int, b3Cats: int, b4Cats: int)

  datatype Config = Config(
    weights: map<string, map<string, int>>,
    categoryByType: map<string, string>,
    caps: map<string, int>,
    cutoffs: Cutoffs)

  datatype Context = Context(now: int, nativeDid: string)

  const CATEGORY_QUALIFY_THRESHOLD := 8

  // ---------------------------------------------------------------------------
  // Weights
  // ---------------------------------------------------------------------------

  predicate Printable(v: Json) {
    v.Text? || v.Number?
  }

  function Printed(v: Json): string
    requires Printable(v)
  {
    if v.Text? then v.text else v.printed
  }

  /** provider:detail, then provider, then "*", as far as the attributes allow. */
  function ProviderChain(provider: Json, detail: Json): seq<string> {
    (if provider.Text? && Printable(detail) then [provider.text + ":" + Printed(detail)] else [])
    + (if provider.Text? then [provider.text] else []) + ["*"]
  }

  /** Qualifiers to look up, most specific first, always ending in "*". */
  function QualifierChain(kind: string, attrs: Attributes): seq<string> {
    if kind == "oauth-account" then
      if attrs.provider.Text? then [attrs.provider.text, "*"] else ["*"]
    else if kind == "account-age" then ProviderChain(attrs.provider, attrs.olderThanMonths)
    else if kind == "wallet-age" then
      if Printable(attrs.olderThanMonths) then [Printed(attrs.olderThanMonths), "*"] else ["*"]
    else if kind == "social-following" then ProviderChain(attrs.provider, attrs.followersAtLeast)
    else ["*"]
  }

  function FirstConfigured(byQualifier: map<string, int>, chain: seq<string>): int {
    if chain == [] then 0
    else if chain[0] in byQualifier then byQualifier[chain[0]]
    else FirstConfigured(byQualifier, chain[1..])
  }

  function WeightFor(config: Config, b: Badge): int {
    if b.kind !in config.weights then 0
    else FirstConfigured(config.weights[b.kind], QualifierChain(b.kind, b.attributes))
  }

  // ---------------------------------------------------------------------------
  // Members of a category
  // ---------------------------------------------------------------------------

  /** Fully correlated ladders count once. */
  datatype Family = AgeOver | Residency | NoFamily

  function FamilyOf(kind: string): Family {
    if "age-over-" <= kind then AgeOver
    else if "residency-" <= kind then Residency
    else NoFamily
  }

  /** Native, unexpired, with a positive weight and a known category. */
  predicate Counted(b: Badge, config: Config, ctx: Context) {
    && b.issuer == ctx.nativeDid
    && !(b.expiresAt.Some? && b.expiresAt.value < ctx.now)
    && WeightFor(config, b) > 0
    && b.kind in config.categoryByType
  }

  predicate CountedIn(b: Badge, config: Config, ctx: Context, cat: string, fam: Family) {
    Counted(b, config, ctx) && config.categoryByType[b.kind] == cat && FamilyOf(b.kind) == fam
  }

  /** The weights of the badges that stand for themselves. */
  ghost function Singles(badges: seq<Badge>, config: Config, ctx: Context, cat: string): multiset<int> {
    if badges == [] then multiset{} else
      var b := badges[|badges| - 1];
      Singles(badges[..|badges| - 1], config, ctx, cat) +
      (if CountedIn(b, config, ctx, cat, NoFamily) then multiset{WeightFor(config, b)} else multiset{})
  }

  /** The heaviest member of a family, 0 if there is none. */
  ghost function Heaviest(badges: seq<Badge>, config: Config, ctx: Context, cat: string, fam: Family): (r: int)
    ensures r >= 0
  {
    if badges == [] then 0 else
      var b := badges[|badges| - 1];
      var rest := Heaviest(badges[..|badges| - 1], config, ctx, cat, fam);
      if CountedIn(b, config, ctx, cat, fam) then Max(rest, WeightFor(config, b)) else rest
  }

  ghost function FamilyMember(w: int): multiset<int> {
    if w > 0 then multiset{w} else multiset{}
  }

  ghost function Members(badges: seq<Badge>, config: Config, ctx: Context, cat: string): multiset<int> {
    Singles(badges, config, ctx, cat)
    + FamilyMember(Heaviest(badges, config, ctx, cat, AgeOver))
    + FamilyMember(Heaviest(badges, config, ctx, cat, Residency))
  }

  // ---------------------------------------------------------------------------
  // From members to score
  // ---------------------------------------------------------------------------

  /** What a weight is worth at place i of the ranking. */
  function Share(w: int, i: nat): int {
    w / Pow2(i)
  }

  /** Each further member counts half as much, rounded down. */
  function Decay(s: seq<int>, i: nat): int {
    if s == [] then 0 else Share(s[0], i) + Decay(s[1..], i + 1)
  }

  predicate Descending(s: seq<int>) {
    forall i, j :: 0 <= i < j < |s| ==> s[i] >= s[j]
  }

  ghost predicate IsGreatest(m: multiset<int>, x: int) {
    x in m && forall y :: y in m ==> y <= x
  }

  lemma SomeMember(m: multiset<int>) returns (x: int)
    requires m != multiset{}
    ensures x in m
  {
    assert (forall y :: y !in m) ==> m == multiset{};
    x :| x in m;
  }

  lemma {:induction false} GreatestExists(m: multiset<int>)
    requires m != multiset{}
    ensures exists x :: IsGreatest(m, x)
    decreases |m|
  {
    var x := SomeMember(m);
    var rest := m - multiset{x};
    forall y ensures y in m <==> y == x || y in rest { }
    if rest == multiset{} {
      assert IsGreatest(m, x);
    } else {
      GreatestExists(rest);
      var z :| IsGreatest(rest, z);
      assert IsGreatest(m, Max(x, z));
    }
  }

  ghost function Greatest(m: multiset<int>): (x: int)
    requires m != multiset{}
    ensures IsGreatest(m, x)
  {
    GreatestExists(m);
    var x :| IsGreatest(m, x); x
  }

  /** The members from heaviest to lightest. */
  ghost function Ranking(m: multiset<int>): seq<int>
    decreases |m|
  {
    if m == multiset{} then [] else
      var x := Greatest(m);
      [x] + Ranking(m - multiset{x})
  }

  /** What a category adds to the raw score; a missing cap means no cap. */
  ghost function Contribution(m: multiset<int>, config: Config, cat: string): int {
    if m == multiset{} then 0
    else if cat in config.caps then Min(Decay(Ranking(m), 0), config.caps[cat])
    else Decay(Ranking(m), 0)
  }

  ghost function CategoryScore(badges: seq<Badge>, config: Config, ctx: Context, cat: string): int {
    Contribution(Members(badges, config, ctx, cat), config, cat)
  }

  ghost function RawScore(badges: seq<Badge>, config: Config, ctx: Context): int {
    SumOver(config.categoryByType.Values, cat => CategoryScore(badges, config, ctx, cat))
  }

  ghost function QualifyingCategories(badges: seq<Badge>, config: Config, ctx: Context): set<string> {
    set cat | cat in config.categoryByType.Values &&
      CategoryScore(badges, config, ctx, cat) >= CATEGORY_QUALIFY_THRESHOLD
  }

  function Bucket(raw: int, cats: int, c: Cutoffs): (b: nat)
    ensures b <= 4
  {
    if raw >= c.b4 && cats >= c.b4Cats then 4
    else if raw >= c.b3 && cats >= c.b3Cats then 3
    else if raw >= c.b2 then 2
    else if raw >= c.b1 then 1
    else 0
  }

  ghost function BucketOf(badges: seq<Badge>, config: Config, ctx: Context): (b: nat)
    ensures b <= 4
  {
    Bucket(RawScore(badges, config, ctx), |QualifyingCategories(badges, config, ctx)|, config.cutoffs)
  }
}
