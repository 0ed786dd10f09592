/** The ranges in which the transparency page prints counts, and the percentage derived from them. */
module PublicCounts {
  import opened Common
  import Decimal

  const SUPPRESSION_K := 5
  const LARGE_COUNT_THRESHOLD := 1000

  datatype Range = Range(lower: int, upper: int, text: string)

  const RANGES: seq<Range> := [
    Range(1, 4, "<5"), Range(5, 9, "5\U{2013}9"), Range(10, 24, "10\U{2013}24"), Range(25, 49, "25\U{2013}49"),
    Range(50, 99, "50\U{2013}99"), Range(100, 249, "100\U{2013}249"), Range(250, 499, "250\U{2013}499"),
    Range(500, 999, "500\U{2013}999")
  ]

  /** The first range from i on that holds the count. */
  function Search(count: int, i: nat): Option<Range>
    decreases |RANGES| - i
  {
    if i >= |RANGES| then None
    else if RANGES[i].lower <= count <= RANGES[i].upper then Some(RANGES[i])
    else Search(count, i + 1)
  }

  function Label(count: int): string {
    if count <= 0 then "0"
    else if count >= LARGE_COUNT_THRESHOLD then Decimal.Grouped(count / 1000 * 1000) + "+"
    else
      var r := Search(count, 0);
      if r.Some? then r.value.text else "0"
  }

  function LowerBound(count: int): int {
    if count <= 0 then 0
    else if count >= LARGE_COUNT_THRESHOLD then count / 1000 * 1000
    else
      var r := Search(count, 0);
      if r.Some? then r.value.lower else 0
  }

  // ---------------------------------------------------------------------------
  // The table
  // ---------------------------------------------------------------------------

  lemma {:induction false} SearchFinds(count: int, i: nat, j: nat)
    requires i <= j < |RANGES| && RANGES[j].lower <= count <= RANGES[j].upper
    requires forall k :: i <= k < j ==> RANGES[k].upper < RANGES[j].lower
    ensures Search(count, i) == Some(RANGES[j])
    decreases j - i
  {
    if i < j { SearchFinds(count, i + 1, j); }
  }

  /** Which range a count below a thousand falls in. */
  function Place(count: int): (j: nat)
    requires 0 < count < LARGE_COUNT_THRESHOLD
    ensures j < |RANGES| && RANGES[j].lower <= count <= RANGES[j].upper
  {
    if count < 5 then 0 else if count < 10 then 1 else if count < 25 then 2 else if count < 50 then 3
    else if count < 100 then 4 else if count < 250 then 5 else if count < 500 then 6 else 7
  }

  /** The ranges cover one to 999 without gap or overlap, in ascending order. */
  lemma RangesTile(i: nat, j: nat)
    requires i < j < |RANGES|
    ensures RANGES[i].lower <= RANGES[i].upper < RANGES[j].lower <= RANGES[j].upper
    ensures j == i + 1 ==> RANGES[i].upper + 1 == RANGES[j].lower
    ensures RANGES[0].lower == 1 && RANGES[|RANGES| - 1].upper == LARGE_COUNT_THRESHOLD - 1
  {
  }

  lemma SearchIs(count: int)
    requires 0 < count < LARGE_COUNT_THRESHOLD
    ensures Search(count, 0) == Some(RANGES[Place(count)])
  {
    var j := Place(count);
    forall k | 0 <= k < j ensures RANGES[k].upper < RANGES[j].lower { RangesTile(k, j); }
    SearchFinds(count, 0, j);
  }

  /** Labels differ in length or in their first character. */
  lemma LabelsApart(i: nat, j: nat)
    requires i < |RANGES| && j < |RANGES| && RANGES[i].text == RANGES[j].text
    ensures i == j
  {
    assert |RANGES[i].text| == |RANGES[j].text| && RANGES[i].text[0] == RANGES[j].text[0];
  }

  lemma NoPlus(i: nat)
    requires i < |RANGES|
    ensures var s := RANGES[i].text; s != "0" && s != "" && s[|s| - 1] != '+'
  {
  }

  // ---------------------------------------------------------------------------
  // Labels and lower bounds
  // ---------------------------------------------------------------------------

  lemma Small(count: int)
    requires 0 < count < LARGE_COUNT_THRESHOLD
    ensures Label(count) == RANGES[Place(count)].text && LowerBound(count) == RANGES[Place(count)].lower
    ensures Label(count) != "0" && Label(count) != "" && Label(count)[|Label(count)| - 1] != '+'
    ensures 0 < LowerBound(count) < LARGE_COUNT_THRESHOLD
  {
    hide Place, Search;
    SearchIs(count);
    NoPlus(Place(count));
    if Place(count) > 0 { RangesTile(0, Place(count)); }
  }

  lemma Large(count: int)
    requires count >= LARGE_COUNT_THRESHOLD
    ensures Label(count) == Decimal.Grouped(LowerBound(count)) + "+" && LowerBound(count) >= LARGE_COUNT_THRESHOLD
    ensures Label(count) != "0" && Label(count)[|Label(count)| - 1] == '+'
  {
    hide Decimal.Grouped;
    assert Label(count)[|Label(count)| - 1] == '+' && "0"[0] == '0';
  }

  /** A count and the lower bound of its range print alike and have the same lower bound. */
  lemma BoundIsItsOwn(count: int)
    ensures Label(LowerBound(count)) == Label(count)
    ensures LowerBound(LowerBound(count)) == LowerBound(count)
    ensures count >= 0 ==> 0 <= LowerBound(count) <= count
  {
    hide Search, Place, Decimal.Grouped;
    if 0 < count < LARGE_COUNT_THRESHOLD {
      Small(count);
      var lower := LowerBound(count);
      Small(lower);
      SamePlace(count);
    }
  }

  lemma SamePlace(count: int)
    requires 0 < count < LARGE_COUNT_THRESHOLD
    ensures 0 < RANGES[Place(count)].lower < LARGE_COUNT_THRESHOLD
    ensures Place(RANGES[Place(count)].lower) == Place(count)
  {
  }

  /** What is printed and what orders the rows carry the same information. */
  lemma LabelMeansBound(a: int, b: int)
    ensures Label(a) == Label(b) <==> LowerBound(a) == LowerBound(b)
  {
    hide Search, Place, Decimal.Grouped, Label, LowerBound;
    if LowerBound(a) == LowerBound(b) {
      BoundIsItsOwn(a);
      BoundIsItsOwn(b);
    }
    if Label(a) == Label(b) {
      LabelGivesBound(a, b);
    }
  }

  lemma UpToThreeDigits(n: nat)
    requires n < 1000
    ensures Decimal.Digits(n) ==
            if n < 10 then [Decimal.Digit(n)]
            else if n < 100 then [Decimal.Digit(n / 10), Decimal.Digit(n % 10)]
            else [Decimal.Digit(n / 100), Decimal.Digit(n / 10 % 10), Decimal.Digit(n % 10)]
  {
  }

  /** The two numbers each text but the first shows are those of its range. */
  lemma RangeTexts(j: nat)
    requires 1 <= j < |RANGES|
    ensures 0 <= RANGES[j].lower <= RANGES[j].upper
    ensures RANGES[j].text == Decimal.Digits(RANGES[j].lower) + "\U{2013}" + Decimal.Digits(RANGES[j].upper)
  {
    hide Decimal.Digits;
    UpToThreeDigits(RANGES[j].lower);
    UpToThreeDigits(RANGES[j].upper);
  }

  /** What is printed is true: a count below five as such, one below a thousand between the two numbers shown,
      and a larger one by the thousands it has reached. */
  lemma LabelIsTrue(count: int)
    ensures count <= 0 ==> Label(count) == "0"
    ensures 0 < count < 5 ==> Label(count) == "<5"
    ensures 5 <= count < 1000 ==> exists a: nat, b: nat ::
              a <= count <= b && Label(count) == Decimal.Digits(a) + "\U{2013}" + Decimal.Digits(b)
    ensures count >= 1000 ==> exists n: nat ::
              1000 * n <= count < 1000 * n + 1000 && Label(count) == Decimal.Grouped(1000 * n) + "+"
  {
    hide Search, Decimal.Digits, Decimal.Grouped;
    if 0 < count < 1000 {
      Small(count);
      var j := Place(count);
      if count >= 5 {
        RangeTexts(j);
        var a, b := RANGES[j].lower, RANGES[j].upper;
        assert a <= count <= b && Label(count) == Decimal.Digits(a) + "\U{2013}" + Decimal.Digits(b);
      }
    } else if count >= 1000 {
      var n: nat := count / 1000;
      assert 1000 * n <= count < 1000 * n + 1000 && Label(count) == Decimal.Grouped(1000 * n) + "+";
    }
  }

  lemma Kind(count: int)
    ensures Label(count) != ""
    ensures Label(count) == "0" <==> count <= 0
    ensures Label(count)[|Label(count)| - 1] == '+' <==> count >= LARGE_COUNT_THRESHOLD
    ensures count <= 0 ==> LowerBound(count) == 0
  {
    hide Search, Place, Decimal.Grouped;
    if 0 < count < LARGE_COUNT_THRESHOLD { Small(count); }
    else if count >= LARGE_COUNT_THRESHOLD { Large(count); }
  }

  lemma LabelGivesBound(a: int, b: int)
    requires Label(a) == Label(b)
    ensures LowerBound(a) == LowerBound(b)
  {
    hide Search, Place, Decimal.Grouped, Label, LowerBound;
    Kind(a);
    Kind(b);
    if a >= LARGE_COUNT_THRESHOLD {
      Large(a);
      Large(b);
      assert Decimal.Grouped(LowerBound(a)) == Label(a)[..|Label(a)| - 1] == Decimal.Grouped(LowerBound(b));
      Decimal.PrintsApart(LowerBound(a), LowerBound(b));
    } else if a > 0 {
      Small(a);
      Small(b);
      LabelsApart(Place(a), Place(b));
    }
  }

  /** Larger counts never have a smaller bound. */
  lemma BoundMonotone(a: int, b: int)
    requires a <= b
    ensures LowerBound(a) <= LowerBound(b)
  {
    hide Search, Place, Decimal.Grouped;
    if 0 < a < LARGE_COUNT_THRESHOLD { Small(a); }
    if 0 < b < LARGE_COUNT_THRESHOLD { Small(b); }
    if 0 < a && b < LARGE_COUNT_THRESHOLD { PlaceMonotone(a, b); }
  }

  lemma PlaceMonotone(a: int, b: int)
    requires 0 < a <= b < LARGE_COUNT_THRESHOLD
    ensures RANGES[Place(a)].lower <= RANGES[Place(b)].lower
  {
  }

  // ---------------------------------------------------------------------------
  // Cohorts
  // ---------------------------------------------------------------------------

  datatype CohortRow = CohortRow(name: string, numerator: string, denominator: string, percent: Option<string>)

  /** What is used of floating point: a result is the exact one rounded, rounding keeps order, and
      integers up to two to the fifty-third are represented exactly. */
  ghost predicate Rounding(fl: real -> real) {
    && (forall x, y :: x <= y ==> fl(x) <= fl(y))
    && (forall n :: -0x20000000000000 <= n <= 0x20000000000000 ==> Exact(fl, n))
  }

  ghost predicate Exact(fl: real -> real, n: int) {
    fl(n as real) == n as real
  }

  /** Math.round((lowerNum / lowerDen) * 100 / 5) * 5, every operation rounded by fl */
  function Percent(lowerNum: int, lowerDen: int, fl: real -> real): int
    requires lowerDen > 0
  {
    var pct := fl(fl(lowerNum as real / lowerDen as real) * 100.0);
    (fl(pct / 5.0) + 0.5).Floor * 5
  }

  function CohortRowOf(name: string, numerator: int, denominator: int, fl: real -> real): CohortRow {
    var lowerNum, lowerDen := LowerBound(numerator), LowerBound(denominator);
    var percent :=
      if numerator >= SUPPRESSION_K && denominator >= SUPPRESSION_K && lowerDen > 0
      then Some(Decimal.Signed(Percent(lowerNum, lowerDen, fl)) + "%") else None;
    CohortRow(name, Label(numerator), Label(denominator), percent)
  }

  /** A count survives suppression exactly when its lower bound does. */
  lemma SurvivesByBound(count: int)
    ensures count >= SUPPRESSION_K <==> LowerBound(count) >= SUPPRESSION_K
  {
    hide Search, Decimal.Grouped;
    if 0 < count < LARGE_COUNT_THRESHOLD { Small(count); }
  }

  /** A cohort row is a function of the two ranges it prints. */
  lemma CohortFromRanges(name: string, n: int, d: int, n': int, d': int, fl: real -> real)
    requires Label(n) == Label(n') && Label(d) == Label(d')
    ensures CohortRowOf(name, n, d, fl) == CohortRowOf(name, n', d', fl)
  {
    hide Search, Decimal.Grouped, Label, LowerBound, Percent;
    LabelMeansBound(n, n');
    LabelMeansBound(d, d');
    SurvivesByBound(n);
    SurvivesByBound(n');
    SurvivesByBound(d);
    SurvivesByBound(d');
  }

  /** A part of a whole is shown, when it is shown, as a multiple of five from 0% to 100%. */
  lemma PercentInRange(name: string, n: int, d: int, fl: real -> real)
    requires n <= d && Rounding(fl)
    ensures var row := CohortRowOf(name, n, d, fl);
            && row.name == name && row.numerator == Label(n) && row.denominator == Label(d)
            && (row.percent.Some? <==> n >= 5)
    ensures n >= 5 ==>
              exists p: nat :: p <= 20 && CohortRowOf(name, n, d, fl).percent == Some(Decimal.Digits(5 * p) + "%")
  {
    hide Search, Decimal.Grouped, Label, LowerBound, Decimal.Digits, Percent;
    SurvivesByBound(n);
    SurvivesByBound(d);
    BoundMonotone(n, d);
    if n >= SUPPRESSION_K {
      var p := PercentBounds(LowerBound(n), LowerBound(d), fl);
      assert CohortRowOf(name, n, d, fl).percent == Some(Decimal.Digits(5 * p) + "%");
    }
  }

  lemma PercentBounds(a: int, b: int, fl: real -> real) returns (p: nat)
    requires 0 <= a <= b && b > 0 && Rounding(fl)
    ensures p <= 20 && Percent(a, b, fl) == 5 * p
  {
    var exact := a as real / b as real;
    assert exact * b as real == a as real;
    var ratio := Rounded(exact, 0, 1, fl);
    var pct := Rounded(ratio * 100.0, 0, 100, fl);
    var fifth := Rounded(pct / 5.0, 0, 20, fl);
    p := (fifth + 0.5).Floor;
  }

  /** Rounding stays between integers. */
  lemma Rounded(x: real, lo: int, hi: int, fl: real -> real) returns (r: real)
    requires Rounding(fl) && 0 <= lo <= hi <= 100 && lo as real <= x <= hi as real
    ensures r == fl(x) && lo as real <= r <= hi as real
  {
    r := fl(x);
    assert Exact(fl, lo) && Exact(fl, hi);
    assert fl(lo as real) <= fl(x) <= fl(hi as real);
  }

  /** A result is off by at most one part in a trillion; doubles are far closer. */
  ghost predicate Precise(fl: real -> real) {
    forall x :: x >= 0.0 ==> x - x * 0.000_000_000_001 <= fl(x) <= x + x * 0.000_000_000_001
  }

  /** The percentage shown is the multiple of five next to the ratio of the two lower bounds. */
  lemma PercentIsNearest(name: string, n: int, d: int, fl: real -> real)
    requires 5 <= n <= d && Rounding(fl) && Precise(fl)
    ensures LowerBound(d) > 0
    ensures exists p: nat ::
              && CohortRowOf(name, n, d, fl).percent == Some(Decimal.Digits(5 * p) + "%")
              && var ratio := 100.0 * (LowerBound(n) as real / LowerBound(d) as real);
                 -2.500_000_001 <= (5 * p) as real - ratio <= 2.500_000_001
  {
    hide Search, Decimal.Grouped, Label, LowerBound, Decimal.Digits, Percent;
    SurvivesByBound(n);
    SurvivesByBound(d);
    BoundMonotone(n, d);
    var p := PercentClose(LowerBound(n), LowerBound(d), fl);
    assert CohortRowOf(name, n, d, fl).percent == Some(Decimal.Digits(5 * p) + "%");
  }

  lemma PercentClose(a: int, b: int, fl: real -> real) returns (p: nat)
    requires 0 <= a <= b && b > 0 && Rounding(fl) && Precise(fl)
    ensures p <= 20 && Percent(a, b, fl) == 5 * p
    ensures -2.500_000_001 <= (5 * p) as real - 100.0 * (a as real / b as real) <= 2.500_000_001
  {
    var exact := a as real / b as real;
    assert exact * b as real == a as real;
    var ratio := Rounded(exact, 0, 1, fl);
    var pct := Rounded(ratio * 100.0, 0, 100, fl);
    var fifth := Rounded(pct / 5.0, 0, 20, fl);
    p := (fifth + 0.5).Floor;
    Off(exact, 1.0, fl);
    Off(ratio * 100.0, 100.0, fl);
    Off(pct / 5.0, 20.0, fl);
  }

  lemma Off(x: real, most: real, fl: real -> real)
    requires Precise(fl) && 0.0 <= x <= most
    ensures x - most * 0.000_000_000_001 <= fl(x) <= x + most * 0.000_000_000_001
  {
  }
}
