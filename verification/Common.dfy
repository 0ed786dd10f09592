/** Shared helpers: an optional value, powers of two, and sums over finite sets. */
module Common {

  datatype Option<+T> = None | Some(value: T)

  function Max(a: int, b: int): int {
    if a < b then b else a
  }

  function Min(a: int, b: int): int {
    if a < b then a else b
  }

  function Pow2(i: nat): (r: nat)
    ensures r >= 1
  {
    if i == 0 then 1 else 2 * Pow2(i - 1)
  }

  /** The sum of f over a finite set; SumPick shows that no choice of order matters. */
  ghost function SumOver<T(!new)>(s: set<T>, f: T -> int): int {
    if s == {} then 0 else
      var x :| x in s;
      f(x) + SumOver(s - {x}, f)
  }

  lemma {:induction false} SumPick<T(!new)>(s: set<T>, f: T -> int, x: T)
    requires x in s
    ensures SumOver(s, f) == f(x) + SumOver(s - {x}, f)
    decreases |s|
  {
    var y :| y in s && SumOver(s, f) == f(y) + SumOver(s - {y}, f);
    if y != x {
      SumPick(s - {y}, f, x);
      SumPick(s - {x}, f, y);
      assert s - {y} - {x} == s - {x} - {y};
    }
  }

  lemma {:induction false} SumMonotone<T(!new)>(s: set<T>, f: T -> int, g: T -> int)
    requires forall x | x in s :: f(x) <= g(x)
    ensures SumOver(s, f) <= SumOver(s, g)
    decreases |s|
  {
    if s != {} {
      var x :| x in s;
      SumPick(s, f, x);
      SumPick(s, g, x);
      SumMonotone(s - {x}, f, g);
    }
  }

  lemma SumCongruent<T(!new)>(s: set<T>, f: T -> int, g: T -> int)
    requires forall x | x in s :: f(x) == g(x)
    ensures SumOver(s, f) == SumOver(s, g)
  {
    SumMonotone(s, f, g);
    SumMonotone(s, g, f);
  }

  /** Members on which f vanishes may be left out of the sum. */
  lemma {:induction false} SumIgnoresZeros<T(!new)>(s: set<T>, part: set<T>, f: T -> int)
    requires part <= s
    requires forall x | x in s - part :: f(x) == 0
    ensures SumOver(s, f) == SumOver(part, f)
    decreases |s|
  {
    if x :| x in s && x !in part {
      SumPick(s, f, x);
      SumIgnoresZeros(s - {x}, part, f);
    } else {
      assert s == part;
    }
  }

  /** A subset as large as the whole is the whole. */
  lemma {:induction false} SubsetSameSize<T>(a: set<T>, b: set<T>)
    requires a <= b
    requires |a| == |b|
    ensures a == b
  {
    assert b == a + (b - a);
    assert |b - a| == 0;
  }
}
