/**
 TextEncoder on JavaScript strings: UTF-16 code units to Unicode scalar values, a lone surrogate to
 the replacement character, and those to UTF-8 (section 3 of RFC 3629). Which strings share their bytes.
 */
module Utf8 {
  import opened Base64

  type Unit = x: int | 0 <= x < 0x10000
  type Scalar = x: int | 0 <= x < 0x110000 && !(0xD800 <= x < 0xE000)

  const REPLACEMENT: Scalar := 0xFFFD

  predicate High(u: Unit) {
    0xD800 <= u < 0xDC00
  }

  predicate Low(u: Unit) {
    0xDC00 <= u < 0xE000
  }

  /** A surrogate pair at the front of a string. */
  predicate Pair(s: seq<Unit>) {
    |s| > 1 && High(s[0]) && Low(s[1])
  }

  function Combined(hi: Unit, lo: Unit): Scalar
    requires High(hi) && Low(lo)
  {
    0x10000 + (hi - 0xD800) * 0x400 + (lo - 0xDC00)
  }

  function Alone(u: Unit): Scalar {
    if High(u) || Low(u) then REPLACEMENT else u
  }

  function Scalars(s: seq<Unit>): seq<Scalar> {
    if s == [] then []
    else if Pair(s) then [Combined(s[0], s[1])] + Scalars(s[2..])
    else [Alone(s[0])] + Scalars(s[1..])
  }

  function Bytes(c: Scalar): seq<Byte> {
    if c < 0x80 then [c]
    else if c < 0x800 then [0xC0 + c / 64, 0x80 + c % 64]
    else if c < 0x10000 then [0xE0 + c / 4096, 0x80 + c / 64 % 64, 0x80 + c % 64]
    else [0xF0 + c / 262144, 0x80 + c / 4096 % 64, 0x80 + c / 64 % 64, 0x80 + c % 64]
  }

  function EncodeAll(cs: seq<Scalar>): seq<Byte> {
    if cs == [] then [] else Bytes(cs[0]) + EncodeAll(cs[1..])
  }

  /** new TextEncoder().encode(s) */
  function Encode(s: seq<Unit>): seq<Byte> {
    EncodeAll(Scalars(s))
  }

  // ---------------------------------------------------------------------------
  // UTF-8 is a prefix code
  // ---------------------------------------------------------------------------

  /** The length that a first byte announces. */
  ghost function Announced(b: int): nat {
    if b < 0x80 then 1 else if b < 0xE0 then 2 else if b < 0xF0 then 3 else 4
  }

  /** The value that the first bytes stand for. */
  ghost function Leading(s: seq<int>): int
    requires s != [] && |s| >= Announced(s[0])
  {
    var n := Announced(s[0]);
    if n == 1 then s[0]
    else if n == 2 then (s[0] - 0xC0) * 64 + (s[1] - 0x80)
    else if n == 3 then (s[0] - 0xE0) * 4096 + (s[1] - 0x80) * 64 + (s[2] - 0x80)
    else (s[0] - 0xF0) * 262144 + (s[1] - 0x80) * 4096 + (s[2] - 0x80) * 64 + (s[3] - 0x80)
  }

  lemma LeadingOfBytes(c: Scalar, rest: seq<Byte>)
    ensures var s := Bytes(c) + rest;
            s != [] && Announced(s[0]) == |Bytes(c)| && Leading(s) == c && s[|Bytes(c)|..] == rest
  {
    assert c == c / 64 * 64 + c % 64;
    assert c / 64 == c / 4096 * 64 + c / 64 % 64;
    assert c / 4096 == c / 262144 * 64 + c / 4096 % 64;
  }

  lemma {:induction false} EncodeAllApart(a: seq<Scalar>, b: seq<Scalar>)
    ensures EncodeAll(a) == EncodeAll(b) <==> a == b
  {
    hide Bytes, Leading, Announced;
    if EncodeAll(a) == EncodeAll(b) {
      if a != [] { LeadingOfBytes(a[0], EncodeAll(a[1..])); }
      if b != [] { LeadingOfBytes(b[0], EncodeAll(b[1..])); }
      if a != [] && b != [] {
        assert a[0] == b[0];
        EncodeAllApart(a[1..], b[1..]);
      }
    }
  }

  /** Two strings share their bytes exactly when they have the same scalar values. */
  lemma EncodeApart(s: seq<Unit>, t: seq<Unit>)
    ensures Encode(s) == Encode(t) <==> Scalars(s) == Scalars(t)
  {
    EncodeAllApart(Scalars(s), Scalars(t));
  }

  // ---------------------------------------------------------------------------
  // Lone surrogates
  // ---------------------------------------------------------------------------

  /** Every surrogate is half of a pair. */
  predicate WellFormed(s: seq<Unit>) {
    if s == [] then true
    else if Pair(s) then WellFormed(s[2..])
    else !High(s[0]) && !Low(s[0]) && WellFormed(s[1..])
  }

  function UnitsOf(c: Scalar): seq<Unit> {
    if c < 0x10000 then [c] else [0xD800 + (c - 0x10000) / 0x400, 0xDC00 + (c - 0x10000) % 0x400]
  }

  function Units(cs: seq<Scalar>): seq<Unit> {
    if cs == [] then [] else UnitsOf(cs[0]) + Units(cs[1..])
  }

  /** A well-formed string can be read back from its scalar values. */
  lemma {:induction false} UnitsOfScalars(s: seq<Unit>)
    requires WellFormed(s)
    ensures Units(Scalars(s)) == s
  {
    if s != [] {
      if Pair(s) {
        UnitsOfScalars(s[2..]);
        assert s == [s[0], s[1]] + s[2..];
      } else {
        UnitsOfScalars(s[1..]);
        assert s == [s[0]] + s[1..];
      }
    }
  }

  /** And every sequence of scalar values is one of some well-formed string. */
  lemma {:induction false} ScalarsOfUnits(cs: seq<Scalar>)
    ensures Scalars(Units(cs)) == cs && WellFormed(Units(cs))
  {
    if cs != [] {
      ScalarsOfUnits(cs[1..]);
      var u, t := UnitsOf(cs[0]), Units(cs[1..]);
      if cs[0] < 0x10000 {
        assert (u + t)[1..] == t && !Pair(u + t);
      } else {
        assert (u + t)[2..] == t && Pair(u + t);
      }
      assert cs == [cs[0]] + cs[1..];
    }
  }

  /** Without lone surrogates the bytes determine the string. */
  lemma WellFormedApart(s: seq<Unit>, t: seq<Unit>)
    requires WellFormed(s) && WellFormed(t)
    ensures Encode(s) == Encode(t) <==> s == t
  {
    hide Encode, Scalars, Units;
    EncodeApart(s, t);
    UnitsOfScalars(s);
    UnitsOfScalars(t);
  }

  /** Appending text that does not begin with a low surrogate, or to text that is well-formed. */
  lemma {:induction false} ScalarsAppend(s: seq<Unit>, t: seq<Unit>)
    requires WellFormed(s) || t == [] || !Low(t[0])
    ensures Scalars(s + t) == Scalars(s) + Scalars(t)
  {
    if s == [] {
      assert s + t == t;
    } else if Pair(s) {
      assert Pair(s + t) && (s + t)[2..] == s[2..] + t;
      ScalarsAppend(s[2..], t);
    } else {
      assert !Pair(s + t) && (s + t)[1..] == s[1..] + t;
      ScalarsAppend(s[1..], t);
    }
  }

  /** A character outside the surrogates and the replacement is in a string exactly when it is in its values. */
  lemma {:induction false} PlainMember(s: seq<Unit>, u: Unit)
    requires !High(u) && !Low(u) && u != REPLACEMENT
    ensures u in s <==> u in Scalars(s)
  {
    if s != [] {
      if Pair(s) {
        assert s == [s[0], s[1]] + s[2..];
        PlainMember(s[2..], u);
      } else {
        assert s == [s[0]] + s[1..];
        PlainMember(s[1..], u);
      }
    }
  }

  lemma {:induction false} NoReplacement(s: seq<Unit>)
    requires REPLACEMENT !in Scalars(s)
    ensures WellFormed(s)
  {
    if s != [] {
      if Pair(s) { NoReplacement(s[2..]); } else { NoReplacement(s[1..]); }
    }
  }

  lemma {:induction false} ReplacementKept(s: seq<Unit>)
    requires WellFormed(s)
    ensures REPLACEMENT in s <==> REPLACEMENT in Scalars(s)
  {
    if s != [] {
      if Pair(s) {
        assert s == [s[0], s[1]] + s[2..];
        ReplacementKept(s[2..]);
      } else {
        assert s == [s[0]] + s[1..];
        ReplacementKept(s[1..]);
      }
    }
  }

  lemma {:induction false} WellFormedSplit(s: seq<Unit>, i: nat)
    requires WellFormed(s) && i < |s| && s[i] == REPLACEMENT
    ensures WellFormed(s[..i]) && WellFormed(s[i + 1..])
  {
    if Pair(s) {
      WellFormedSplit(s[2..], i - 2);
      assert s[..i][2..] == s[2..][..i - 2] && s[2..][i - 1..] == s[i + 1..];
    } else if i > 0 {
      WellFormedSplit(s[1..], i - 1);
      assert s[..i][1..] == s[1..][..i - 1] && s[1..][i..] == s[i + 1..];
    }
  }

  /** Another string with the same bytes. */
  lemma Double(s: seq<Unit>) returns (t: seq<Unit>)
    requires !WellFormed(s) || REPLACEMENT in s
    ensures t != s && Encode(t) == Encode(s)
  {
    hide Scalars, WellFormed, EncodeAll, Units;
    if !WellFormed(s) {
      t := Units(Scalars(s));
      ScalarsOfUnits(Scalars(s));
    } else {
      var i :| 0 <= i < |s| && s[i] == REPLACEMENT;
      var p, q := s[..i], s[i + 1..];
      WellFormedSplit(s, i);
      t := p + ([0xDC00] + q);
      assert s == p + ([REPLACEMENT] + q);
      ScalarsAppend(p, [0xDC00] + q);
      ScalarsAppend(p, [REPLACEMENT] + q);
      LoneLow(q);
      assert t[i] != s[i];
    }
  }

  lemma LoneLow(q: seq<Unit>)
    ensures Scalars([0xDC00] + q) == [REPLACEMENT] + Scalars(q) == Scalars([REPLACEMENT] + q)
  {
    assert ([0xDC00] + q)[1..] == q && ([REPLACEMENT] + q)[1..] == q;
  }

  /** No other string has the bytes of s, if and only if s has no lone surrogate and no replacement character. */
  lemma BytesDetermineExactly(s: seq<Unit>)
    ensures (forall t :: Encode(t) == Encode(s) ==> t == s) <==> WellFormed(s) && REPLACEMENT !in s
  {
    hide Encode, Scalars, WellFormed;
    if WellFormed(s) && REPLACEMENT !in s {
      forall t | Encode(t) == Encode(s) ensures t == s {
        EncodeApart(t, s);
        ReplacementKept(s);
        NoReplacement(t);
        WellFormedApart(t, s);
      }
    } else {
      var t := Double(s);
    }
  }
}
