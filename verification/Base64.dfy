/**
 Bit strings, the reference for base64: bytes and sextets are the same bits cut into eights or into
 sixes (section 4 of RFC 4648).
 */
module Base64 {
  import opened Common

  type Byte = x: int | 0 <= x < 256
  type Sextet = x: int | 0 <= x < 64
  type Bit = x: int | 0 <= x < 2

  lemma Powers()
    ensures Pow2(2) == 4 && Pow2(4) == 16 && Pow2(6) == 64 && Pow2(8) == 256
  {
    assert Pow2(4) == 16;
    assert Pow2(6) == 4 * Pow2(4);
    assert Pow2(8) == 4 * Pow2(6);
  }

  // ---------------------------------------------------------------------------
  // Numbers as bits, most significant first
  // ---------------------------------------------------------------------------

  ghost function Bits(x: nat, w: nat): (s: seq<Bit>)
    ensures |s| == w
  {
    if w == 0 then [] else Bits(x / 2, w - 1) + [x % 2]
  }

  ghost function Number(s: seq<Bit>): (x: nat)
    ensures x < Pow2(|s|)
  {
    if s == [] then 0 else 2 * Number(s[..|s| - 1]) + s[|s| - 1]
  }

  lemma {:induction false} NumberOfBits(x: nat, w: nat)
    requires x < Pow2(w)
    ensures Number(Bits(x, w)) == x
  {
    if w > 0 {
      NumberOfBits(x / 2, w - 1);
      assert Bits(x, w)[..w - 1] == Bits(x / 2, w - 1);
    }
  }

  lemma {:induction false} BitsOfNumber(s: seq<Bit>)
    ensures Bits(Number(s), |s|) == s
  {
    if s != [] {
      BitsOfNumber(s[..|s| - 1]);
    }
  }

  /** A number's bits are those of its high part followed by those of its low part. */
  lemma {:induction false} BitsApart(hi: nat, lo: nat, v: nat, w: nat, p: nat)
    requires lo < p == Pow2(w)
    ensures Bits(hi * p + lo, v + w) == Bits(hi, v) + Bits(lo, w)
  {
    if w > 0 {
      var n := hi * p + lo;
      BitsApart(hi, lo / 2, v, w - 1, p / 2);
      Halve(hi, lo, p);
      assert Bits(n, v + w) == Bits(n / 2, v + w - 1) + [n % 2];
      assert Bits(hi, v) + Bits(lo, w) == Bits(hi, v) + Bits(lo / 2, w - 1) + [lo % 2];
    }
  }

  lemma Halve(hi: nat, lo: nat, p: nat)
    requires p % 2 == 0
    ensures (hi * p + lo) / 2 == hi * (p / 2) + lo / 2
    ensures (hi * p + lo) % 2 == lo % 2
  {
    var half := hi * (p / 2);
    assert hi * p == 2 * half;
  }

  // ---------------------------------------------------------------------------
  // Cutting a bit string into numbers of w bits
  // ---------------------------------------------------------------------------

  ghost predicate Fit(xs: seq<nat>, w: nat) {
    forall i :: 0 <= i < |xs| ==> xs[i] < Pow2(w)
  }

  ghost function Stream(xs: seq<nat>, w: nat): (s: seq<Bit>) {
    if xs == [] then [] else Bits(xs[0], w) + Stream(xs[1..], w)
  }

  ghost function Cut(s: seq<Bit>, w: nat): (xs: seq<nat>)
    requires w > 0
    ensures Fit(xs, w)
  {
    if |s| < w then [] else [Number(s[..w])] + Cut(s[w..], w)
  }

  /** The bits a cut leaves over. */
  ghost function Rest(s: seq<Bit>, w: nat): (r: seq<Bit>)
    requires w > 0
    ensures |r| < w
  {
    if |s| < w then s else Rest(s[w..], w)
  }

  lemma {:induction false} StreamLength(xs: seq<nat>, w: nat)
    ensures |Stream(xs, w)| == w * |xs|
  {
    if xs != [] { StreamLength(xs[1..], w); }
  }

  lemma {:induction false} StreamOfCut(s: seq<Bit>, w: nat)
    requires w > 0
    ensures s == Stream(Cut(s, w), w) + Rest(s, w)
  {
    hide Bits, Number, Pow2, Fit;
    if |s| >= w {
      StreamOfCut(s[w..], w);
      assert Cut(s, w)[1..] == Cut(s[w..], w);
      BitsOfNumber(s[..w]);
    }
  }

  lemma {:induction false} CutOfStream(xs: seq<nat>, tail: seq<Bit>, w: nat)
    requires Fit(xs, w) && |tail| < w
    ensures Cut(Stream(xs, w) + tail, w) == xs
  {
    hide Bits, Number, Pow2;
    if xs == [] {
      assert Stream(xs, w) + tail == tail;
    } else {
      var s := Stream(xs, w) + tail;
      CutOfStream(xs[1..], tail, w);
      assert s[..w] == Bits(xs[0], w) && s[w..] == Stream(xs[1..], w) + tail;
      NumberOfBits(xs[0], w);
    }
  }

  lemma {:induction false} StreamAppend(xs: seq<nat>, ys: seq<nat>, w: nat)
    ensures Stream(xs + ys, w) == Stream(xs, w) + Stream(ys, w)
  {
    hide Bits;
    if xs == [] {
      assert xs + ys == ys;
    } else {
      StreamAppend(xs[1..], ys, w);
      assert (xs + ys)[1..] == xs[1..] + ys;
      assert Stream(xs + ys, w) == Bits(xs[0], w) + (Stream(xs[1..], w) + Stream(ys, w));
    }
  }

  /** A whole number of cuts at the front can be taken on their own. */
  lemma CutAppend(xs: seq<nat>, s: seq<Bit>, w: nat)
    requires w > 0 && Fit(xs, w)
    ensures Cut(Stream(xs, w) + s, w) == xs + Cut(s, w)
  {
    hide Stream, Cut, Rest;
    StreamOfCut(s, w);
    StreamAppend(xs, Cut(s, w), w);
    assert Stream(xs, w) + s == Stream(xs + Cut(s, w), w) + Rest(s, w);
    CutOfStream(xs + Cut(s, w), Rest(s, w), w);
  }

  lemma CutLength(s: seq<Bit>, w: nat)
    requires w > 0
    ensures |s| == w * |Cut(s, w)| + |Rest(s, w)|
  {
    StreamOfCut(s, w);
    StreamLength(Cut(s, w), w);
  }

  // ---------------------------------------------------------------------------
  // Bytes and sextets
  // ---------------------------------------------------------------------------

  ghost function Zeros(n: nat): (s: seq<Bit>) {
    seq(n, _ => 0)
  }

  /** How many zero bits fill the last sextet of n bytes. */
  ghost function Fill(n: nat): nat {
    (6 - 8 * n % 6) % 6
  }

  lemma FillFacts(n: nat)
    ensures Fill(n) < 6 && 8 * n + Fill(n) == 6 * ((8 * n + 5) / 6)
  {
  }

  /** The lengths that are a whole number of bytes and their fill are all but one in four. */
  lemma FilledLengths(m: nat)
    ensures m % 4 != 1 <==> 6 * m == 8 * (6 * m / 8) + Fill(6 * m / 8)
  {
  }

  lemma Widths()
    ensures forall b: seq<Byte> :: Fit(b, 8)
    ensures forall xs: seq<Sextet> :: Fit(xs, 6)
  {
    Powers();
  }

  /** The bits of the bytes in sixes, the last six filled with zeros. */
  ghost function Sextets(b: seq<Byte>): seq<Sextet> {
    Powers();
    Cut(Stream(b, 8) + Zeros(Fill(|b|)), 6)
  }

  /** The bits of the sextets in eights, what is left over dropped. */
  ghost function Octets(xs: seq<Sextet>): seq<Byte> {
    Powers();
    Cut(Stream(xs, 6), 8)
  }

  lemma NoRest(a: nat, r: nat, k: nat)
    requires 6 * a + r == 6 * k && r < 6
    ensures r == 0 && a == k
  {
  }

  /** No bits are lost or added: n bytes take the least number of sextets that holds them. */
  lemma SextetStream(b: seq<Byte>)
    ensures Stream(Sextets(b), 6) == Stream(b, 8) + Zeros(Fill(|b|))
    ensures |Sextets(b)| == (8 * |b| + 5) / 6
  {
    hide Stream, Cut, Rest, Fill;
    var s := Stream(b, 8) + Zeros(Fill(|b|));
    FillFacts(|b|);
    StreamLength(b, 8);
    CutLength(s, 6);
    StreamOfCut(s, 6);
    NoRest(|Sextets(b)|, |Rest(s, 6)|, (8 * |b| + 5) / 6);
  }

  lemma OctetStream(xs: seq<Sextet>)
    ensures |Octets(xs)| == 6 * |xs| / 8
    ensures |Stream(xs, 6)| == 6 * |xs|
    ensures Stream(Octets(xs), 8) == Stream(xs, 6)[..8 * |Octets(xs)|]
  {
    hide Stream, Cut, Rest;
    StreamLength(xs, 6);
    CutLength(Stream(xs, 6), 8);
    StreamOfCut(Stream(xs, 6), 8);
    StreamLength(Octets(xs), 8);
  }

  /** Cutting into sixes and then into eights gives the bytes back. */
  lemma OctetsOfSextets(b: seq<Byte>)
    ensures Octets(Sextets(b)) == b
  {
    hide Stream, Cut, Fit, Fill;
    Widths();
    FillFacts(|b|);
    SextetStream(b);
    CutOfStream(b, Zeros(Fill(|b|)), 8);
  }

  /** A length that some byte string encodes to, and no bit set past the last whole byte. */
  ghost predicate Canonical(xs: seq<Sextet>) {
    StreamLength(xs, 6);
    |xs| % 4 != 1 && forall k :: 8 * (6 * |xs| / 8) <= k < 6 * |xs| ==> Stream(xs, 6)[k] == 0
  }

  /** The other way round it is exactly the canonical sextets that come back. */
  lemma SextetsOfOctets(xs: seq<Sextet>)
    ensures Sextets(Octets(xs)) == xs <==> Canonical(xs)
  {
    hide Stream, Cut, Fit, Sextets, Octets, Fill;
    var s, b := Stream(xs, 6), Octets(xs);
    OctetStream(xs);
    SextetStream(b);
    StreamLength(b, 8);
    FilledLengths(|xs|);
    if Canonical(xs) {
      assert s == Stream(b, 8) + Zeros(Fill(|b|));
      SameStream(Sextets(b), xs);
    }
  }

  lemma SameStream(xs: seq<Sextet>, ys: seq<Sextet>)
    requires Stream(xs, 6) == Stream(ys, 6)
    ensures xs == ys
  {
    hide Stream, Cut, Fit;
    Widths();
    assert Stream(xs, 6) + [] == Stream(xs, 6);
    CutOfStream(xs, [], 6);
    CutOfStream(ys, [], 6);
  }

  // ---------------------------------------------------------------------------
  // Three bytes are four sextets
  // ---------------------------------------------------------------------------

  /** The bits of an octet at three places where sextets end. */
  lemma ByteApart(x: Byte)
    ensures Bits(x, 8) == Bits(x / 4, 6) + Bits(x % 4, 2)
    ensures Bits(x, 8) == Bits(x / 16, 4) + Bits(x % 16, 4)
    ensures Bits(x, 8) == Bits(x / 64, 2) + Bits(x % 64, 6)
  {
    hide Bits;
    Powers();
    BitsApart(x / 4, x % 4, 6, 2, 4);
    BitsApart(x / 16, x % 16, 4, 4, 16);
    BitsApart(x / 64, x % 64, 2, 6, 64);
  }

  /** Low bits of one octet and high bits of the next, as one sextet. */
  lemma SextetMeet(lo: nat, hi: nat)
    ensures hi < 16 ==> Bits(lo, 2) + Bits(hi, 4) == Bits(lo * 16 + hi, 6)
    ensures hi < 4 ==> Bits(lo, 4) + Bits(hi, 2) == Bits(lo * 4 + hi, 6)
  {
    hide Bits;
    Powers();
    if hi < 16 { BitsApart(lo, hi, 2, 4, 16); }
    if hi < 4 { BitsApart(lo, hi, 4, 2, 4); }
  }

  lemma OneByte(x: Byte)
    ensures Stream([x], 8) + Zeros(4) == Stream([x / 4, x % 4 * 16], 6)
  {
    hide Bits;
    ByteApart(x);
    SextetMeet(x % 4, 0);
    NoBits();
    StreamOf1(x, 8);
    StreamOf2(x / 4, x % 4 * 16, 6);
  }

  lemma TwoBytes(x: Byte, y: Byte)
    ensures Stream([x, y], 8) + Zeros(2) == Stream([x / 4, x % 4 * 16 + y / 16, y % 16 * 4], 6)
  {
    hide Bits;
    ByteApart(x);
    ByteApart(y);
    SextetMeet(x % 4, y / 16);
    SextetMeet(y % 16, 0);
    NoBits();
    StreamOf2(x, y, 8);
    StreamOf3(x / 4, x % 4 * 16 + y / 16, y % 16 * 4, 6);
  }

  lemma NoBits()
    ensures Bits(0, 2) == Zeros(2) && Bits(0, 4) == Zeros(4)
  {
    assert Bits(0, 2) == Zeros(2);
    assert Bits(0, 3) == Zeros(2) + [0];
  }

  lemma ThreeBytes(x: Byte, y: Byte, z: Byte)
    ensures Stream([x, y, z], 8) == Stream([x / 4, x % 4 * 16 + y / 16, y % 16 * 4 + z / 64, z % 64], 6)
  {
    hide Bits;
    ByteApart(x);
    ByteApart(y);
    ByteApart(z);
    SextetMeet(x % 4, y / 16);
    SextetMeet(y % 16, z / 64);
    StreamOf3(x, y, z, 8);
    StreamOf4(x / 4, x % 4 * 16 + y / 16, y % 16 * 4 + z / 64, z % 64, 6);
  }

  lemma StreamOf1(x: nat, w: nat)
    ensures Stream([x], w) == Bits(x, w)
  {
  }

  lemma StreamOf2(x: nat, y: nat, w: nat)
    ensures Stream([x, y], w) == Bits(x, w) + Bits(y, w)
  {
    assert [x, y][1..] == [y];
    StreamOf1(y, w);
  }

  lemma StreamOf3(x: nat, y: nat, z: nat, w: nat)
    ensures Stream([x, y, z], w) == Bits(x, w) + Bits(y, w) + Bits(z, w)
  {
    assert [x, y, z][1..] == [y, z];
    StreamOf2(y, z, w);
  }

  lemma StreamOf4(x: nat, y: nat, z: nat, u: nat, w: nat)
    ensures Stream([x, y, z, u], w) == Bits(x, w) + Bits(y, w) + Bits(z, w) + Bits(u, w)
  {
    assert [x, y, z, u][1..] == [y, z, u];
    StreamOf3(y, z, u, w);
  }
}
