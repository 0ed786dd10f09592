/**
 The device-pairing wire format: canonical unpadded base64url, the QR payload, the relay body and the
 authenticated data that binds a pairing to its user, session and epoch.
 */
module PairCodec {
  import opened Common
  import opened Base64
  import Decimal
  import opened Utf8

  // ---------------------------------------------------------------------------
  // Symbols
  // ---------------------------------------------------------------------------

  /** A character of a binary string, as btoa takes and atob returns. */
  type Latin1 = c: char | c as int < 256

  function CharOf(x: Byte): (c: Latin1)
    ensures c as int == x
  {
    x as char
  }

  /** The standard alphabet, section 4 of RFC 4648. */
  function Symbol(v: Sextet): char {
    if v < 26 then ('A' as int + v) as char
    else if v < 52 then ('a' as int + v - 26) as char
    else if v < 62 then ('0' as int + v - 52) as char
    else if v == 62 then '+' else '/'
  }

  function Value(c: char): Option<Sextet> {
    if 'A' <= c <= 'Z' then Some(c as int - 'A' as int)
    else if 'a' <= c <= 'z' then Some(c as int - 'a' as int + 26)
    else if '0' <= c <= '9' then Some(c as int - '0' as int + 52)
    else if c == '+' then Some(62) else if c == '/' then Some(63) else None
  }

  /** The class [A-Za-z0-9_-]. */
  predicate IsUrlChar(c: char) {
    'A' <= c <= 'Z' || 'a' <= c <= 'z' || '0' <= c <= '9' || c == '_' || c == '-'
  }

  predicate IsUrl(s: string) {
    s != "" && forall i :: 0 <= i < |s| ==> IsUrlChar(s[i])
  }

  function Swap(s: string, from: char, to: char): (r: string)
    ensures |r| == |s|
  {
    seq(|s|, i requires 0 <= i < |s| => if s[i] == from then to else s[i])
  }

  function ToUrl(s: string): (r: string)
    ensures |r| == |s|
  {
    Swap(Swap(s, '+', '-'), '/', '_')
  }

  function ToStandard(s: string): (r: string)
    ensures |r| == |s|
  {
    Swap(Swap(s, '-', '+'), '_', '/')
  }

  ghost function UrlSymbol(v: Sextet): char {
    if v == 62 then '-' else if v == 63 then '_' else Symbol(v)
  }

  ghost function UrlValue(c: char): Sextet
    requires IsUrlChar(c)
  {
    if c == '-' then 62 else if c == '_' then 63 else Value(c).value
  }

  /** Sextets in the URL-safe alphabet, section 5 of RFC 4648. */
  ghost function Text(xs: seq<Sextet>): (s: string)
    ensures |s| == |xs|
  {
    seq(|xs|, i requires 0 <= i < |xs| => UrlSymbol(xs[i]))
  }

  ghost function Values(s: string): (xs: seq<Sextet>)
    requires forall i :: 0 <= i < |s| ==> IsUrlChar(s[i])
    ensures |xs| == |s|
  {
    seq(|s|, i requires 0 <= i < |s| => UrlValue(s[i]))
  }

  lemma ValuesOfText(xs: seq<Sextet>)
    ensures forall i :: 0 <= i < |xs| ==> IsUrlChar(Text(xs)[i])
    ensures Values(Text(xs)) == xs
  {
  }

  lemma TextOfValues(s: string)
    requires forall i :: 0 <= i < |s| ==> IsUrlChar(s[i])
    ensures Text(Values(s)) == s
  {
  }

  /** Unpadded base64url of a byte string: its bits in sixes, spelled in the URL-safe alphabet. */
  ghost function Encoded(b: seq<Byte>): (s: string) {
    Text(Sextets(b))
  }

  lemma EncodedFacts(b: seq<Byte>)
    ensures |Encoded(b)| == (8 * |b| + 5) / 6
    ensures b != [] ==> IsUrl(Encoded(b))
    ensures Encoded(b) == "" <==> b == []
    ensures forall i :: 0 <= i < |Encoded(b)| ==> IsUrlChar(Encoded(b)[i])
  {
    hide Sextets, Text;
    SextetStream(b);
    ValuesOfText(Sextets(b));
  }

  // ---------------------------------------------------------------------------
  // btoa, and toBase64Url on top of it
  // ---------------------------------------------------------------------------

  function Group(x: Byte, y: Byte, z: Byte): (g: string)
    ensures |g| == 4
  {
    [Symbol(x / 4), Symbol(x % 4 * 16 + y / 16), Symbol(y % 16 * 4 + z / 64), Symbol(z % 64)]
  }

  /** Groups of three characters become four symbols; a short last group is padded. */
  function Btoa(bin: seq<Latin1>): string {
    if |bin| == 0 then ""
    else if |bin| == 1 then
      var x := bin[0] as int;
      [Symbol(x / 4), Symbol(x % 4 * 16), '=', '=']
    else if |bin| == 2 then
      var x, y := bin[0] as int, bin[1] as int;
      [Symbol(x / 4), Symbol(x % 4 * 16 + y / 16), Symbol(y % 16 * 4), '=']
    else
      Group(bin[0] as int, bin[1] as int, bin[2] as int) + Btoa(bin[3..])
  }

  /** Remove every trailing '='. */
  function StripPad(s: string): string {
    if s != "" && s[|s| - 1] == '=' then StripPad(s[..|s| - 1]) else s
  }

  lemma {:induction false} StripAppend(g: string, r: string)
    requires g != "" && g[|g| - 1] != '='
    ensures StripPad(g + r) == g + StripPad(r)
  {
    if r != "" && r[|r| - 1] == '=' {
      StripAppend(g, r[..|r| - 1]);
      assert (g + r)[..|g + r| - 1] == g + r[..|r| - 1];
    } else if r == "" {
      assert g + r == g;
    }
  }

  lemma ToUrlAppend(s: string, t: string)
    ensures ToUrl(s + t) == ToUrl(s) + ToUrl(t)
  {
  }

  lemma TextAppend(xs: seq<Sextet>, ys: seq<Sextet>)
    ensures Text(xs + ys) == Text(xs) + Text(ys)
  {
  }

  /** The characters a byte string is handed to btoa as. */
  ghost function Chars(b: seq<Byte>): (s: seq<Latin1>)
    ensures |s| == |b|
  {
    seq(|b|, i requires 0 <= i < |b| => CharOf(b[i]))
  }

  lemma SextetsStep(b: seq<Byte>)
    requires |b| >= 3
    ensures var x, y, z := b[0], b[1], b[2];
            Sextets(b) == [x / 4, x % 4 * 16 + y / 16, y % 16 * 4 + z / 64, z % 64] + Sextets(b[3..])
  {
    hide Stream, Cut, Fit;
    Widths();
    var x, y, z := b[0], b[1], b[2];
    var group: seq<Sextet> := [x / 4, x % 4 * 16 + y / 16, y % 16 * 4 + z / 64, z % 64];
    ThreeBytes(x, y, z);
    assert b == [x, y, z] + b[3..];
    StreamAppend([x, y, z], b[3..], 8);
    var rest := Stream(b[3..], 8) + Zeros(Fill(|b| - 3));
    assert Fill(|b|) == Fill(|b| - 3);
    assert Stream(b, 8) + Zeros(Fill(|b|)) == Stream(group, 6) + rest;
    CutAppend(group, rest, 6);
  }

  lemma SextetsShort(b: seq<Byte>)
    requires |b| <= 2
    ensures b == [] ==> Sextets(b) == []
    ensures |b| == 1 ==> Sextets(b) == [b[0] / 4, b[0] % 4 * 16]
    ensures |b| == 2 ==> Sextets(b) == [b[0] / 4, b[0] % 4 * 16 + b[1] / 16, b[1] % 16 * 4]
  {
    hide Stream, Cut, Fit, Sextets;
    SextetStream(b);
    if |b| == 1 {
      assert b == [b[0]];
      OneByte(b[0]);
      SameStream(Sextets(b), [b[0] / 4, b[0] % 4 * 16]);
    } else if |b| == 2 {
      assert b == [b[0], b[1]];
      TwoBytes(b[0], b[1]);
      SameStream(Sextets(b), [b[0] / 4, b[0] % 4 * 16 + b[1] / 16, b[1] % 16 * 4]);
    }
  }

  lemma GroupText(x: Byte, y: Byte, z: Byte)
    ensures ToUrl(Group(x, y, z)) == Text([x / 4, x % 4 * 16 + y / 16, y % 16 * 4 + z / 64, z % 64])
    ensures ToUrl(Group(x, y, z))[3] != '='
  {
  }

  /** btoa with its alphabet swapped and its padding stripped is the bit-level encoding. */
  lemma {:induction false} BtoaEncodes(b: seq<Byte>)
    ensures StripPad(ToUrl(Btoa(Chars(b)))) == Encoded(b)
  {
    hide Sextets, ToUrl, Text, StripPad, Group;
    if |b| < 3 {
      SextetsShort(b);
      BtoaShort(b);
    } else {
      var x, y, z := b[0], b[1], b[2];
      BtoaEncodes(b[3..]);
      SextetsStep(b);
      assert Chars(b)[3..] == Chars(b[3..]);
      var group: seq<Sextet> := [x / 4, x % 4 * 16 + y / 16, y % 16 * 4 + z / 64, z % 64];
      var g, r := Group(x, y, z), Btoa(Chars(b[3..]));
      GroupText(x, y, z);
      ToUrlAppend(g, r);
      StripAppend(ToUrl(g), ToUrl(r));
      TextAppend(group, Sextets(b[3..]));
    }
  }

  lemma BtoaShort(b: seq<Byte>)
    requires |b| < 3
    requires b == [] ==> Sextets(b) == []
    requires |b| == 1 ==> Sextets(b) == [b[0] / 4, b[0] % 4 * 16]
    requires |b| == 2 ==> Sextets(b) == [b[0] / 4, b[0] % 4 * 16 + b[1] / 16, b[1] % 16 * 4]
    ensures StripPad(ToUrl(Btoa(Chars(b)))) == Encoded(b)
  {
    hide Sextets;
    var t := Text(Sextets(b));
    var pad := if b == [] then "" else if |b| == 1 then "==" else "=";
    assert ToUrl(Btoa(Chars(b))) == t + pad;
    if b != [] {
      StripAppend(t, pad);
      assert StripPad("=") == "" && StripPad("==") == StripPad("=") by { assert "=="[..1] == "="; }
    }
  }

  /** A vector of section 10 of RFC 4648, and one for the two symbols that the URL-safe alphabet changes. */
  lemma Vectors()
    ensures Encoded([0x66, 0x6F, 0x6F, 0x62, 0x61, 0x72]) == "Zm9vYmFy"
    ensures Encoded([0xFB, 0xFF, 0xFF]) == "-___"
  {
    hide Encoded, Btoa, Group, Chars;
    var b: seq<Byte> := [0x66, 0x6F, 0x6F, 0x62, 0x61, 0x72];
    var c: seq<Byte> := [0xFB, 0xFF, 0xFF];
    BtoaEncodes(b);
    BtoaEncodes(c);
    BtoaThree(b);
    BtoaThree(c);
    assert b[3..] == [0x62, 0x61, 0x72];
    BtoaThree(b[3..]);
    Foobar();
  }

  lemma BtoaThree(b: seq<Byte>)
    requires |b| >= 3
    ensures Btoa(Chars(b)) == Group(b[0], b[1], b[2]) + if |b| == 3 then "" else Btoa(Chars(b[3..]))
  {
    hide Group;
    assert Chars(b)[3..] == Chars(b[3..]);
  }

  lemma Foobar()
    ensures Group(0x66, 0x6F, 0x6F) == "Zm9v" && Group(0x62, 0x61, 0x72) == "YmFy" && Group(0xFB, 0xFF, 0xFF) == "+///"
  {
  }

  method ToBase64Url(bytes: seq<Byte>) returns (s: string)
    ensures s == Encoded(bytes)
  {
    var bin: seq<Latin1> := [];
    for i := 0 to |bytes|
      invariant bin == Chars(bytes[..i])
    {
      bin := bin + [CharOf(bytes[i])];
    }
    assert bytes[..|bytes|] == bytes;
    BtoaEncodes(bytes);
    s := StripPad(ToUrl(Btoa(bin)));
  }

  // ---------------------------------------------------------------------------
  // atob, and fromBase64Url on top of it
  // ---------------------------------------------------------------------------

  /** One or two '=' at the end of a whole number of groups. */
  function DropPad(s: string): string {
    if |s| % 4 != 0 || s == "" || s[|s| - 1] != '=' then s
    else if s[|s| - 2] == '=' then s[..|s| - 2] else s[..|s| - 1]
  }

  predicate Six(x: int) {
    0 <= x < 64
  }

  function First(p: int, q: int): Byte
    requires Six(p) && Six(q)
  {
    p * 4 + q / 16
  }

  function Second(q: int, r: int): Byte
    requires Six(q) && Six(r)
  {
    q % 16 * 16 + r / 4
  }

  function Third(r: int, s: int): Byte
    requires Six(r) && Six(s)
  {
    r % 4 * 64 + s
  }

  /** Four symbols become three characters; bits left over at the end are ignored. */
  function Unpack(xs: seq<Sextet>): seq<Latin1>
    requires |xs| % 4 != 1
  {
    if |xs| == 0 then []
    else if |xs| == 2 then [CharOf(First(xs[0], xs[1]))]
    else if |xs| == 3 then [CharOf(First(xs[0], xs[1])), CharOf(Second(xs[1], xs[2]))]
    else
      [CharOf(First(xs[0], xs[1])), CharOf(Second(xs[1], xs[2])), CharOf(Third(xs[2], xs[3]))] + Unpack(xs[4..])
  }

  /** Lenient base64: padding is optional and trailing bits may be anything. */
  function Atob(s: string): Option<seq<Latin1>> {
    var t := DropPad(s);
    if |t| % 4 == 1 || exists i :: 0 <= i < |t| && Value(t[i]).None? then None
    else Some(Unpack(seq(|t|, i requires 0 <= i < |t| => Value(t[i]).value)))
  }

  /** Four sextets are three bytes. */
  lemma FourSextets(p: Sextet, q: Sextet, r: Sextet, s: Sextet)
    ensures Stream([p, q, r, s], 6) == Stream([First(p, q), Second(q, r), Third(r, s)], 8)
  {
    hide Stream;
    var x, y, z := First(p, q), Second(q, r), Third(r, s);
    ThreeBytes(x, y, z);
    assert x / 4 == p && x % 4 * 16 + y / 16 == q && y % 16 * 4 + z / 64 == r && z % 64 == s;
  }

  lemma OctetsOfTwo(p: Sextet, q: Sextet)
    ensures Octets([p, q]) == [First(p, q)]
  {
    hide Cut, Fit, Bits, First, Second, Third, Stream;
    Widths();
    var x, y, z := First(p, q), Second(q, 0), Third(0, 0);
    FourSextets(p, q, 0, 0);
    StreamOf4(p, q, 0, 0, 6);
    StreamOf3(x, y, z, 8);
    StreamOf2(p, q, 6);
    StreamOf1(x, 8);
    var tail := Bits(y, 8)[..4];
    assert Stream([p, q], 6) == (Bits(x, 8) + Bits(y, 8) + Bits(z, 8))[..12] == Stream([x], 8) + tail;
    CutOfStream([x], tail, 8);
  }

  lemma OctetsOfThree(p: Sextet, q: Sextet, r: Sextet)
    ensures Octets([p, q, r]) == [First(p, q), Second(q, r)]
  {
    hide Cut, Fit, Bits, First, Second, Third, Stream;
    Widths();
    var x, y, z := First(p, q), Second(q, r), Third(r, 0);
    FourSextets(p, q, r, 0);
    StreamOf4(p, q, r, 0, 6);
    StreamOf3(x, y, z, 8);
    StreamOf3(p, q, r, 6);
    StreamOf2(x, y, 8);
    var tail := Bits(z, 8)[..2];
    assert Stream([p, q, r], 6) == (Bits(x, 8) + Bits(y, 8) + Bits(z, 8))[..18] == Stream([x, y], 8) + tail;
    CutOfStream([x, y], tail, 8);
  }

  lemma OctetsStep(xs: seq<Sextet>)
    requires |xs| >= 4
    ensures Octets(xs) == [First(xs[0], xs[1]), Second(xs[1], xs[2]), Third(xs[2], xs[3])] + Octets(xs[4..])
  {
    hide Stream, Cut, Fit, First, Second, Third;
    Widths();
    var p, q, r, s := xs[0], xs[1], xs[2], xs[3];
    FourSextets(p, q, r, s);
    assert xs == [p, q, r, s] + xs[4..];
    StreamAppend([p, q, r, s], xs[4..], 6);
    CutAppend([First(p, q), Second(q, r), Third(r, s)], Stream(xs[4..], 6), 8);
  }

  lemma {:induction false} UnpackIsOctets(xs: seq<Sextet>)
    requires |xs| % 4 != 1
    ensures Unpack(xs) == Chars(Octets(xs))
  {
    hide Octets, First, Second, Third;
    if xs == [] {
      OctetStream(xs);
    } else if |xs| == 2 {
      assert xs == [xs[0], xs[1]];
      OctetsOfTwo(xs[0], xs[1]);
    } else if |xs| == 3 {
      assert xs == [xs[0], xs[1], xs[2]];
      OctetsOfThree(xs[0], xs[1], xs[2]);
    } else {
      OctetsStep(xs);
      UnpackIsOctets(xs[4..]);
    }
  }

  /** The number of '=' that fill up the last group of four. */
  function Padding(s: string): (p: string) {
    seq((4 - |s| % 4) % 4, _ => '=')
  }

  lemma StandardValues(v: string)
    requires forall i :: 0 <= i < |v| ==> IsUrlChar(v[i])
    ensures forall i :: 0 <= i < |v| ==> Value(ToStandard(v)[i]) == Some(UrlValue(v[i]))
    ensures forall i :: 0 <= i < |v| ==> ToStandard(v)[i] != '='
  {
  }

  lemma DropPadding(s: string)
    requires forall i :: 0 <= i < |s| ==> s[i] != '='
    ensures DropPad(s + Padding(s)) == if |s| % 4 == 1 then s + "=" else s
  {
    var n := |s| % 4;
    var t := s + Padding(s);
    if n == 0 {
      assert t == s;
    } else if n == 1 {
      assert t == s + "===" && |t| % 4 == 0 && t[..|t| - 2] == s + "=";
    } else if n == 2 {
      assert t == s + "==" && |t| % 4 == 0 && t[..|t| - 2] == s;
    } else {
      assert t == s + "=" && |t| % 4 == 0 && t[..|t| - 1] == s && t[|t| - 2] == s[|s| - 1];
    }
  }

  lemma AtobOfUrl(v: string)
    requires forall i :: 0 <= i < |v| ==> IsUrlChar(v[i])
    ensures var s := ToStandard(v);
            Atob(s + Padding(s)) == if |v| % 4 == 1 then None else Some(Unpack(Values(v)))
  {
    hide Unpack, DropPad, ToStandard, Value, Padding, UrlValue;
    var s := ToStandard(v);
    StandardValues(v);
    DropPadding(s);
    if |v| % 4 == 1 {
      PadHasNoValue();
      assert (s + "=")[|s|] == '=';
    } else {
      assert Values(v) == seq(|s|, i requires 0 <= i < |s| => Value(s[i]).value);
    }
  }

  lemma PadHasNoValue()
    ensures Value('=').None?
  {
  }

  /** None models the exception atob raises. */
  method FromBase64Url(value: string) returns (r: Option<seq<Byte>>)
    ensures (forall i :: 0 <= i < |value| ==> IsUrlChar(value[i])) ==>
              r == if |value| % 4 == 1 then None else Some(Octets(Values(value)))
  {
    hide Octets, Unpack, Atob;
    var b64 := ToStandard(value);
    var bin := Atob(b64 + Padding(b64));
    if bin.None? {
      if forall i :: 0 <= i < |value| ==> IsUrlChar(value[i]) { AtobOfUrl(value); }
      return None;
    }
    var out := new Byte[|bin.value|];
    for i := 0 to |bin.value|
      invariant forall j :: 0 <= j < i ==> out[j] == bin.value[j] as int
    {
      out[i] := bin.value[i] as int;
    }
    if forall i :: 0 <= i < |value| ==> IsUrlChar(value[i]) {
      AtobOfUrl(value);
      if |value| % 4 != 1 {
        UnpackIsOctets(Values(value));
        assert out[..] == Octets(Values(value));
      }
    }
    return Some(out[..]);
  }

  // ---------------------------------------------------------------------------
  // Exact decoding
  // ---------------------------------------------------------------------------

  /** Encoding is injective. */
  lemma EncodedApart(b: seq<Byte>, c: seq<Byte>)
    ensures Encoded(b) == Encoded(c) <==> b == c
  {
    hide Sextets, Octets, Text, Values;
    ValuesOfText(Sextets(b));
    ValuesOfText(Sextets(c));
    OctetsOfSextets(b);
    OctetsOfSextets(c);
  }

  lemma NoLoneSymbol(n: nat)
    ensures (8 * n + 5) / 6 % 4 != 1
  {
  }

  /** Decoding what was encoded gives it back. */
  lemma DecodeOfEncoded(b: seq<Byte>)
    ensures |Encoded(b)| % 4 != 1
    ensures forall i :: 0 <= i < |Encoded(b)| ==> IsUrlChar(Encoded(b)[i])
    ensures Octets(Values(Encoded(b))) == b
  {
    hide Sextets, Octets, Text, Values;
    NoLoneSymbol(|b|);
    EncodedFacts(b);
    ValuesOfText(Sextets(b));
    OctetsOfSextets(b);
  }

  /**
   Decode, then re-encode and compare. Exactly the encodings of n bytes are accepted, each as the
   bytes it encodes; the empty string is refused whatever the length asked for.
   */
  method DecodeExact(value: string, n: nat) returns (r: Option<seq<Byte>>)
    ensures forall b: seq<Byte> :: r == Some(b) <==> value != "" && |b| == n && Encoded(b) == value
  {
    hide Octets, Values, Encoded;
    forall b: seq<Byte> | Encoded(b) == value
      ensures |value| % 4 != 1 && (forall i :: 0 <= i < |value| ==> IsUrlChar(value[i])) && Octets(Values(value)) == b
    {
      DecodeOfEncoded(b);
    }
    if !IsUrl(value) { return None; }
    var decoded := FromBase64Url(value);
    if decoded.None? { return None; }
    var again := ToBase64Url(decoded.value);
    if |decoded.value| != n || again != value { return None; }
    return decoded;
  }

  /** Which strings encode n bytes: right alphabet, right length, and no stray bit at the end. */
  lemma AcceptedExactly(v: string, n: nat)
    ensures (exists b: seq<Byte> :: |b| == n && Encoded(b) == v) <==>
            (forall i :: 0 <= i < |v| ==> IsUrlChar(v[i])) && |v| == (8 * n + 5) / 6 && Canonical(Values(v))
  {
    hide Sextets, Octets, Text, Values, Canonical;
    if b: seq<Byte> :| |b| == n && Encoded(b) == v {
      EncodedFacts(b);
      ValuesOfText(Sextets(b));
      OctetsOfSextets(b);
      SextetsOfOctets(Sextets(b));
    }
    if (forall i :: 0 <= i < |v| ==> IsUrlChar(v[i])) && |v| == (8 * n + 5) / 6 && Canonical(Values(v)) {
      var b := Octets(Values(v));
      SextetsOfOctets(Values(v));
      OctetStream(Values(v));
      TextOfValues(v);
      assert |b| == n && Encoded(b) == v;
    }
  }

  // ---------------------------------------------------------------------------
  // Session ids and the QR payload
  // ---------------------------------------------------------------------------

  const QR_PREFIX := "MP1."
  const SESSION_ID_BYTES := 16
  const SESSION_ID_CHARS := 22
  const PUBLIC_KEY_BYTES := 32
  const PUBLIC_KEY_CHARS := 43

  /** What a QR code carries. */
  datatype Qr = Qr(sessionId: string, publicKey: seq<Byte>)

  /** The 22 characters of some 16 bytes. */
  ghost predicate SessionId(s: string) {
    exists b: seq<Byte> :: |b| == SESSION_ID_BYTES && Encoded(b) == s
  }

  lemma SessionIdChars(s: string)
    requires SessionId(s)
    ensures |s| == SESSION_ID_CHARS && s != "" && '.' !in s
  {
    hide Encoded;
    var b: seq<Byte> :| |b| == SESSION_ID_BYTES && Encoded(b) == s;
    EncodedFacts(b);
  }

  method IsValidSessionId(sessionId: string) returns (ok: bool)
    ensures ok <==> SessionId(sessionId)
  {
    hide Encoded;
    if SessionId(sessionId) { SessionIdChars(sessionId); }
    if |sessionId| != SESSION_ID_CHARS { return false; }
    var r := DecodeExact(sessionId, SESSION_ID_BYTES);
    assert r.Some? ==> r == Some(r.value);
    return r.Some?;
  }

  /** The payload of a QR, when it has one. */
  ghost function Payload(q: Qr): Option<string> {
    if SessionId(q.sessionId) && |q.publicKey| == PUBLIC_KEY_BYTES
    then Some(QR_PREFIX + q.sessionId + "." + Encoded(q.publicKey))
    else None
  }

  method EncodePairQr(sessionId: string, publicKey: seq<Byte>) returns (text: Option<string>)
    ensures text == Payload(Qr(sessionId, publicKey))
  {
    hide SessionId;
    var ok := IsValidSessionId(sessionId);
    if !ok || |publicKey| != PUBLIC_KEY_BYTES { return None; }
    var pk := ToBase64Url(publicKey);
    return Some(QR_PREFIX + sessionId + "." + pk);
  }

  /** The index of the first c, or the length. */
  function Find(s: string, c: char): (i: nat)
    ensures i <= |s| && c !in s[..i] && (i < |s| ==> s[i] == c)
  {
    if s == "" || s[0] == c then 0 else Find(s[1..], c) + 1
  }

  /** s.split(c) */
  function Split(s: string, c: char): seq<string> {
    var i := Find(s, c);
    if i == |s| then [s] else [s[..i]] + Split(s[i + 1..], c)
  }

  /** The first separator ends the first field. */
  lemma FirstField<T>(a: seq<T>, x: seq<T>, b: seq<T>, y: seq<T>, c: T)
    requires c !in a && c !in b && a + [c] + x == b + [c] + y
    ensures a == b && x == y
  {
    var s, t := a + [c] + x, b + [c] + y;
    assert s[|a|] == c && t[|b|] == c;
    assert a == s[..|a|] && b == t[..|b|] && x == s[|a| + 1..] && y == t[|b| + 1..];
  }

  lemma SplitOne(s: string, c: char, a: string)
    ensures Split(s, c) == [a] <==> s == a && c !in a
  {
    hide Find;
    var i := Find(s, c);
    assert i == |s| ==> s[..i] == s;
    assert i < |s| ==> |Split(s, c)| == 1 + |Split(s[i + 1..], c)| && |Split(s[i + 1..], c)| > 0;
  }

  /** Splitting gives two parts exactly when one separator stands between them. */
  lemma SplitTwo(s: string, c: char, a: string, b: string)
    ensures Split(s, c) == [a, b] <==> s == a + [c] + b && c !in a && c !in b
  {
    hide Find;
    var i := Find(s, c);
    if i < |s| {
      var rest := s[i + 1..];
      assert s == s[..i] + [c] + rest;
      SplitOne(rest, c, b);
      assert Split(s, c)[0] == s[..i] && Split(s, c)[1..] == Split(rest, c);
      if s == a + [c] + b && c !in a { FirstField(a, b, s[..i], rest, c); }
    } else {
      assert s[..i] == s;
      assert c !in s && c in a + [c] + b;
    }
  }

  /** Two different QRs have different payloads. */
  lemma PayloadsApart(p: Qr, q: Qr)
    requires Payload(p).Some? && Payload(p) == Payload(q)
    ensures p == q
  {
    hide Encoded, SessionId;
    SessionIdChars(p.sessionId);
    SessionIdChars(q.sessionId);
    var t := Payload(p).value;
    assert t[|QR_PREFIX|..|QR_PREFIX| + SESSION_ID_CHARS] == p.sessionId;
    assert t[|QR_PREFIX| + SESSION_ID_CHARS + 1..] == Encoded(p.publicKey);
    assert t[|QR_PREFIX|..|QR_PREFIX| + SESSION_ID_CHARS] == q.sessionId;
    assert t[|QR_PREFIX| + SESSION_ID_CHARS + 1..] == Encoded(q.publicKey);
    EncodedApart(p.publicKey, q.publicKey);
  }

  /** The payload letter by letter: four of prefix, 22 of session id, a dot, 43 of key. */
  lemma PayloadLayout(q: Qr)
    ensures Payload(q).Some? <==> (exists b: seq<Byte> :: |b| == 16 && Encoded(b) == q.sessionId) && |q.publicKey| == 32
    ensures Payload(q).Some? ==>
              var t := Payload(q).value;
              && |t| == 70 && t[..4] == "MP1." && t[4..26] == q.sessionId && t[26] == '.'
              && t[27..] == Encoded(q.publicKey)
  {
    hide Encoded;
    if Payload(q).Some? {
      SessionIdChars(q.sessionId);
      EncodedFacts(q.publicKey);
    }
  }

  /** The parts a payload splits into. */
  lemma PayloadParts(q: Qr, text: string)
    requires Payload(q) == Some(text)
    ensures QR_PREFIX <= text && Split(text[|QR_PREFIX|..], '.') == [q.sessionId, Encoded(q.publicKey)]
    ensures |q.sessionId| == SESSION_ID_CHARS && |Encoded(q.publicKey)| == PUBLIC_KEY_CHARS
  {
    hide Encoded, SessionId, Split;
    SessionIdChars(q.sessionId);
    EncodedFacts(q.publicKey);
    var rest := text[|QR_PREFIX|..];
    assert rest == q.sessionId + ['.'] + Encoded(q.publicKey);
    SplitTwo(rest, '.', q.sessionId, Encoded(q.publicKey));
  }

  /** Parsing and encoding are inverse: a text parses as a QR exactly when that QR encodes as the text. */
  method ParsePairQr(text: string) returns (r: Option<Qr>)
    ensures forall q :: r == Some(q) <==> Payload(q) == Some(text)
  {
    hide Encoded, SessionId, Split, Payload;
    forall q | Payload(q) == Some(text)
      ensures QR_PREFIX <= text && Split(text[|QR_PREFIX|..], '.') == [q.sessionId, Encoded(q.publicKey)]
      ensures |q.sessionId| == SESSION_ID_CHARS && |Encoded(q.publicKey)| == PUBLIC_KEY_CHARS
      ensures SessionId(q.sessionId) && |q.publicKey| == PUBLIC_KEY_BYTES
    {
      PayloadParts(q, text);
      PayloadFields(q);
    }
    if !(QR_PREFIX <= text) { return None; }
    var parts := Split(text[|QR_PREFIX|..], '.');
    if |parts| != 2 { return None; }
    var sessionId, pk := parts[0], parts[1];
    if |sessionId| != SESSION_ID_CHARS || |pk| != PUBLIC_KEY_CHARS { return None; }
    var id := DecodeExact(sessionId, SESSION_ID_BYTES);
    SessionIdDecodes(sessionId, id);
    if id.None? { return None; }
    var key := DecodeExact(pk, PUBLIC_KEY_BYTES);
    if key.None? { return None; }
    assert key == Some(key.value);
    r := Some(Qr(sessionId, key.value));
    PartsPayload(text, sessionId, pk, key.value);
    forall q | Payload(q) == Some(text) ensures r == Some(q) { PayloadsApart(q, r.value); }
  }

  lemma PayloadFields(q: Qr)
    requires Payload(q).Some?
    ensures SessionId(q.sessionId) && |q.publicKey| == PUBLIC_KEY_BYTES
  {
  }

  lemma SessionIdDecodes(s: string, r: Option<seq<Byte>>)
    requires |s| == SESSION_ID_CHARS
    requires forall b: seq<Byte> :: r == Some(b) <==> s != "" && |b| == SESSION_ID_BYTES && Encoded(b) == s
    ensures r.Some? <==> SessionId(s)
  {
    hide Encoded;
    assert r.Some? ==> r == Some(r.value);
  }

  lemma PartsPayload(text: string, sessionId: string, pk: string, key: seq<Byte>)
    requires QR_PREFIX <= text && Split(text[|QR_PREFIX|..], '.') == [sessionId, pk]
    requires SessionId(sessionId) && |key| == PUBLIC_KEY_BYTES && Encoded(key) == pk
    ensures Payload(Qr(sessionId, key)) == Some(text)
  {
    hide Encoded, SessionId, Split;
    SplitTwo(text[|QR_PREFIX|..], '.', sessionId, pk);
    assert text == QR_PREFIX + text[|QR_PREFIX|..];
    assert text == QR_PREFIX + sessionId + "." + pk;
  }

  // ---------------------------------------------------------------------------
  // The relay body
  // ---------------------------------------------------------------------------

  const RELAY_BODY_BYTES := 64
  const RELAY_BODY_CHARS := 86

  ghost function RelayText(body: seq<Byte>): (r: Option<string>) {
    if |body| == RELAY_BODY_BYTES then Some(Encoded(body)) else None
  }

  method EncodeRelayBody(body: seq<Byte>) returns (r: Option<string>)
    ensures r == RelayText(body)
    ensures r.Some? <==> |body| == 64
    ensures r.Some? ==> r.value == Encoded(body) && |r.value| == 86
  {
    hide Encoded;
    if |body| != RELAY_BODY_BYTES { return None; }
    EncodedFacts(body);
    var s := ToBase64Url(body);
    return Some(s);
  }

  /** A text decodes to a body exactly when that body encodes to the text. */
  method DecodeRelayBody(value: string) returns (r: Option<seq<Byte>>)
    ensures forall body :: r == Some(body) <==> RelayText(body) == Some(value)
  {
    hide Encoded;
    r := DecodeExact(value, RELAY_BODY_BYTES);
    forall body: seq<Byte> | |body| == RELAY_BODY_BYTES ensures Encoded(body) != "" { EncodedFacts(body); }
  }

  // ---------------------------------------------------------------------------
  // The authenticated data
  // ---------------------------------------------------------------------------

  const AAD_PREFIX := "ministry/pair/v1|"
  const AAD_SEPARATOR: Unit := 0x7C

  /** The code units of an ASCII string. */
  function Ascii(s: string): (r: seq<Unit>)
    requires forall i :: 0 <= i < |s| ==> s[i] as int < 128
    ensures |r| == |s|
  {
    seq(|s|, i requires 0 <= i < |s| => s[i] as int)
  }

  predicate AadField(s: seq<Unit>) {
    s != [] && AAD_SEPARATOR !in s
  }

  /** The epoch as it is printed. */
  function EpochText(epoch: int): seq<Unit> {
    EpochAscii(epoch);
    Ascii(Decimal.Signed(epoch))
  }

  lemma EpochAscii(epoch: int)
    ensures var s := Decimal.Signed(epoch);
            forall i :: 0 <= i < |s| ==> s[i] as int < 128 && s[i] as int != AAD_SEPARATOR
  {
    hide Decimal.Signed;
    Decimal.SignedChars(epoch);
    var s := Decimal.Signed(epoch);
    forall i | 0 <= i < |s| ensures s[i] as int < 128 && s[i] as int != AAD_SEPARATOR { assert s[i] in s; }
  }

  /** Strings are JavaScript strings, in UTF-16 code units; the result is what TextEncoder makes of them. */
  function BuildPairAad(userId: seq<Unit>, sessionId: seq<Unit>, epoch: int): Option<seq<Byte>> {
    var epochText := EpochText(epoch);
    if AadField(userId) && AadField(sessionId) && AadField(epochText)
    then Some(Encode(Joined(userId, sessionId, epochText)))
    else None
  }

  function Joined(userId: seq<Unit>, sessionId: seq<Unit>, epochText: seq<Unit>): seq<Unit> {
    Ascii(AAD_PREFIX) + userId + [AAD_SEPARATOR] + sessionId + [AAD_SEPARATOR] + epochText
  }

  /** Refused exactly for an empty or separator-bearing id; the epoch never is the reason. */
  lemma AadRefusedExactly(userId: seq<Unit>, sessionId: seq<Unit>, epoch: int)
    ensures BuildPairAad(userId, sessionId, epoch).None? <==>
            userId == [] || 0x7C in userId || sessionId == [] || 0x7C in sessionId
  {
    hide Decimal.Signed;
    EpochAscii(epoch);
    Decimal.SignedChars(epoch);
  }

  ghost function Framed(a: seq<Scalar>, b: seq<Scalar>, c: seq<Scalar>): seq<Scalar> {
    Scalars(Ascii(AAD_PREFIX)) + (a + [AAD_SEPARATOR] + (b + [AAD_SEPARATOR] + c))
  }

  /** The separators keep the fields apart whatever surrogates they hold. */
  lemma AadScalars(userId: seq<Unit>, sessionId: seq<Unit>, epochText: seq<Unit>)
    ensures Scalars(Joined(userId, sessionId, epochText)) ==
      Framed(Scalars(userId), Scalars(sessionId), Scalars(epochText))
  {
    hide Scalars;
    var tail := [AAD_SEPARATOR] + epochText;
    var rest := [AAD_SEPARATOR] + (sessionId + tail);
    var prefix := Ascii(AAD_PREFIX);
    assert Joined(userId, sessionId, epochText) == prefix + (userId + rest);
    PrefixWellFormed();
    ScalarsAppend(prefix, userId + rest);
    ScalarsAppend(userId, rest);
    SeparatorFirst(sessionId + tail);
    ScalarsAppend(sessionId, tail);
    SeparatorFirst(epochText);
  }

  lemma {:induction false} EncodeAllAppend(a: seq<Scalar>, b: seq<Scalar>)
    ensures EncodeAll(a + b) == EncodeAll(a) + EncodeAll(b)
  {
    hide Bytes;
    if a == [] {
      assert a + b == b;
    } else {
      EncodeAllAppend(a[1..], b);
      assert (a + b)[1..] == a[1..] + b;
    }
  }

  /** What is authenticated, byte for byte: the prefix, the user, a bar, the session, a bar and the epoch. */
  lemma AadLayout(userId: seq<Unit>, sessionId: seq<Unit>, epoch: int)
    requires BuildPairAad(userId, sessionId, epoch).Some?
    ensures BuildPairAad(userId, sessionId, epoch).value ==
            Encode(Ascii("ministry/pair/v1|")) + Encode(userId) + [0x7C] + Encode(sessionId) + [0x7C] +
            Encode(EpochText(epoch))
  {
    hide Scalars, Ascii, EpochText, Joined, EncodeAll;
    var p, u, n, e := Scalars(Ascii(AAD_PREFIX)), Scalars(userId), Scalars(sessionId), Scalars(EpochText(epoch));
    var bar: seq<Scalar> := [AAD_SEPARATOR];
    AadScalars(userId, sessionId, EpochText(epoch));
    PlainByte(AAD_SEPARATOR);
    EncodeAllAppend(p, u + bar + (n + bar + e));
    EncodeAllAppend(u + bar, n + bar + e);
    EncodeAllAppend(u, bar);
    EncodeAllAppend(n + bar, e);
    EncodeAllAppend(n, bar);
  }

  lemma PlainByte(c: Scalar)
    requires c < 0x80
    ensures EncodeAll([c]) == [c]
  {
  }

  /** Plain text is its own encoding. */
  lemma {:induction false} AsciiEncodes(s: seq<Unit>)
    requires forall i :: 0 <= i < |s| ==> s[i] < 128
    ensures Encode(s) == s
  {
    AsciiWellFormed(s);
    if s != [] {
      AsciiEncodes(s[1..]);
      AsciiWellFormed(s[1..]);
    }
  }

  lemma {:induction false} AsciiWellFormed(s: seq<Unit>)
    requires forall i :: 0 <= i < |s| ==> s[i] < 128
    ensures WellFormed(s) && Scalars(s) == s
  {
    if s != [] {
      AsciiWellFormed(s[1..]);
      assert s == [s[0]] + s[1..];
    }
  }

  lemma PrefixWellFormed()
    ensures WellFormed(Ascii(AAD_PREFIX))
  {
    AsciiWellFormed(Ascii(AAD_PREFIX));
  }

  lemma SeparatorFirst(t: seq<Unit>)
    ensures Scalars([AAD_SEPARATOR] + t) == [AAD_SEPARATOR] + Scalars(t)
  {
    assert ([AAD_SEPARATOR] + t)[1..] == t;
  }

  /** Two pairings have the same authenticated bytes, if and only if their users and sessions have the
      same scalar values and their epochs are equal. */
  lemma AadBytesExactly(
    userId: seq<Unit>, sessionId: seq<Unit>, epoch: int, userId': seq<Unit>, sessionId': seq<Unit>, epoch': int)
    requires BuildPairAad(userId, sessionId, epoch).Some? && BuildPairAad(userId', sessionId', epoch').Some?
    ensures BuildPairAad(userId, sessionId, epoch) == BuildPairAad(userId', sessionId', epoch') <==>
            Scalars(userId) == Scalars(userId') && Scalars(sessionId) == Scalars(sessionId') && epoch == epoch'
  {
    hide Decimal.Signed, Scalars, Encode, Ascii, EpochText, Joined, Framed;
    var e, e' := EpochText(epoch), EpochText(epoch');
    AadScalars(userId, sessionId, e);
    AadScalars(userId', sessionId', e');
    EncodeApart(Joined(userId, sessionId, e), Joined(userId', sessionId', e'));
    EpochsApart(epoch, epoch');
    PlainMember(userId, AAD_SEPARATOR);
    PlainMember(userId', AAD_SEPARATOR);
    PlainMember(sessionId, AAD_SEPARATOR);
    PlainMember(sessionId', AAD_SEPARATOR);
    ThreeFields(Scalars(userId), Scalars(sessionId), Scalars(e), Scalars(userId'), Scalars(sessionId'), Scalars(e'));
  }

  /** Two separators end two fields. */
  lemma ThreeFields(a: seq<Scalar>, b: seq<Scalar>, c: seq<Scalar>, a': seq<Scalar>, b': seq<Scalar>, c': seq<Scalar>)
    requires AAD_SEPARATOR !in a && AAD_SEPARATOR !in b && AAD_SEPARATOR !in a' && AAD_SEPARATOR !in b'
    ensures Framed(a, b, c) == Framed(a', b', c') <==> a == a' && b == b' && c == c'
  {
    hide Scalars;
    var p, bar: Scalar := Scalars(Ascii(AAD_PREFIX)), AAD_SEPARATOR;
    var x, x' := b + [bar] + c, b' + [bar] + c';
    var f, f' := a + [bar] + x, a' + [bar] + x';
    if p + f == p + f' {
      assert f == (p + f)[|p|..] == (p + f')[|p|..] == f';
      FirstField(a, x, a', x', bar);
      FirstField(b, c, b', c', bar);
    }
  }

  lemma EpochsApart(epoch: int, epoch': int)
    ensures Scalars(EpochText(epoch)) == Scalars(EpochText(epoch')) <==> epoch == epoch'
  {
    hide Decimal.Signed, Scalars;
    var s, s' := Decimal.Signed(epoch), Decimal.Signed(epoch');
    EpochAscii(epoch);
    EpochAscii(epoch');
    AsciiWellFormed(Ascii(s));
    AsciiWellFormed(Ascii(s'));
    if Ascii(s) == Ascii(s') {
      forall i | 0 <= i < |s| ensures s[i] == s'[i] { assert Ascii(s)[i] == Ascii(s')[i]; }
      assert s == s';
    }
    Decimal.SignedApart(epoch, epoch');
  }

  /** Without lone surrogates, the same bytes mean the same user, session and epoch. */
  lemma AadBindsFields(
    userId: seq<Unit>, sessionId: seq<Unit>, epoch: int, userId': seq<Unit>, sessionId': seq<Unit>, epoch': int)
    requires BuildPairAad(userId, sessionId, epoch).Some?
    requires BuildPairAad(userId, sessionId, epoch) == BuildPairAad(userId', sessionId', epoch')
    requires WellFormed(userId) && WellFormed(userId') && WellFormed(sessionId) && WellFormed(sessionId')
    ensures userId == userId' && sessionId == sessionId' && epoch == epoch'
  {
    hide BuildPairAad, Scalars, Units;
    AadBytesExactly(userId, sessionId, epoch, userId', sessionId', epoch');
    UnitsOfScalars(userId);
    UnitsOfScalars(userId');
    UnitsOfScalars(sessionId);
    UnitsOfScalars(sessionId');
  }

  /** A lone surrogate and the replacement character make users that share their bytes. */
  lemma LoneSurrogatesCollide(sessionId: seq<Unit>, epoch: int)
    requires AadField(sessionId)
    ensures BuildPairAad([0xD800], sessionId, epoch) == BuildPairAad([0xFFFD], sessionId, epoch)
    ensures BuildPairAad([0xD800], sessionId, epoch).Some?
  {
    hide BuildPairAad;
    AadRefusedExactly([0xD800], sessionId, epoch);
    AadRefusedExactly([0xFFFD], sessionId, epoch);
    assert Scalars([0xD800]) == [REPLACEMENT] == Scalars([0xFFFD]);
    AadBytesExactly([0xD800], sessionId, epoch, [0xFFFD], sessionId, epoch);
  }
}
