/** Numbers as JavaScript prints them: plain decimal, and decimal with grouped thousands. */
module Decimal {

  function Digit(d: nat): char
    requires d < 10
  {
    ('0' as int + d) as char
  }

  /** String(n) */
  function Digits(n: nat): (s: string) {
    if n < 10 then [Digit(n)] else Digits(n / 10) + [Digit(n % 10)]
  }

  function Three(n: nat): string
    requires n < 1000
  {
    [Digit(n / 100), Digit(n / 10 % 10), Digit(n % 10)]
  }

  /** n.toLocaleString() in the English locale */
  function Grouped(n: nat): string {
    if n < 1000 then Digits(n) else Grouped(n / 1000) + "," + Three(n % 1000)
  }

  /** The number a string of digits stands for; separators are skipped. */
  ghost function Reading(s: string): int {
    if s == "" then 0
    else
      var rest, last := Reading(s[..|s| - 1]), s[|s| - 1];
      if last == ',' then rest else 10 * rest + last as int - '0' as int
  }

  lemma ReadingPush(s: string, c: char)
    ensures Reading(s + [c]) == if c == ',' then Reading(s) else 10 * Reading(s) + c as int - '0' as int
  {
    assert (s + [c])[..|s|] == s;
  }

  lemma {:induction false} ReadingOfDigits(n: nat)
    ensures Reading(Digits(n)) == n
    ensures forall c :: c in Digits(n) ==> '0' <= c <= '9'
    ensures Digits(n) != ""
  {
    if n < 10 {
      ReadingPush("", Digit(n));
      assert "" + [Digit(n)] == Digits(n);
    } else {
      ReadingOfDigits(n / 10);
      ReadingPush(Digits(n / 10), Digit(n % 10));
    }
  }

  lemma {:induction false} ReadingOfGrouped(n: nat)
    ensures Reading(Grouped(n)) == n
  {
    if n < 1000 {
      ReadingOfDigits(n);
    } else {
      ReadingOfGrouped(n / 1000);
      var head, low := Grouped(n / 1000), n % 1000;
      var a, b, c := Digit(low / 100), Digit(low / 10 % 10), Digit(low % 10);
      ReadingPush(head, ',');
      ReadingPush(head + [','], a);
      ReadingPush(head + [','] + [a], b);
      ReadingPush(head + [','] + [a] + [b], c);
      assert Grouped(n) == head + [','] + [a] + [b] + [c];
    }
  }

  /** Distinct numbers print differently, plain or grouped. */
  lemma PrintsApart(m: nat, n: nat)
    ensures Digits(m) == Digits(n) <==> m == n
    ensures Grouped(m) == Grouped(n) <==> m == n
  {
    ReadingOfDigits(m);
    ReadingOfDigits(n);
    ReadingOfGrouped(m);
    ReadingOfGrouped(n);
  }

  /** String(n) of an integer, signed. */
  function Signed(n: int): string {
    if n < 0 then "-" + Digits(-n) else Digits(n)
  }

  lemma SignedChars(n: int)
    ensures forall c :: c in Signed(n) ==> c == '-' || '0' <= c <= '9'
    ensures Signed(n) != "" && (n < 0 <==> Signed(n)[0] == '-')
  {
    hide Digits, Reading;
    ReadingOfDigits(if n < 0 then -n else n);
    assert Signed(n)[0] in Signed(n);
  }

  lemma SignedApart(m: int, n: int)
    ensures Signed(m) == Signed(n) <==> m == n
  {
    hide Digits;
    SignedChars(m);
    SignedChars(n);
    if Signed(m) == Signed(n) {
      if m < 0 {
        assert Digits(-m) == Signed(m)[1..] == Signed(n)[1..] == Digits(-n);
        PrintsApart(-m, -n);
      } else {
        PrintsApart(m, n);
      }
    }
  }
}
