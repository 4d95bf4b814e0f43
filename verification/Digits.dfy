/** Decimal numerals, as the sources print and read them. */
module Digits {

  predicate IsDigit(c: char) {
    '0' <= c <= '9'
  }

  function DigitChar(d: nat): char
    requires d < 10
  {
    ('0' as int + d) as char
  }

  function DigitValue(c: char): nat
    requires IsDigit(c)
  {
    c as int - '0' as int
  }

  /** The decimal numeral of `n`. */
  function Decimal(n: nat): (s: string)
    ensures s != "" && forall c <- s :: IsDigit(c)
  {
    if n < 10 then [DigitChar(n)] else Decimal(n / 10) + [DigitChar(n % 10)]
  }

  /** What a run of digits stands for. */
  function Value(s: string): nat
    requires forall c <- s :: IsDigit(c)
  {
    if s == "" then 0 else 10 * Value(s[..|s| - 1]) + DigitValue(s[|s| - 1])
  }

  /** How many digits `s` begins with. */
  function DigitRun(s: string): (n: nat)
    ensures n <= |s|
    ensures forall k :: 0 <= k < n ==> IsDigit(s[k])
    ensures n < |s| ==> !IsDigit(s[n])
  {
    if s != "" && IsDigit(s[0]) then
      1 + DigitRun(s[1..])
    else 0
  }

  lemma {:induction false} ValueOfDecimal(n: nat)
    ensures Value(Decimal(n)) == n
  {
    if n >= 10 {
      ValueOfDecimal(n / 10);
      assert Decimal(n)[..|Decimal(n)| - 1] == Decimal(n / 10);
    } else {
      assert Decimal(n)[..0] == "";
    }
  }

  lemma {:induction false} DigitRunOf(digits: string, rest: string)
    requires forall c <- digits :: IsDigit(c)
    requires rest != "" ==> !IsDigit(rest[0])
    ensures DigitRun(digits + rest) == |digits|
  {
    if digits == "" {
      assert digits + rest == rest;
    } else {
      assert digits[0] in digits;
      assert (digits + rest)[1..] == digits[1..] + rest;
      DigitRunOf(digits[1..], rest);
    }
  }

  predicate IsHex(c: char) {
    IsDigit(c) || 'a' <= c <= 'f' || 'A' <= c <= 'F'
  }

  function HexDigitValue(c: char): nat
    requires IsHex(c)
  {
    if IsDigit(c) then DigitValue(c)
    else if 'a' <= c <= 'f' then 10 + c as int - 'a' as int
    else 10 + c as int - 'A' as int
  }

  function HexValue(s: string): nat
    requires forall c <- s :: IsHex(c)
  {
    if s == "" then 0 else 16 * HexValue(s[..|s| - 1]) + HexDigitValue(s[|s| - 1])
  }

  // ---- Places

  function Power(base: nat, k: nat): nat {
    if k == 0 then 1 else base * Power(base, k - 1)
  }

  /** Each digit counts for its place, the first for most. */
  lemma {:induction false} ValueByPlace(c: char, s: string)
    requires IsDigit(c) && forall d <- s :: IsDigit(d)
    ensures forall d <- [c] + s :: IsDigit(d)
    ensures Value([c] + s) == (c as int - '0' as int) * Power(10, |s|) + Value(s)
    decreases |s|
  {
    assert forall d <- [c] + s :: IsDigit(d);
    if s == "" {
      assert [c] + s == [c] && [c][..0] == "";
    } else {
      var last := |s| - 1;
      ValueByPlace(c, s[..last]);
      assert ([c] + s)[..|[c] + s| - 1] == [c] + s[..last] && ([c] + s)[|s|] == s[last];
      PlaceMoves(c as int - '0' as int, 10, last);
    }
  }

  lemma {:induction false} PlaceMoves(d: int, base: nat, k: nat)
    ensures base * (d * Power(base, k)) == d * Power(base, k + 1)
  {
    var p := Power(base, k);
    assert base * (d * p) == d * (base * p);
  }

  /** The sixteen digits, in either case. */
  lemma {:induction false} HexDigitIs(c: char, d: nat)
    requires d < 16
    ensures IsHex(c) && HexDigitValue(c) == d <==> c == "0123456789abcdef"[d] || c == "0123456789ABCDEF"[d]
  {
    var lower, upper := "0123456789abcdef", "0123456789ABCDEF";
    assert lower[d] as int == if d < 10 then 48 + d else 87 + d;
    assert upper[d] as int == if d < 10 then 48 + d else 55 + d;
  }

  lemma {:induction false} HexByPlace(c: char, s: string)
    requires IsHex(c) && forall d <- s :: IsHex(d)
    ensures forall d <- [c] + s :: IsHex(d)
    ensures HexValue([c] + s) == HexDigitValue(c) * Power(16, |s|) + HexValue(s)
    decreases |s|
  {
    assert forall d <- [c] + s :: IsHex(d);
    if s == "" {
      assert [c] + s == [c] && [c][..0] == "";
    } else {
      var last := |s| - 1;
      HexByPlace(c, s[..last]);
      assert ([c] + s)[..|[c] + s| - 1] == [c] + s[..last] && ([c] + s)[|s|] == s[last];
      PlaceMoves(HexDigitValue(c), 16, last);
    }
  }
}
