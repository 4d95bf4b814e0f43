/** UTF-8 in code units: which sequences are well formed, and how a code point is written. */
module Utf8 {

  predicate Tail(c: char) {
    0x80 <= c as int <= 0xBF
  }

  /** How many code units the first character of `s` takes; 0 when it is ill formed (Table 3-7 of
      the Unicode Standard). */
  function First(s: string): (n: nat)
    ensures n <= |s|
  {
    if s == "" then 0
    else
      var a := s[0] as int;
      var b := if |s| > 1 then s[1] as int else 0;
      if a < 0x80 then 1
      else if 0xC2 <= a <= 0xDF then (if 0x80 <= b <= 0xBF then 2 else 0)
      else if 0xE0 <= a <= 0xEF then
        var low := if a == 0xE0 then 0xA0 else 0x80;
        var high := if a == 0xED then 0x9F else 0xBF;
        if low <= b <= high && |s| > 2 && Tail(s[2]) then 3 else 0
      else if 0xF0 <= a <= 0xF4 then
        var low := if a == 0xF0 then 0x90 else 0x80;
        var high := if a == 0xF4 then 0x8F else 0xBF;
        if low <= b <= high && |s| > 3 && Tail(s[2]) && Tail(s[3]) then 4 else 0
      else 0
  }

  predicate Valid(s: string) {
    s == "" || (First(s) > 0 && Valid(s[First(s)..]))
  }

  function Unit(n: int): char
    requires 0 <= n < 0x100
  {
    n as char
  }

  predicate IsScalar(code: nat) {
    code < 0xD800 || 0xE000 <= code < 0x110000
  }

  /** The code units of a code point. */
  function Encode(code: nat): string
    requires IsScalar(code)
  {
    if code < 0x80 then [Unit(code)]
    else if code < 0x800 then [Unit(0xC0 + code / 0x40), Unit(0x80 + code % 0x40)]
    else if code < 0x10000 then
      [Unit(0xE0 + code / 0x1000), Unit(0x80 + code / 0x40 % 0x40), Unit(0x80 + code % 0x40)]
    else
      [Unit(0xF0 + code / 0x40000), Unit(0x80 + code / 0x1000 % 0x40), Unit(0x80 + code / 0x40 % 0x40),
       Unit(0x80 + code % 0x40)]
  }

  predicate Ascii(s: string) {
    forall i | 0 <= i < |s| :: s[i] < '\U{80}'
  }

  lemma {:induction false} AsciiIsValid(s: string)
    requires Ascii(s)
    ensures Valid(s)
  {
    if s != "" {
      AsciiIsValid(s[1..]);
    }
  }

  // ---- Well-formed text is written code points

  /** What the code units of one character stand for: six bits in each but the first. */
  function Scalar(s: string): int {
    if |s| == 1 then s[0] as int
    else if |s| == 2 then (s[0] as int - 0xC0) * 64 + (s[1] as int - 0x80)
    else if |s| == 3 then ((s[0] as int - 0xE0) * 64 + (s[1] as int - 0x80)) * 64 + (s[2] as int - 0x80)
    else if |s| == 4 then
      (((s[0] as int - 0xF0) * 64 + (s[1] as int - 0x80)) * 64 + (s[2] as int - 0x80)) * 64 + (s[3] as int - 0x80)
    else 0
  }

  /** Every code point is written as one well-formed character, in as few code units as it takes,
      and stands for itself. */
  lemma {:induction false} EncodeIs(code: nat)
    requires IsScalar(code)
    ensures Scalar(Encode(code)) == code
    ensures |Encode(code)| == if code <= 0x7F then 1 else if code <= 0x7FF then 2 else if code <= 0xFFFF then 3 else 4
    ensures First(Encode(code)) == |Encode(code)|
  {
    if code >= 0x10000 {
      LongIs(code);
    } else if code >= 0x800 {
      assert code / 0x1000 == code / 0x40 / 0x40;
    }
  }

  lemma {:induction false} LongIs(code: nat)
    requires 0x10000 <= code < 0x110000
    ensures var s := Encode(code); |s| == 4 && Scalar(s) == code && First(s) == 4
  {
    assert code / 0x1000 == code / 0x40 / 0x40 && code / 0x40000 == code / 0x1000 / 0x40;
  }

  lemma {:induction false} Sixes(a: nat, b: nat, c: nat, d: nat)
    requires b < 64 && c < 64 && d < 64
    ensures (a * 64 + b) / 64 == a && (a * 64 + b) % 64 == b
    ensures ((a * 64 + b) * 64 + c) / 0x1000 == a && ((a * 64 + b) * 64 + c) / 64 % 64 == b
    ensures ((a * 64 + b) * 64 + c) % 64 == c
    ensures (((a * 64 + b) * 64 + c) * 64 + d) / 0x40000 == a && (((a * 64 + b) * 64 + c) * 64 + d) / 0x1000 % 64 == b
    ensures (((a * 64 + b) * 64 + c) * 64 + d) / 64 % 64 == c && (((a * 64 + b) * 64 + c) * 64 + d) % 64 == d
  {
  }

  lemma {:induction false} ShortIsEncoded(c: string)
    requires First(c) == |c| && 0 < |c| <= 2
    ensures Scalar(c) >= 0 && IsScalar(Scalar(c)) && Encode(Scalar(c)) == c
  {
    if |c| == 2 {
      Sixes(c[0] as int - 0xC0, c[1] as int - 0x80, 0, 0);
    }
  }

  lemma {:induction false} ThreeIsEncoded(c: string)
    requires First(c) == |c| == 3
    ensures Scalar(c) >= 0 && IsScalar(Scalar(c)) && Encode(Scalar(c)) == c
  {
    Sixes(c[0] as int - 0xE0, c[1] as int - 0x80, c[2] as int - 0x80, 0);
  }

  lemma {:induction false} FourIsEncoded(c: string)
    requires First(c) == |c| == 4
    ensures Scalar(c) >= 0 && IsScalar(Scalar(c)) && Encode(Scalar(c)) == c
  {
    Sixes(c[0] as int - 0xF0, c[1] as int - 0x80, c[2] as int - 0x80, c[3] as int - 0x80);
  }

  lemma {:induction false} FirstOfFirst(s: string)
    requires First(s) > 0
    ensures 0 < First(s) <= 4 && First(s[..First(s)]) == First(s)
  {
  }

  /** Every well-formed first character is a written code point. */
  lemma {:induction false} FirstIsEncoded(s: string)
    requires First(s) > 0
    ensures var c := s[..First(s)]; Scalar(c) >= 0 && IsScalar(Scalar(c)) && Encode(Scalar(c)) == c
  {
    FirstOfFirst(s);
    var c := s[..First(s)];
    if |c| <= 2 {
      ShortIsEncoded(c);
    } else if |c| == 3 {
      ThreeIsEncoded(c);
    } else {
      FourIsEncoded(c);
    }
  }

  function Written(codes: seq<nat>): string
    requires forall i | 0 <= i < |codes| :: IsScalar(codes[i])
  {
    if codes == [] then "" else Encode(codes[0]) + Written(codes[1..])
  }

  lemma {:induction false} FirstOf(a: string, b: string)
    requires First(a) == |a| > 0
    ensures First(a + b) == |a|
  {
  }

  lemma {:induction false} WrittenIsValid(codes: seq<nat>)
    requires forall i | 0 <= i < |codes| :: IsScalar(codes[i])
    ensures Valid(Written(codes))
  {
    if codes != [] {
      var head, tail := Encode(codes[0]), Written(codes[1..]);
      WrittenIsValid(codes[1..]);
      EncodeIs(codes[0]);
      FirstOf(head, tail);
      assert (head + tail)[|head|..] == tail;
    }
  }

  lemma {:induction false} OneMore(code: nat, rest: seq<nat>)
    requires IsScalar(code) && forall i | 0 <= i < |rest| :: IsScalar(rest[i])
    ensures forall i | 0 <= i < |[code] + rest| :: IsScalar(([code] + rest)[i])
    ensures Written([code] + rest) == Encode(code) + Written(rest)
  {
    assert ([code] + rest)[1..] == rest;
  }

  lemma {:induction false} ValidIsWritten(s: string) returns (codes: seq<nat>)
    requires Valid(s)
    ensures forall i | 0 <= i < |codes| :: IsScalar(codes[i])
    ensures s == Written(codes)
    decreases |s|
  {
    if s == "" {
      codes := [];
    } else {
      var code, behind := FirstCode(s);
      var rest := ValidIsWritten(behind);
      codes := [code] + rest;
      OneMore(code, rest);
    }
  }

  lemma {:induction false} FirstCode(s: string) returns (code: nat, behind: string)
    requires Valid(s) && s != ""
    ensures IsScalar(code) && s == Encode(code) + behind && |behind| < |s| && Valid(behind)
  {
    var n := First(s);
    FirstIsEncoded(s);
    code, behind := Scalar(s[..n]), s[n..];
    assert s == s[..n] + s[n..];
  }

  /** Text is well formed exactly when it is code points written one behind the other. */
  lemma {:induction false} ValidIs(s: string)
    ensures Valid(s) <==> exists codes: seq<nat> :: (forall i | 0 <= i < |codes| :: IsScalar(codes[i])) && s == Written(codes)
  {
    if Valid(s) {
      var codes := ValidIsWritten(s);
    }
    if codes: seq<nat> :| (forall i | 0 <= i < |codes| :: IsScalar(codes[i])) && s == Written(codes) {
      WrittenIsValid(codes);
    }
  }
}
