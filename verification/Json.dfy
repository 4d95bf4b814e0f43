/** The JSON the message files are read from and the string catalogues written in: a recursive
    parser with a cursor, a printer, and the proof that one undoes the other. */
module Json {
  import opened Wrappers
  import opened Digits
  import Utf8

  /** A number that is an integer is held as one; any other keeps its literal. */
  datatype Json =
    | Null
    | Bool(b: bool)
    | Num(n: int)
    | Real(literal: string)
    | Str(s: string)
    | Arr(items: seq<Json>)
    | Obj(fields: seq<Field>)

  datatype Field = Field(key: string, value: Json)

  datatype JsonError =
    | TextAfterValue
    | ExpectedValue
    | ExpectedKey
    | KeyTwice(repeated: string)
    | ExpectedColon
    | ExpectedCommaOrBrace
    | ExpectedCommaOrBracket
    | UnterminatedString
    | InvalidUtf8
    | UnknownEscape
    | ShortEscape
    | BadEscape
    | LoneSurrogate
    | ControlCharacter
    | BadNumber

  /** A value read and the text behind it. */
  type Read<T> = Result<(T, string), JsonError>

  // ---- What the parser reads, as functions of the text ahead

  predicate IsWs(c: char) {
    c == ' ' || c == '\t' || c == '\n' || c == '\r'
  }

  function Ws(s: string): (r: string)
    ensures |r| <= |s|
  {
    if s != "" && IsWs(s[0]) then Ws(s[1..]) else s
  }

  predicate Starts(s: string, c: char) {
    s != "" && s[0] == c
  }

  function Hex4(s: string): Read<nat> {
    if |s| < 4 then Err(ShortEscape)
    else
      // A radix parse takes a leading plus sign.
      var text := if s[0] == '+' then s[1..4] else s[..4];
      if forall c <- text :: IsHex(c) then Ok((HexValue(text), s[4..])) else Err(BadEscape)
  }

  function Unicode(s: string): (r: Read<nat>)
    ensures r.Ok? ==> Utf8.IsScalar(r.value.0) && |r.value.1| < |s|
  {
    var (hi, rest) :- Hex4(s);
    if 0xD800 <= hi < 0xDC00 then
      if !("\\u" <= rest) then Err(LoneSurrogate)
      else
        var (lo, after) :- Hex4(rest[2..]);
        if !(0xDC00 <= lo < 0xE000) then Err(LoneSurrogate)
        else Ok((0x10000 + (hi - 0xD800) * 0x400 + (lo - 0xDC00), after))
    else if Utf8.IsScalar(hi) then Ok((hi, rest))
    else Err(LoneSurrogate)
  }

  function Unescaped(c: char): Option<char> {
    if c == '"' || c == '\\' || c == '/' then Some(c)
    else if c == 'b' then Some('\U{8}')
    else if c == 'f' then Some('\U{c}')
    else if c == 'n' then Some('\n')
    else if c == 'r' then Some('\r')
    else if c == 't' then Some('\t')
    else None
  }

  /** A string behind its opening quote, `out` already read. */
  function StringRest(s: string, out: string): (r: Read<string>)
    ensures r.Ok? ==> |r.value.1| < |s|
    decreases |s|
  {
    if s == "" then Err(UnterminatedString)
    else if s[0] == '"' then (if Utf8.Valid(out) then Ok((out, s[1..])) else Err(InvalidUtf8))
    else if s[0] == '\\' then
      if |s| > 1 && s[1] == 'u' then
        var (code, rest) :- Unicode(s[2..]);
        StringRest(rest, out + Utf8.Encode(code))
      else if |s| > 1 && Unescaped(s[1]).Some? then StringRest(s[2..], out + [Unescaped(s[1]).value])
      else Err(UnknownEscape)
    else if s[0] < ' ' then Err(ControlCharacter)
    else StringRest(s[1..], out + [s[0]])
  }

  predicate IsNumberChar(c: char) {
    c == '-' || c == '+' || c == '.' || c == 'e' || c == 'E' || IsDigit(c)
  }

  function NumberRun(s: string): (n: nat)
    ensures n <= |s|
    ensures forall k :: 0 <= k < n ==> IsNumberChar(s[k])
    ensures n < |s| ==> !IsNumberChar(s[n])
  {
    if s != "" && IsNumberChar(s[0]) then 1 + NumberRun(s[1..]) else 0
  }

  function Unsigned(text: string): string {
    if text != "" && (text[0] == '-' || text[0] == '+') then text[1..] else text
  }

  predicate AllDigits(s: string) {
    s != "" && DigitRun(s) == |s|
  }

  /** How many digits the mantissa of `m` has, on either side of its point. */
  function MantissaDigits(m: string): nat {
    var whole := DigitRun(m);
    whole + if whole < |m| && m[whole] == '.' then DigitRun(m[whole + 1..]) else 0
  }

  function MantissaEnd(m: string): (end: nat)
    ensures end <= |m|
  {
    var whole := DigitRun(m);
    if whole < |m| && m[whole] == '.' then whole + 1 + DigitRun(m[whole + 1..]) else whole
  }

  /** Nothing, or an exponent to the end. */
  predicate ExponentAt(m: string, end: nat)
    requires end <= |m|
  {
    end == |m| || ((m[end] == 'e' || m[end] == 'E') && AllDigits(Unsigned(m[end + 1..])))
  }

  /** What `f64::from_str` takes besides an integer, of the characters a number may have. */
  predicate IsFloat(text: string) {
    var m := Unsigned(text);
    MantissaDigits(m) > 0 && ExponentAt(m, MantissaEnd(m))
  }

  function NumberOf(text: string): Result<Json, JsonError> {
    if AllDigits(Unsigned(text)) then
      Ok(Num(if text[0] == '-' then -(Value(Unsigned(text)) as int) else Value(Unsigned(text))))
    else if IsFloat(text) then Ok(Real(text))
    else Err(BadNumber)
  }

  function Number(s: string): Read<Json> {
    var run := NumberRun(s);
    var v :- NumberOf(s[..run]);
    Ok((v, s[run..]))
  }

  predicate HasKey(fields: seq<Field>, key: string) {
    exists i | 0 <= i < |fields| :: fields[i].key == key
  }

  function ParseValue(s: string): (r: Read<Json>)
    ensures r.Ok? ==> |r.value.1| < |s|
    decreases |s|, 3
  {
    if s == "" then Err(ExpectedValue)
    else if s[0] == '{' then
      var rest := Ws(s[1..]);
      if Starts(rest, '}') then Ok((Obj([]), rest[1..])) else ParseFields(s[1..], [])
    else if s[0] == '[' then
      var rest := Ws(s[1..]);
      if Starts(rest, ']') then Ok((Arr([]), rest[1..])) else ParseItems(s[1..], [])
    else if s[0] == '"' then
      var (t, rest) :- StringRest(s[1..], "");
      Ok((Str(t), rest))
    else if s[0] == '-' || IsDigit(s[0]) then Number(s)
    else if "true" <= s then Ok((Bool(true), s[4..]))
    else if "false" <= s then Ok((Bool(false), s[5..]))
    else if "null" <= s then Ok((Null, s[4..]))
    else Err(ExpectedValue)
  }

  /** The fields of an object from the next key on, `out` already read. */
  function ParseFields(s: string, out: seq<Field>): (r: Read<Json>)
    ensures r.Ok? ==> |r.value.1| < |s|
    decreases |s|, 2
  {
    var (field, rest) :- ParseField(s, out);
    if Starts(rest, '}') then Ok((Obj(out + [field]), rest[1..]))
    else if Starts(rest, ',') then ParseFields(rest[1..], out + [field])
    else Err(ExpectedCommaOrBrace)
  }

  /** One key, its colon and its value, and white space around. */
  function ParseField(s: string, out: seq<Field>): (r: Read<Field>)
    ensures r.Ok? ==> |r.value.1| < |s|
    decreases |s|, 1
  {
    ParseFieldAt(Ws(s), out)
  }

  function ParseFieldAt(at: string, out: seq<Field>): (r: Read<Field>)
    ensures r.Ok? ==> |r.value.1| < |at|
    decreases |at|, 0
  {
    if at == "" || at[0] != '"' then Err(ExpectedKey)
    else
      var (key, after) :- StringRest(at[1..], "");
      if HasKey(out, key) then Err(KeyTwice(key))
      else
        var colon := Ws(after);
        if !Starts(colon, ':') then Err(ExpectedColon)
        else
          var (v, rest) :- ParseValue(Ws(colon[1..]));
          Ok((Field(key, v), Ws(rest)))
  }

  /** The items of an array from the next on, `out` already read. */
  function ParseItems(s: string, out: seq<Json>): (r: Read<Json>)
    ensures r.Ok? ==> |r.value.1| < |s|
    decreases |s|, 5
  {
    var (v, rest) :- ParseItem(s);
    if Starts(rest, ']') then Ok((Arr(out + [v]), rest[1..]))
    else if Starts(rest, ',') then ParseItems(rest[1..], out + [v])
    else Err(ExpectedCommaOrBracket)
  }

  /** One value, and white space around. */
  function ParseItem(s: string): (r: Read<Json>)
    ensures r.Ok? ==> |r.value.1| < |s|
    decreases |s|, 4
  {
    var (v, rest) :- ParseValue(Ws(s));
    Ok((v, Ws(rest)))
  }

  function Parse(src: string): Result<Json, JsonError> {
    var (v, rest) :- ParseValue(Ws(src));
    if Ws(rest) == "" then Ok(v) else Err(TextAfterValue)
  }

  /** A number and what stands behind it, once its end is found. */
  lemma {:induction false} NumberCut(s: string, text: string, rest: string)
    requires NumberRun(s) == |text| && |text| <= |s| && s[..|text|] == text && s[|text|..] == rest
    ensures Number(s) == match NumberOf(text) case Ok(v) => Ok((v, rest)) case Err(e) => Err(e)
  {
  }

  lemma {:induction false} NumberGives(s: string, text: string, rest: string, r: Result<Json, JsonError>)
    requires NumberRun(s) == |text| && |text| <= |s| && s[..|text|] == text && s[|text|..] == rest
    requires r == NumberOf(text)
    ensures match r case Ok(v) => Number(s) == Ok((v, rest)) case Err(e) => Number(s) == Err(e)
  {
    NumberCut(s, text, rest);
  }

  // ---- The parser itself

  /** The text and a cursor into it, which an error may leave one past the end. */
  class Parser {
    const s: string
    var i: nat

    constructor (s: string)
      ensures this.s == s && i == 0
    {
      this.s := s;
      i := 0;
    }

    /** The text ahead. */
    ghost function Ahead(): string
      reads this
      requires i <= |s|
    {
      s[i..]
    }

    /** `r` is what `want` reads, and the cursor stands behind it. */
    ghost predicate Gives<T>(r: Result<T, JsonError>, want: Read<T>)
      reads this
    {
      match r
      case Ok(v) => want.Ok? && v == want.value.0 && i <= |s| && s[i..] == want.value.1
      case Err(e) => want == Err(e)
    }

    method SkipWs()
      requires i <= |s|
      modifies this
      ensures old(i) <= i <= |s| && s[i..] == Ws(old(Ahead()))
    {
      while i < |s| && IsWs(s[i])
        invariant old(i) <= i <= |s| && Ws(s[i..]) == Ws(old(Ahead()))
      {
        assert s[i..][1..] == s[i + 1..];
        i := i + 1;
      }
    }

    method Eat(lit: string) returns (hit: bool)
      requires i <= |s|
      modifies this
      ensures hit == (lit <= old(Ahead()))
      ensures |lit| == 1 ==> hit == Starts(old(Ahead()), lit[0])
      ensures old(i) <= i <= |s| && s[i..] == if hit then old(Ahead())[|lit|..] else old(Ahead())
    {
      hit := lit <= s[i..];
      if hit {
        i := i + |lit|;
      }
    }

    method ReadHex4() returns (r: Result<nat, JsonError>)
      requires i <= |s|
      modifies this
      ensures old(i) <= i
      ensures Gives(r, Hex4(old(Ahead())))
    {
      if i + 4 > |s| {
        return Err(ShortEscape);
      }
      var digits := s[i..i + 4];
      var text := if digits[0] == '+' then digits[1..] else digits;
      assert s[i..][..4] == digits && s[i..][1..4] == digits[1..];
      if exists c | c in text :: !IsHex(c) {
        return Err(BadEscape);
      }
      i := i + 4;
      r := Ok(HexValue(text));
    }

    method ReadUnicode() returns (r: Result<nat, JsonError>)
      requires i <= |s|
      modifies this
      ensures old(i) <= i
      ensures Gives(r, Unicode(old(Ahead())))
    {
      var hi := ReadHex4();
      if hi.Err? {
        return hi;
      }
      var code := hi.value;
      if 0xD800 <= hi.value < 0xDC00 {
        var escape := Eat("\\u");
        if !escape {
          return Err(LoneSurrogate);
        }
        var lo := ReadHex4();
        if lo.Err? {
          return lo;
        }
        if !(0xDC00 <= lo.value < 0xE000) {
          return Err(LoneSurrogate);
        }
        code := 0x10000 + (hi.value - 0xD800) * 0x400 + (lo.value - 0xDC00);
      }
      if !Utf8.IsScalar(code) {
        return Err(LoneSurrogate);
      }
      r := Ok(code);
    }

    /** A string from its opening quote. */
    method ReadString() returns (r: Result<string, JsonError>)
      requires i < |s| && s[i] == '"'
      modifies this
      ensures old(i) <= i
      ensures Gives(r, StringRest(old(Ahead())[1..], ""))
    {
      i := i + 1;
      var out := "";
      while true
        invariant old(i) < i <= |s|
        invariant StringRest(s[i..], out) == StringRest(old(Ahead())[1..], "")
        decreases |s| - i
      {
        if i == |s| {
          return Err(UnterminatedString);
        }
        ghost var rest := s[i..];
        var b := s[i];
        i := i + 1;
        assert rest[1..] == s[i..];
        if b == '"' {
          if Utf8.Valid(out) {
            return Ok(out);
          }
          return Err(InvalidUtf8);
        } else if b == '\\' {
          if i < |s| && s[i] == 'u' {
            i := i + 1;
            assert rest[2..] == s[i..];
            var code := ReadUnicode();
            if code.Err? {
              return Err(code.error);
            }
            out := out + Utf8.Encode(code.value);
          } else if i < |s| && Unescaped(s[i]).Some? {
            out := out + [Unescaped(s[i]).value];
            i := i + 1;
            assert rest[2..] == s[i..];
          } else {
            i := i + 1;
            return Err(UnknownEscape);
          }
        } else if b < ' ' {
          return Err(ControlCharacter);
        } else {
          out := out + [b];
        }
      }
    }

    method ScanNumber()
      requires i <= |s|
      modifies this
      ensures i == old(i) + NumberRun(old(Ahead())) && i <= |s|
    {
      while i < |s| && IsNumberChar(s[i])
        invariant old(i) <= i <= |s|
        invariant (i - old(i)) + NumberRun(s[i..]) == NumberRun(old(Ahead()))
      {
        assert s[i..][1..] == s[i + 1..];
        i := i + 1;
      }
    }

    method ReadNumber() returns (r: Result<Json, JsonError>)
      requires i <= |s|
      modifies this
      ensures old(i) <= i
      ensures Gives(r, Number(old(Ahead())))
    {
      var start := i;
      ScanNumber();
      assert s[start..][..i - start] == s[start..i];
      assert s[start..][i - start..] == s[i..];
      r := NumberOf(s[start..i]);
      NumberGives(s[start..], s[start..i], s[i..], r);
    }

    method ReadValue() returns (r: Result<Json, JsonError>)
      requires i <= |s|
      modifies this
      ensures old(i) <= i
      ensures Gives(r, ParseValue(old(Ahead())))
      decreases |s| - i, 1
    {
      if i < |s| && s[i] == '{' {
        r := ReadObject();
      } else if i < |s| && s[i] == '[' {
        r := ReadArray();
      } else if i < |s| && s[i] == '"' {
        var t := ReadString();
        r := if t.Ok? then Ok(Str(t.value)) else Err(t.error);
      } else if i < |s| && (s[i] == '-' || IsDigit(s[i])) {
        r := ReadNumber();
      } else {
        r := ReadLiteral();
      }
    }

    method ReadLiteral() returns (r: Result<Json, JsonError>)
      requires i <= |s| && (i < |s| ==> s[i] !in ['{', '[', '"', '-'] && !IsDigit(s[i]))
      modifies this
      ensures old(i) <= i
      ensures Gives(r, ParseValue(old(Ahead())))
    {
      var hit := Eat("true");
      if hit {
        return Ok(Bool(true));
      }
      hit := Eat("false");
      if hit {
        return Ok(Bool(false));
      }
      hit := Eat("null");
      if hit {
        return Ok(Null);
      }
      r := Err(ExpectedValue);
    }

    method ReadArray() returns (r: Result<Json, JsonError>)
      requires i < |s| && s[i] == '['
      modifies this
      ensures old(i) <= i
      ensures Gives(r, ParseValue(old(Ahead())))
      decreases |s| - i, 0
    {
      i := i + 1;
      ghost var inner := s[i..];
      assert old(Ahead())[1..] == inner;
      SkipWs();
      var close := Eat("]");
      if close {
        return Ok(Arr([]));
      }
      ItemsWs(inner);
      r := ReadItems();
    }

    /** The loop of `ReadArray`. */
    method ReadItems() returns (r: Result<Json, JsonError>)
      requires i <= |s|
      modifies this
      ensures old(i) <= i
      ensures Gives(r, ParseItems(old(Ahead()), []))
      decreases |s| - i, 3
    {
      var out: seq<Json> := [];
      while true
        invariant old(i) <= i <= |s|
        invariant ParseItems(s[i..], out) == ParseItems(old(Ahead()), [])
        decreases |s| - i
      {
        var next := ReadItem();
        if next.Err? {
          return Err(next.error);
        }
        out := out + [next.value];
        var close := Eat("]");
        if close {
          return Ok(Arr(out));
        }
        var comma := Eat(",");
        if !comma {
          return Err(ExpectedCommaOrBracket);
        }
      }
    }

    /** One turn of the array's loop, up to the comma or the bracket. */
    method ReadItem() returns (r: Result<Json, JsonError>)
      requires i <= |s|
      modifies this
      ensures old(i) <= i
      ensures Gives(r, ParseItem(old(Ahead())))
      decreases |s| - i, 2
    {
      SkipWs();
      var v := ReadValue();
      if v.Err? {
        return v;
      }
      SkipWs();
      r := v;
    }

    method ReadObject() returns (r: Result<Json, JsonError>)
      requires i < |s| && s[i] == '{'
      modifies this
      ensures old(i) <= i
      ensures Gives(r, ParseValue(old(Ahead())))
      decreases |s| - i, 0
    {
      i := i + 1;
      ghost var inner := s[i..];
      assert old(Ahead())[1..] == inner;
      SkipWs();
      var close := Eat("}");
      if close {
        return Ok(Obj([]));
      }
      FieldsWs(inner);
      r := ReadFields();
    }

    /** The loop of `ReadObject`. */
    method ReadFields() returns (r: Result<Json, JsonError>)
      requires i <= |s|
      modifies this
      ensures old(i) <= i
      ensures Gives(r, ParseFields(old(Ahead()), []))
      decreases |s| - i, 3
    {
      var out: seq<Field> := [];
      while true
        invariant old(i) <= i <= |s|
        invariant ParseFields(s[i..], out) == ParseFields(old(Ahead()), [])
        decreases |s| - i
      {
        var next := ReadField(out);
        if next.Err? {
          return Err(next.error);
        }
        out := out + [next.value];
        var close := Eat("}");
        if close {
          return Ok(Obj(out));
        }
        var comma := Eat(",");
        if !comma {
          return Err(ExpectedCommaOrBrace);
        }
      }
    }

    /** One turn of the object's loop, up to the comma or the brace. */
    method ReadField(out: seq<Field>) returns (r: Result<Field, JsonError>)
      requires i <= |s|
      modifies this
      ensures old(i) <= i
      ensures Gives(r, ParseField(old(Ahead()), out))
      decreases |s| - i, 2
    {
      SkipWs();
      if i == |s| || s[i] != '"' {
        return Err(ExpectedKey);
      }
      var at := i;
      var key := ReadString();
      if key.Err? {
        return Err(key.error);
      }
      if HasKey(out, key.value) {
        i := at;
        return Err(KeyTwice(key.value));
      }
      SkipWs();
      var colon := Eat(":");
      if !colon {
        return Err(ExpectedColon);
      }
      SkipWs();
      var v := ReadValue();
      if v.Err? {
        return Err(v.error);
      }
      SkipWs();
      r := Ok(Field(key.value, v.value));
    }
  }

  lemma {:induction false} WsTwice(s: string)
    ensures Ws(Ws(s)) == Ws(s)
  {
    if s != "" && IsWs(s[0]) {
      WsTwice(s[1..]);
    }
  }

  lemma {:induction false} ItemWs(s: string)
    ensures ParseItem(Ws(s)) == ParseItem(s)
  {
    WsTwice(s);
  }

  lemma {:induction false} FieldWs(s: string, out: seq<Field>)
    ensures ParseField(Ws(s), out) == ParseField(s, out)
  {
    WsTwice(s);
  }

  lemma {:induction false} ItemsWs(s: string)
    ensures ParseItems(Ws(s), []) == ParseItems(s, [])
  {
    ItemWs(s);
  }

  lemma {:induction false} FieldsWs(s: string)
    ensures ParseFields(Ws(s), []) == ParseFields(s, [])
  {
    FieldWs(s, []);
  }

  method ParseText(src: string) returns (r: Result<Json, JsonError>)
    ensures r == Parse(src)
  {
    var p := new Parser(src);
    assert src[0..] == src;
    p.SkipWs();
    var v := p.ReadValue();
    if v.Err? {
      return v;
    }
    p.SkipWs();
    if p.i < |src| {
      return Err(TextAfterValue);
    }
    r := v;
  }

  lemma {:induction false} OneMore<T>(out: seq<T>, more: seq<T>)
    requires more != []
    ensures out + more == out + [more[0]] + more[1..]
    ensures more[1..] == [] ==> out + more == out + [more[0]]
  {
  }

  lemma {:induction false} WsSkips(pre: string, rest: string)
    requires forall c <- pre :: IsWs(c)
    ensures Ws(pre + rest) == Ws(rest)
  {
    if pre == "" {
      assert pre + rest == rest;
    } else {
      assert pre[0] in pre;
      assert (pre + rest)[1..] == pre[1..] + rest;
      WsSkips(pre[1..], rest);
    }
  }

  lemma {:induction false} NumberRunOf(text: string, rest: string)
    requires forall c <- text :: IsNumberChar(c)
    requires rest != "" ==> !IsNumberChar(rest[0])
    ensures NumberRun(text + rest) == |text|
  {
    if text == "" {
      assert text + rest == rest;
    } else {
      assert text[0] in text;
      assert (text + rest)[1..] == text[1..] + rest;
      NumberRunOf(text[1..], rest);
    }
  }

  lemma {:induction false} NumberValue(s: string)
    requires s != "" && (s[0] == '-' || IsDigit(s[0]))
    ensures ParseValue(s) == Number(s)
  {
  }

  lemma {:induction false} NumberAt(text: string, rest: string, v: Json)
    requires text != "" && (text[0] == '-' || IsDigit(text[0])) && NumberRun(text + rest) == |text|
    requires NumberOf(text) == Ok(v)
    ensures ParseValue(text + rest) == Ok((v, rest))
  {
    var s := text + rest;
    assert s[..|text|] == text && s[|text|..] == rest && s[0] == text[0];
    NumberCut(s, text, rest);
    NumberValue(s);
  }

  // ---- Escapes, white space and numbers, stated apart from the parser

  ghost predicate FourHex(h: string) {
    |h| == 4 && forall i | 0 <= i < 4 :: IsHex(h[i])
  }

  lemma {:induction false} Hex4Reads(h: string, rest: string)
    requires FourHex(h)
    ensures (forall c <- h :: IsHex(c)) && Hex4(h + rest) == Ok((HexValue(h), rest))
  {
    assert h[0] != '+' && (h + rest)[0] == h[0];
    assert (h + rest)[..4] == h && (h + rest)[4..] == rest;
    assert forall c <- h :: IsHex(c);
  }

  lemma {:induction false} EscapeStarts(h: string, rest: string)
    requires |h| == 4
    ensures var s := "\\u" + h + rest; |s| > 1 && s[0] == '\\' && s[1] == 'u' && s[2..] == h + rest
  {
  }

  /** One escape of four hex digits is the code point it numbers. */
  lemma {:induction false} EscapeReads(code: nat, h: string, rest: string, out: string)
    requires FourHex(h) && code < 0x10000 && Utf8.IsScalar(code)
    requires (forall c <- h :: IsHex(c)) && HexValue(h) == code
    ensures StringRest("\\u" + h + rest, out) == StringRest(rest, out + Utf8.Encode(code))
  {
    Hex4Reads(h, rest);
    EscapeStarts(h, rest);
  }

  /** A code point beyond the first 65536 is read from its two UTF-16 surrogates. */
  lemma {:induction false} PairReads(code: nat, high: string, low: string, rest: string, out: string)
    requires 0x10000 <= code < 0x110000 && FourHex(high) && FourHex(low)
    requires (forall c <- high :: IsHex(c)) && HexValue(high) == 0xD800 + (code - 0x10000) / 1024
    requires (forall c <- low :: IsHex(c)) && HexValue(low) == 0xDC00 + (code - 0x10000) % 1024
    ensures StringRest("\\u" + high + ("\\u" + low + rest), out) == StringRest(rest, out + Utf8.Encode(code))
  {
    var behind := "\\u" + low + rest;
    Hex4Reads(high, behind);
    Hex4Reads(low, rest);
    EscapeStarts(high, behind);
    EscapeStarts(low, rest);
    assert "\\u" <= behind;
    assert Unicode(high + behind) == Ok((code, rest));
  }

  /** A surrogate without its other half is refused. */
  lemma {:induction false} LoneIsRefused(h: string, rest: string, out: string)
    requires FourHex(h) && (forall c <- h :: IsHex(c)) && 0xD800 <= HexValue(h) < 0xE000
    requires !("\\u" <= rest) || HexValue(h) >= 0xDC00
    ensures StringRest("\\u" + h + rest, out) == Err(LoneSurrogate)
  {
    Hex4Reads(h, rest);
    EscapeStarts(h, rest);
  }

  lemma {:induction false} LoneHighIsRefused(h: string, other: string, rest: string, out: string)
    requires FourHex(h) && (forall c <- h :: IsHex(c)) && 0xD800 <= HexValue(h) < 0xDC00
    requires FourHex(other) && (forall c <- other :: IsHex(c)) && !(0xDC00 <= HexValue(other) < 0xE000)
    ensures StringRest("\\u" + h + ("\\u" + other + rest), out) == Err(LoneSurrogate)
  {
    var behind := "\\u" + other + rest;
    Hex4Reads(h, behind);
    Hex4Reads(other, rest);
    EscapeStarts(h, behind);
    EscapeStarts(other, rest);
    assert "\\u" <= behind;
  }

  /** The short escapes of section 7 of RFC 8259, and no other. */
  lemma {:induction false} ShortEscapes(e: char, rest: string, out: string)
    requires e != 'u'
    ensures StringRest(['\\', e] + rest, out)
         == if e == '"' then StringRest(rest, out + ['\U{22}'])
            else if e == '\\' then StringRest(rest, out + ['\U{5c}'])
            else if e == '/' then StringRest(rest, out + ['\U{2f}'])
            else if e == 'b' then StringRest(rest, out + ['\U{8}'])
            else if e == 'f' then StringRest(rest, out + ['\U{c}'])
            else if e == 'n' then StringRest(rest, out + ['\U{a}'])
            else if e == 'r' then StringRest(rest, out + ['\U{d}'])
            else if e == 't' then StringRest(rest, out + ['\U{9}'])
            else Err(UnknownEscape)
  {
    var s := ['\\', e] + rest;
    assert s[0] == '\\' && s[1] == e && s[2..] == rest;
  }

  /** White space is the four characters of section 2 of RFC 8259. */
  lemma {:induction false} WsIs(s: string) returns (i: nat)
    ensures i <= |s| && Ws(s) == s[i..]
    ensures forall k | 0 <= k < i :: s[k] in {'\U{20}', '\U{9}', '\U{a}', '\U{d}'}
    ensures i < |s| ==> s[i] !in {'\U{20}', '\U{9}', '\U{a}', '\U{d}'}
  {
    i := 0;
    if s != "" && IsWs(s[0]) {
      i := WsIs(s[1..]);
      assert forall k | 0 < k <= i :: k < |s| ==> s[k] == s[1..][k - 1];
      i := i + 1;
    }
  }

  ghost predicate DigitsOnly(s: string) {
    forall i | 0 <= i < |s| :: '0' <= s[i] <= '9'
  }

  ghost predicate Sign(s: string) {
    s == "" || s == "-" || s == "+"
  }

  ghost predicate SignedDigits(s: string) {
    exists sign: string, digits: string :: Sign(sign) && DigitsOnly(digits) && digits != "" && s == sign + digits
  }

  ghost predicate Exponent(s: string) {
    s == "" || ((s[0] == 'e' || s[0] == 'E') && SignedDigits(s[1..]))
  }

  /** Digits, and a point with digits behind it, not both without any. */
  ghost predicate Mantissa(s: string, whole: string, fraction: string) {
    && DigitsOnly(whole) && DigitsOnly(fraction) && whole + fraction != ""
    && ((s == whole && fraction == "") || s == whole + "." + fraction)
  }

  lemma {:induction false} RunIs(s: string, n: nat)
    requires n <= |s| && DigitsOnly(s[..n]) && (n < |s| ==> !IsDigit(s[n]))
    ensures DigitRun(s) == n
  {
    if n > 0 {
      assert s[0] == s[..n][0] && s[1..][..n - 1] == s[..n][1..];
      RunIs(s[1..], n - 1);
    }
  }

  lemma {:induction false} RunDigits(s: string)
    ensures DigitsOnly(s[..DigitRun(s)])
    ensures AllDigits(s) <==> s != "" && DigitsOnly(s)
  {
    assert forall k | 0 <= k < DigitRun(s) :: s[..DigitRun(s)][k] == s[k];
    if DigitsOnly(s) {
      assert s[..|s|] == s;
      RunIs(s, |s|);
    }
    if DigitRun(s) == |s| {
      assert s[..|s|] == s;
    }
  }

  lemma {:induction false} SignFirst(s: string, sign: string, digits: string)
    requires Sign(sign) && DigitsOnly(digits) && digits != "" && s == sign + digits
    ensures Unsigned(s) == digits && AllDigits(digits)
  {
    assert digits[0] == s[|sign|] && s[|sign|..] == digits;
    RunDigits(digits);
  }

  lemma {:induction false} SignCut(s: string)
    requires AllDigits(Unsigned(s))
    ensures SignedDigits(s)
  {
    var digits := Unsigned(s);
    var sign := s[..|s| - |digits|];
    RunDigits(digits);
    assert Sign(sign) && DigitsOnly(digits) && digits != "" && s == sign + digits;
  }

  lemma {:induction false} SignedDigitsIs(s: string)
    ensures AllDigits(Unsigned(s)) <==> SignedDigits(s)
  {
    if AllDigits(Unsigned(s)) {
      SignCut(s);
    }
    if sign: string, digits: string :| Sign(sign) && DigitsOnly(digits) && digits != "" && s == sign + digits {
      SignFirst(s, sign, digits);
    }
  }

  lemma {:induction false} ExponentIs(m: string, end: nat)
    requires end <= |m|
    ensures ExponentAt(m, end) <==> Exponent(m[end..])
  {
    if end < |m| {
      assert m[end..][0] == m[end] && m[end..][1..] == m[end + 1..];
      SignedDigitsIs(m[end + 1..]);
    }
  }

  /** Digits stand in a mantissa: it is not empty and not a point alone. */
  lemma {:induction false} MantissaHasDigits(m: string)
    ensures MantissaDigits(m) > 0 <==> MantissaEnd(m) > 0 && m[..MantissaEnd(m)] != "."
  {
    var whole, end := DigitRun(m), MantissaEnd(m);
    if whole < |m| && m[whole] == '.' {
      assert whole > 0 ==> m[..end][0] == m[0];
      assert whole == 0 ==> m[..end][0] == '.' && (m[..end] == "." <==> end == 1);
    } else if whole > 0 {
      assert m[..end][0] == m[0];
    }
  }

  lemma {:induction false} MantissaReads(m: string) returns (whole: string, fraction: string)
    requires MantissaEnd(m) > 0 && m[..MantissaEnd(m)] != "."
    ensures Mantissa(m[..MantissaEnd(m)], whole, fraction)
  {
    var end, run := MantissaEnd(m), DigitRun(m);
    RunDigits(m);
    whole, fraction := m[..run], "";
    if run < |m| && m[run] == '.' {
      fraction := m[run + 1..][..end - run - 1];
      RunDigits(m[run + 1..]);
      assert m[..end] == whole + "." + fraction;
    } else {
      assert whole + "" == whole;
    }
  }

  lemma {:induction false} MantissaStops(m: string, head: string, whole: string, fraction: string, exp: string)
    requires m == head + exp && Mantissa(head, whole, fraction) && Exponent(exp)
    ensures MantissaEnd(m) == |head| && head != "."
  {
    assert exp != "" ==> exp[0] == 'e' || exp[0] == 'E';
    assert m[..|whole|] == whole;
    assert |head| < |m| ==> m[|head|] == exp[0];
    if head == whole && fraction == "" {
      RunIs(m, |whole|);
    } else {
      assert head[|whole|] == '.' && m[|whole|] == '.';
      RunIs(m, |whole|);
      var behind := m[|whole| + 1..];
      assert behind == fraction + exp;
      assert behind[..|fraction|] == fraction;
      RunIs(behind, |fraction|);
    }
  }

  /** A number's text behind its sign: a mantissa, and an exponent or nothing. */
  ghost predicate FloatText(m: string, head: string, exp: string, whole: string, fraction: string) {
    m == head + exp && Mantissa(head, whole, fraction) && Exponent(exp)
  }

  lemma {:induction false} FloatReads(text: string) returns (head: string, exp: string, whole: string, fraction: string)
    requires IsFloat(text)
    ensures FloatText(Unsigned(text), head, exp, whole, fraction)
  {
    var m := Unsigned(text);
    var end := MantissaEnd(m);
    MantissaHasDigits(m);
    ExponentIs(m, end);
    whole, fraction := MantissaReads(m);
    head, exp := m[..end], m[end..];
    FloatTextOf(m, end, whole, fraction);
  }

  lemma {:induction false} FloatTextOf(m: string, end: nat, whole: string, fraction: string)
    requires end <= |m| && Mantissa(m[..end], whole, fraction) && Exponent(m[end..])
    ensures FloatText(m, m[..end], m[end..], whole, fraction)
  {
    assert m == m[..end] + m[end..];
  }

  lemma {:induction false} FloatTaken(text: string, head: string, exp: string, whole: string, fraction: string)
    requires FloatText(Unsigned(text), head, exp, whole, fraction)
    ensures IsFloat(text)
  {
    var m := Unsigned(text);
    HeadOf(head, exp);
    MantissaStops(m, head, whole, fraction, exp);
    ExponentIs(m, |head|);
    MantissaCounts(m, head, whole, fraction);
  }

  lemma {:induction false} HeadOf(head: string, exp: string)
    ensures (head + exp)[..|head|] == head && (head + exp)[|head|..] == exp
  {
  }

  lemma {:induction false} MantissaCounts(m: string, head: string, whole: string, fraction: string)
    requires MantissaEnd(m) == |head| <= |m| && m[..|head|] == head && head != "." && Mantissa(head, whole, fraction)
    ensures MantissaDigits(m) > 0
  {
    assert head != "";
    MantissaHasDigits(m);
  }

  /** A number that is no integer is a sign, digits with or without a point, and an exponent, each
      where it may stand, as `f64::from_str` takes it. */
  lemma {:induction false} FloatIs(text: string)
    ensures IsFloat(text)
       <==> exists head: string, exp: string, whole: string, fraction: string ::
              FloatText(Unsigned(text), head, exp, whole, fraction)
  {
    if IsFloat(text) {
      var head, exp, whole, fraction := FloatReads(text);
    }
    if head: string, exp: string, whole: string, fraction: string :|
         FloatText(Unsigned(text), head, exp, whole, fraction) {
      FloatTaken(text, head, exp, whole, fraction);
    }
  }
}
