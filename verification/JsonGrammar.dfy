/** The grammar of JSON texts as syntax trees, after RFC 8259, and the proof that the parser reads
    exactly the texts these trees spell, each as what its tree means. */
module JsonGrammar {
  import opened Wrappers
  import opened Digits
  import opened Text
  import opened Json
  import Utf8

  // ---- Syntax trees

  /** A piece of a string: a character as it is, a short escape, an escape of four hexadecimal digits,
      or two of these that make one code point. */
  datatype Part = Raw(c: char) | Short(e: char) | Unit(h: string) | Surrogates(high: string, low: string)

  /** A value as it is spelled. The space of a list or a record stands in it when it is empty. */
  datatype Doc =
    | Word(v: Json)
    | Numeral(text: string)
    | Quoted(parts: seq<Part>)
    | List(space: string, items: seq<Item>)
    | Record(space: string, members: seq<Member>)

  datatype Item = Item(before: string, doc: Doc, after: string)

  datatype Member =
    | Member(before: string, key: seq<Part>, left: string, right: string, doc: Doc, after: string)

  // ---- What they spell

  function SpellPart(p: Part): string {
    match p
    case Raw(c) => [c]
    case Short(e) => ['\\', e]
    case Unit(h) => "\\u" + h
    case Surrogates(high, low) => "\\u" + high + ("\\u" + low)
  }

  function SpellParts(parts: seq<Part>): string {
    if parts == [] then "" else SpellPart(parts[0]) + SpellParts(parts[1..])
  }

  function SpellString(parts: seq<Part>): string {
    ['"'] + (SpellParts(parts) + ['"'])
  }

  function Spell(doc: Doc): string
    decreases doc, 1
  {
    match doc
    case Word(v) => if v == Null then "null" else if v == Bool(true) then "true" else "false"
    case Numeral(text) => text
    case Quoted(parts) => SpellString(parts)
    case List(space, items) => ['['] + if items == [] then space + [']'] else SpellItems(items)
    case Record(space, members) => ['{'] + if members == [] then space + ['}'] else SpellMembers(members)
  }

  /** Items with commas between them, and the closing bracket. */
  function SpellItems(items: seq<Item>): string
    requires items != []
    decreases items, 0
  {
    var i := items[0];
    i.before + (Spell(i.doc) + (i.after + if |items| == 1 then [']'] else [','] + SpellItems(items[1..])))
  }

  function SpellMembers(members: seq<Member>): string
    requires members != []
    decreases members, 0
  {
    var m := members[0];
    m.before + (SpellString(m.key) + (m.left + ([':'] + (m.right + (Spell(m.doc) + (m.after
      + if |members| == 1 then ['}'] else [','] + SpellMembers(members[1..])))))))
  }

  // ---- Which are texts of the grammar

  ghost predicate Blank(s: string) {
    forall i | 0 <= i < |s| :: s[i] in {' ', '\t', '\n', '\r'}
  }

  /** Four hexadecimal digits, or a plus sign and three, as a radix parse takes them. */
  ghost predicate CodeText(h: string) {
    |h| == 4 && forall i | 0 <= i < 4 :: IsHex(h[i]) || (i == 0 && h[0] == '+')
  }

  ghost function Code(h: string): (n: nat)
    requires CodeText(h)
    ensures n < 0x10000
  {
    var digits := if h[0] == '+' then h[1..] else h;
    assert forall c <- digits :: IsHex(c);
    HexBound(digits);
    HexValue(digits)
  }

  lemma {:induction false} HexBound(digits: string)
    requires |digits| <= 4 && forall c <- digits :: IsHex(c)
    ensures HexValue(digits) < 0x10000
    ensures |digits| <= 3 ==> HexValue(digits) < 0x1000
    ensures |digits| <= 2 ==> HexValue(digits) < 0x100
    ensures |digits| <= 1 ==> HexValue(digits) < 0x10
  {
    if digits != "" {
      var last := |digits| - 1;
      assert forall c <- digits[..last] :: c in digits;
      HexBound(digits[..last]);
      assert digits[last] in digits && HexDigitValue(digits[last]) < 16;
    }
  }

  ghost predicate ProperPart(p: Part) {
    match p
    case Raw(c) => c >= ' ' && c != '"' && c != '\\'
    case Short(e) => e in {'"', '\\', '/', 'b', 'f', 'n', 'r', 't'}
    case Unit(h) => CodeText(h) && !(0xD800 <= Code(h) < 0xE000)
    case Surrogates(high, low) =>
      CodeText(high) && 0xD800 <= Code(high) < 0xDC00 && CodeText(low) && 0xDC00 <= Code(low) < 0xE000
  }

  ghost predicate ProperParts(parts: seq<Part>) {
    forall i | 0 <= i < |parts| :: ProperPart(parts[i])
  }

  ghost predicate ProperString(parts: seq<Part>) {
    ProperParts(parts) && Utf8.Valid(MeansParts(parts))
  }

  /** A numeral behind its minus sign. */
  ghost function Magnitude(text: string): string {
    if text != "" && text[0] == '-' then text[1..] else text
  }

  /** Digits behind a minus sign or none. */
  ghost predicate IntegerText(text: string) {
    Magnitude(text) != "" && forall c <- Magnitude(text) :: '0' <= c <= '9'
  }

  ghost predicate FloatMagnitude(m: string) {
    exists head: string, exp: string, whole: string, fraction: string :: FloatText(m, head, exp, whole, fraction)
  }

  /** An integer, or a float as `f64::from_str` takes it, that begins with a minus sign or a digit. */
  ghost predicate NumeralText(text: string) {
    && text != "" && (text[0] == '-' || '0' <= text[0] <= '9')
    && (IntegerText(text) || FloatMagnitude(Magnitude(text)))
  }

  ghost predicate Proper(doc: Doc)
    decreases doc, 1
  {
    match doc
    case Word(v) => v == Null || v.Bool?
    case Numeral(text) => NumeralText(text)
    case Quoted(parts) => ProperString(parts)
    case List(space, items) => Blank(space) && ProperItems(items)
    case Record(space, members) => Blank(space) && ProperMembers(members) && KeysApart(members)
  }

  ghost predicate ProperItems(items: seq<Item>)
    decreases items, 0
  {
    items == [] || (Blank(items[0].before) && Proper(items[0].doc) && Blank(items[0].after) && ProperItems(items[1..]))
  }

  ghost predicate ProperMembers(members: seq<Member>)
    decreases members, 0
  {
    members == []
    || (Blank(members[0].before) && ProperString(members[0].key) && Blank(members[0].left) && Blank(members[0].right)
        && Proper(members[0].doc) && Blank(members[0].after) && ProperMembers(members[1..]))
  }

  /** No key twice, however it is spelled. */
  ghost predicate KeysApart(members: seq<Member>) {
    forall i, j | 0 <= i < j < |members| :: MeansParts(members[i].key) != MeansParts(members[j].key)
  }

  // ---- What they mean

  ghost function MeansPart(p: Part): string {
    match p
    case Raw(c) => [c]
    case Short(e) =>
      if e == 'b' then ['\U{8}'] else if e == 'f' then ['\U{c}'] else if e == 'n' then ['\U{a}']
      else if e == 'r' then ['\U{d}'] else if e == 't' then ['\U{9}'] else [e]
    case Unit(h) => if ProperPart(p) then Utf8.Encode(Code(h)) else ""
    case Surrogates(high, low) =>
      if ProperPart(p) then Utf8.Encode(0x10000 + (Code(high) - 0xD800) * 1024 + (Code(low) - 0xDC00)) else ""
  }

  ghost function MeansParts(parts: seq<Part>): string {
    if parts == [] then "" else MeansPart(parts[0]) + MeansParts(parts[1..])
  }

  ghost function NumeralMeans(text: string): Json {
    if IntegerText(text) then
      Num(if text[0] == '-' then -(Value(Magnitude(text)) as int) else Value(Magnitude(text)))
    else Real(text)
  }

  ghost function Means(doc: Doc): Json
    decreases doc, 1
  {
    match doc
    case Word(v) => v
    case Numeral(text) => NumeralMeans(text)
    case Quoted(parts) => Str(MeansParts(parts))
    case List(_, items) => Arr(MeansItems(items))
    case Record(_, members) => Obj(MeansMembers(members))
  }

  ghost function MeansItems(items: seq<Item>): seq<Json>
    decreases items, 0
  {
    if items == [] then [] else [Means(items[0].doc)] + MeansItems(items[1..])
  }

  ghost function MeansMembers(members: seq<Member>): seq<Field>
    decreases members, 0
  {
    if members == [] then []
    else [Field(MeansParts(members[0].key), Means(members[0].doc))] + MeansMembers(members[1..])
  }

  // ---- White space

  lemma {:induction false} BlankSkips(space: string, rest: string)
    requires Blank(space)
    ensures Ws(space + rest) == Ws(rest)
  {
    forall c <- space
      ensures IsWs(c)
    {
      var i :| 0 <= i < |space| && space[i] == c;
    }
    WsSkips(space, rest);
  }

  /** White space up to something else. */
  lemma {:induction false} BlankEnds(space: string, rest: string)
    requires Blank(space) && rest != "" && !IsWs(rest[0])
    ensures Ws(space + rest) == rest
    ensures space + rest != "" && (IsNumberChar((space + rest)[0]) ==> IsNumberChar(rest[0]))
  {
    BlankSkips(space, rest);
    assert space != "" ==> (space + rest)[0] == space[0];
    assert space == "" ==> space + rest == rest;
  }

  lemma {:induction false} WsSplits(s: string) returns (space: string)
    ensures Blank(space) && s == space + Ws(s)
  {
    var i := WsIs(s);
    space := s[..i];
    assert forall k | 0 <= k < i :: space[k] == s[k];
  }

  // ---- Strings

  lemma {:induction false} Hex4Of(h: string, rest: string)
    requires CodeText(h)
    ensures Hex4(h + rest) == Ok((Code(h), rest))
  {
    var s := h + rest;
    assert s[0] == h[0] && s[..4] == h && s[1..4] == h[1..] && s[4..] == rest;
    var digits := if h[0] == '+' then h[1..] else h;
    assert forall c <- digits :: IsHex(c);
  }

  lemma {:induction false} Hex4Derives(s: string) returns (h: string)
    requires Hex4(s).Ok?
    ensures CodeText(h) && s == h + Hex4(s).value.1 && Hex4(s).value.0 == Code(h)
  {
    h := s[..4];
    assert s == h + s[4..];
    var text := if s[0] == '+' then s[1..4] else s[..4];
    forall i | 0 <= i < 4
      ensures IsHex(h[i]) || (i == 0 && h[0] == '+')
    {
      if s[0] != '+' {
        assert text[i] in text;
      } else if i > 0 {
        assert text[i - 1] in text;
      }
    }
    Hex4Of(h, s[4..]);
  }

  lemma {:induction false} UnitReads(h: string, rest: string)
    requires ProperPart(Unit(h))
    ensures Unicode(h + rest) == Ok((Code(h), rest))
  {
    Hex4Of(h, rest);
  }

  lemma {:induction false} SurrogatesRead(high: string, low: string, rest: string)
    requires ProperPart(Surrogates(high, low))
    ensures Unicode(high + ("\\u" + low + rest)) == Ok((0x10000 + (Code(high) - 0xD800) * 1024 + (Code(low) - 0xDC00), rest))
  {
    var behind := "\\u" + low + rest;
    Hex4Of(high, behind);
    Hex4Of(low, rest);
    EscapeStarts(low, rest);
    assert "\\u" <= behind;
  }

  lemma {:induction false} PartReads(p: Part, rest: string, out: string)
    requires ProperPart(p)
    ensures StringRest(SpellPart(p) + rest, out) == StringRest(rest, out + MeansPart(p))
  {
    match p
    case Raw(c) =>
      assert ([c] + rest)[1..] == rest;
    case Short(e) =>
      ShortEscapes(e, rest, out);
    case Unit(h) =>
      EscapeStarts(h, rest);
      UnitReads(h, rest);
    case Surrogates(high, low) =>
      PairPartReads(high, low, rest, out);
  }

  lemma {:induction false} PairPartReads(high: string, low: string, rest: string, out: string)
    requires ProperPart(Surrogates(high, low))
    ensures var p := Surrogates(high, low); StringRest(SpellPart(p) + rest, out) == StringRest(rest, out + MeansPart(p))
  {
    Associative("\\u" + high, "\\u" + low, rest);
    EscapeStarts(high, "\\u" + low + rest);
    SurrogatesRead(high, low, rest);
  }

  lemma {:induction false} PartsRead(parts: seq<Part>, rest: string, out: string)
    requires ProperParts(parts)
    ensures StringRest(SpellParts(parts) + rest, out) == StringRest(rest, out + MeansParts(parts))
  {
    if parts == [] {
      assert SpellParts(parts) + rest == rest && out + MeansParts(parts) == out;
    } else {
      Associative(SpellPart(parts[0]), SpellParts(parts[1..]), rest);
      PartReads(parts[0], SpellParts(parts[1..]) + rest, out);
      PartsRead(parts[1..], rest, out + MeansPart(parts[0]));
      Associative(out, MeansPart(parts[0]), MeansParts(parts[1..]));
    }
  }

  lemma {:induction false} StringReads(parts: seq<Part>, rest: string)
    requires ProperString(parts)
    ensures var s := SpellString(parts) + rest;
            s != "" && s[0] == '"' && StringRest(s[1..], "") == Ok((MeansParts(parts), rest))
  {
    var inner := SpellParts(parts) + (['"'] + rest);
    Associative(['"'], SpellParts(parts) + ['"'], rest);
    Associative(SpellParts(parts), ['"'], rest);
    assert (['"'] + inner)[1..] == inner;
    PartsRead(parts, ['"'] + rest, "");
    assert "" + MeansParts(parts) == MeansParts(parts);
    assert (['"'] + rest)[1..] == rest;
  }

  lemma {:induction false} UnicodeDerives(s: string) returns (p: Part)
    requires Unicode(s).Ok?
    ensures ProperPart(p) && MeansPart(p) == Utf8.Encode(Unicode(s).value.0)
    ensures "\\u" + s == SpellPart(p) + Unicode(s).value.1
  {
    var h := Hex4Derives(s);
    var rest := Hex4(s).value.1;
    if 0xD800 <= Code(h) < 0xDC00 {
      p := PairDerives(s, h);
    } else {
      p := Unit(h);
      Associative("\\u", h, rest);
    }
  }

  lemma {:induction false} PairDerives(s: string, h: string) returns (p: Part)
    requires Unicode(s).Ok? && CodeText(h) && Hex4(s).Ok? && s == h + Hex4(s).value.1 && Hex4(s).value.0 == Code(h)
    requires 0xD800 <= Code(h) < 0xDC00
    ensures ProperPart(p) && MeansPart(p) == Utf8.Encode(Unicode(s).value.0)
    ensures "\\u" + s == SpellPart(p) + Unicode(s).value.1
  {
    var rest := Hex4(s).value.1;
    var low := Hex4Derives(rest[2..]);
    p := Surrogates(h, low);
    assert rest == "\\u" + rest[2..];
    PairSpelled(h, low, Unicode(s).value.1);
  }

  lemma {:induction false} PairSpelled(high: string, low: string, rest: string)
    ensures "\\u" + (high + ("\\u" + (low + rest))) == SpellPart(Surrogates(high, low)) + rest
  {
  }

  lemma {:induction false} ShortDerives(e: char)
    requires Unescaped(e).Some?
    ensures ProperPart(Short(e)) && MeansPart(Short(e)) == [Unescaped(e).value]
  {
  }

  /** One more piece in front. */
  lemma {:induction false} PartBefore(p: Part, parts: seq<Part>, rest: string, out: string)
    requires ProperPart(p) && ProperParts(parts)
    ensures ProperParts([p] + parts)
    ensures SpellParts([p] + parts) + rest == SpellPart(p) + (SpellParts(parts) + rest)
    ensures out + MeansParts([p] + parts) == out + MeansPart(p) + MeansParts(parts)
  {
    assert ([p] + parts)[1..] == parts;
    Associative(SpellPart(p), SpellParts(parts), rest);
    Associative(out, MeansPart(p), MeansParts(parts));
  }

  lemma {:induction false} StringDerives(s: string, out: string) returns (parts: seq<Part>)
    requires StringRest(s, out).Ok?
    ensures ProperParts(parts) && StringRest(s, out).value.0 == out + MeansParts(parts)
    ensures s == SpellParts(parts) + (['"'] + StringRest(s, out).value.1)
    ensures Utf8.Valid(StringRest(s, out).value.0)
    decreases |s|
  {
    if s[0] == '"' {
      parts := [];
      assert out + "" == out && "" + (['"'] + s[1..]) == s;
    } else {
      var p, rest := FirstPart(s, out);
      var more := StringDerives(rest, out + MeansPart(p));
      parts := [p] + more;
      PartBefore(p, more, ['"'] + StringRest(s, out).value.1, out);
    }
  }

  lemma {:induction false} FirstPart(s: string, out: string) returns (p: Part, rest: string)
    requires StringRest(s, out).Ok? && s[0] != '"'
    ensures ProperPart(p) && s == SpellPart(p) + rest && |rest| < |s|
    ensures StringRest(s, out) == StringRest(rest, out + MeansPart(p))
  {
    if s[0] != '\\' {
      p, rest := Raw(s[0]), s[1..];
    } else if s[1] == 'u' {
      p := UnicodeDerives(s[2..]);
      rest := Unicode(s[2..]).value.1;
      assert s == "\\u" + s[2..];
    } else {
      p, rest := Short(s[1]), s[2..];
      ShortDerives(s[1]);
    }
  }

  // ---- Numbers

  lemma {:induction false} SameDigits(s: string)
    ensures (forall c <- s :: '0' <= c <= '9') <==> DigitsOnly(s)
  {
    if DigitsOnly(s) {
      forall c <- s
        ensures '0' <= c <= '9'
      {
        var i :| 0 <= i < |s| && s[i] == c;
      }
    }
    if forall c <- s :: '0' <= c <= '9' {
      forall i | 0 <= i < |s|
        ensures '0' <= s[i] <= '9'
      {
        assert s[i] in s;
      }
    }
  }

  lemma {:induction false} IntegerIs(text: string)
    ensures AllDigits(Magnitude(text)) <==> IntegerText(text)
  {
    SameDigits(Magnitude(text));
    RunDigits(Magnitude(text));
  }

  lemma {:induction false} NumeralIs(text: string)
    requires text != "" && (text[0] == '-' || IsDigit(text[0]))
    ensures NumberOf(text).Ok? <==> NumeralText(text)
    ensures NumberOf(text).Ok? ==> NumberOf(text).value == NumeralMeans(text)
  {
    assert Unsigned(text) == Magnitude(text);
    IntegerIs(text);
    FloatIs(text);
  }

  lemma {:induction false} DigitsAreNumberChars(s: string)
    requires DigitsOnly(s)
    ensures forall c <- s :: IsNumberChar(c)
  {
    SameDigits(s);
  }

  lemma {:induction false} ExponentChars(exp: string)
    requires Exponent(exp)
    ensures forall c <- exp :: IsNumberChar(c)
  {
    if exp != "" {
      var sign: string, digits: string :|
        Sign(sign) && DigitsOnly(digits) && digits != "" && exp[1..] == sign + digits;
      DigitsAreNumberChars(digits);
      assert exp == [exp[0]] + (sign + digits);
    }
  }

  lemma {:induction false} FloatChars(m: string, head: string, exp: string, whole: string, fraction: string)
    requires FloatText(m, head, exp, whole, fraction)
    ensures forall c <- m :: IsNumberChar(c)
  {
    ExponentChars(exp);
    DigitsAreNumberChars(whole);
    DigitsAreNumberChars(fraction);
    assert forall c <- head :: IsNumberChar(c);
  }

  lemma {:induction false} SignChars(text: string)
    requires text != "" && forall c <- Magnitude(text) :: IsNumberChar(c)
    ensures forall c <- text :: IsNumberChar(c)
  {
    forall c <- text
      ensures IsNumberChar(c)
    {
      assert c == '-' || c in Magnitude(text);
    }
  }

  lemma {:induction false} NumeralChars(text: string)
    requires NumeralText(text)
    ensures forall c <- text :: IsNumberChar(c)
  {
    var m := Magnitude(text);
    if IntegerText(text) {
      SignChars(text);
    } else {
      var head: string, exp: string, whole: string, fraction: string :| FloatText(m, head, exp, whole, fraction);
      FloatChars(m, head, exp, whole, fraction);
      SignChars(text);
    }
  }

  lemma {:induction false} NumeralReads(text: string, rest: string)
    requires NumeralText(text) && (rest != "" ==> !IsNumberChar(rest[0]))
    ensures ParseValue(text + rest) == Ok((NumeralMeans(text), rest))
  {
    NumeralChars(text);
    NumberRunOf(text, rest);
    NumeralIs(text);
    NumberAt(text, rest, NumeralMeans(text));
  }

  lemma {:induction false} RunBegins(s: string)
    requires s != "" && (s[0] == '-' || IsDigit(s[0]))
    ensures var text := s[..NumberRun(s)]; text != "" && text[0] == s[0] && s == text + s[NumberRun(s)..]
  {
  }

  lemma {:induction false} NumeralDerives(s: string) returns (doc: Doc)
    requires s != "" && (s[0] == '-' || IsDigit(s[0])) && Number(s).Ok?
    ensures Proper(doc) && Means(doc) == Number(s).value.0 && s == Spell(doc) + Number(s).value.1
  {
    var text := s[..NumberRun(s)];
    RunBegins(s);
    NumberCut(s, text, s[NumberRun(s)..]);
    NumeralIs(text);
    doc := Numeral(text);
  }

  // ---- A tree is read as what it means

  lemma {:induction false} SpellBegins(doc: Doc)
    requires Proper(doc)
    ensures Spell(doc) != "" && !IsWs(Spell(doc)[0])
    ensures Spell(doc)[0] !in [']', '}']
  {
  }

  lemma {:induction false} WordReads(v: Json, rest: string)
    requires Proper(Word(v))
    ensures ParseValue(Spell(Word(v)) + rest) == Ok((v, rest))
  {
    var text := Spell(Word(v));
    assert (text + rest)[|text|..] == rest;
    assert text <= text + rest;
    assert (text + rest)[0] == text[0];
  }

  /** A tree read with anything behind it that a number cannot run into. */
  lemma {:induction false} DocReads(doc: Doc, rest: string)
    requires Proper(doc) && (rest != "" ==> !IsNumberChar(rest[0]))
    ensures ParseValue(Spell(doc) + rest) == Ok((Means(doc), rest))
    decreases doc, 1
  {
    match doc
    case Word(v) =>
      WordReads(v, rest);
    case Numeral(text) =>
      NumeralReads(text, rest);
    case Quoted(parts) =>
      StringReads(parts, rest);
    case List(space, items) =>
      ListReads(space, items, rest);
    case Record(space, members) =>
      RecordReads(space, members, rest);
  }

  /** A pair of brackets with white space between them. */
  lemma {:induction false} EmptyReads(open: char, space: string, close: char, rest: string)
    requires Blank(space) && ((open == '[' && close == ']') || (open == '{' && close == '}'))
    ensures ParseValue([open] + (space + [close]) + rest) == Ok((if open == '[' then Arr([]) else Obj([]), rest))
  {
    var s := [open] + (space + [close]) + rest;
    assert s[1..] == space + ([close] + rest);
    BlankEnds(space, [close] + rest);
    assert ([close] + rest)[1..] == rest;
  }

  lemma {:induction false} OpenReads(open: char, inner: string)
    requires (open == '[' && !Starts(Ws(inner), ']')) || (open == '{' && !Starts(Ws(inner), '}'))
    ensures ParseValue([open] + inner) == if open == '[' then ParseItems(inner, []) else ParseFields(inner, [])
  {
    assert ([open] + inner)[1..] == inner;
  }

  lemma {:induction false} ListReads(space: string, items: seq<Item>, rest: string)
    requires Proper(List(space, items))
    ensures ParseValue(Spell(List(space, items)) + rest) == Ok((Means(List(space, items)), rest))
    decreases items, 1
  {
    if items == [] {
      EmptyReads('[', space, ']', rest);
    } else {
      Associative(['['], SpellItems(items), rest);
      ItemsBegin(items, rest);
      OpenReads('[', SpellItems(items) + rest);
      ItemsRead(items, rest, []);
      assert [] + MeansItems(items) == MeansItems(items);
    }
  }

  function ItemsTail(items: seq<Item>, rest: string): string
    requires items != []
  {
    (if |items| == 1 then [']'] else [','] + SpellItems(items[1..])) + rest
  }

  lemma {:induction false} ItemsSplit(items: seq<Item>, rest: string)
    requires items != []
    ensures var i := items[0];
            SpellItems(items) + rest == i.before + (Spell(i.doc) + (i.after + ItemsTail(items, rest)))
  {
    var i := items[0];
    var close := if |items| == 1 then [']'] else [','] + SpellItems(items[1..]);
    Associative(i.before, Spell(i.doc) + (i.after + close), rest);
    Associative(Spell(i.doc), i.after + close, rest);
    Associative(i.after, close, rest);
  }

  lemma {:induction false} ItemsBegin(items: seq<Item>, rest: string)
    requires items != [] && ProperItems(items)
    ensures !Starts(Ws(SpellItems(items) + rest), ']')
  {
    var i := items[0];
    ItemsSplit(items, rest);
    SpellBegins(i.doc);
    BlankEnds(i.before, Spell(i.doc) + (i.after + ItemsTail(items, rest)));
  }

  /** What stands behind an item. */
  lemma {:induction false} TailAfter(after: string, tail: string)
    requires Blank(after) && tail != "" && tail[0] in {',', ']', '}'}
    ensures after + tail != "" && !IsNumberChar((after + tail)[0]) && Ws(after + tail) == tail
  {
    BlankEnds(after, tail);
  }

  lemma {:induction false} ItemReads(item: Item, tail: string)
    requires Blank(item.before) && Proper(item.doc) && Blank(item.after) && tail != "" && tail[0] in {',', ']'}
    requires ParseValue(Spell(item.doc) + (item.after + tail)) == Ok((Means(item.doc), item.after + tail))
    ensures ParseItem(item.before + (Spell(item.doc) + (item.after + tail))) == Ok((Means(item.doc), tail))
  {
    SpellBegins(item.doc);
    BlankEnds(item.before, Spell(item.doc) + (item.after + tail));
    TailAfter(item.after, tail);
  }

  lemma {:induction false} ItemsRead(items: seq<Item>, rest: string, out: seq<Json>)
    requires items != [] && ProperItems(items)
    ensures ParseItems(SpellItems(items) + rest, out) == Ok((Arr(out + MeansItems(items)), rest))
    decreases items, 0
  {
    var i, tail := items[0], ItemsTail(items, rest);
    assert tail[0] == if |items| == 1 then ']' else ',';
    ItemsSplit(items, rest);
    TailAfter(i.after, tail);
    DocReads(i.doc, i.after + tail);
    ItemReads(i, tail);
    if |items| == 1 {
      LastItem(SpellItems(items) + rest, Means(i.doc), rest, out);
      assert MeansItems(items[1..]) == [] && [Means(i.doc)] + [] == [Means(i.doc)];
    } else {
      Associative([','], SpellItems(items[1..]), rest);
      ItemsRead(items[1..], rest, out + [Means(i.doc)]);
      NextItem(SpellItems(items) + rest, Means(i.doc), SpellItems(items[1..]) + rest, out);
      Associate(out, [Means(i.doc)], MeansItems(items[1..]));
    }
  }

  lemma {:induction false} Associate<T>(a: seq<T>, b: seq<T>, c: seq<T>)
    ensures a + b + c == a + (b + c)
  {
  }

  lemma {:induction false} LastItem(s: string, v: Json, rest: string, out: seq<Json>)
    requires ParseItem(s) == Ok((v, [']'] + rest))
    ensures ParseItems(s, out) == Ok((Arr(out + [v]), rest))
  {
    assert ([']'] + rest)[1..] == rest;
  }

  lemma {:induction false} NextItem(s: string, v: Json, rest: string, out: seq<Json>)
    requires ParseItem(s) == Ok((v, [','] + rest))
    ensures ParseItems(s, out) == ParseItems(rest, out + [v])
  {
    assert ([','] + rest)[1..] == rest;
  }

  // ---- Records

  function MembersTail(members: seq<Member>, rest: string): string
    requires members != []
  {
    (if |members| == 1 then ['}'] else [','] + SpellMembers(members[1..])) + rest
  }

  /** A member's text from the colon on, and from the key on. */
  function FromColon(m: Member, tail: string): string {
    [':'] + (m.right + (Spell(m.doc) + (m.after + tail)))
  }

  function FromKey(m: Member, tail: string): string {
    SpellString(m.key) + (m.left + FromColon(m, tail))
  }

  lemma {:induction false} ColonSplit(m: Member, close: string, rest: string)
    ensures m.left + FromColon(m, close) + rest == m.left + FromColon(m, close + rest)
  {
    Associative(m.left, FromColon(m, close), rest);
    Associative([':'], m.right + (Spell(m.doc) + (m.after + close)), rest);
    Associative(m.right, Spell(m.doc) + (m.after + close), rest);
    Associative(Spell(m.doc), m.after + close, rest);
    Associative(m.after, close, rest);
  }

  lemma {:induction false} MembersSplit(members: seq<Member>, rest: string)
    requires members != []
    ensures SpellMembers(members) + rest == members[0].before + FromKey(members[0], MembersTail(members, rest))
  {
    var m := members[0];
    var close := if |members| == 1 then ['}'] else [','] + SpellMembers(members[1..]);
    Associative(m.before, FromKey(m, close), rest);
    Associative(SpellString(m.key), m.left + FromColon(m, close), rest);
    ColonSplit(m, close, rest);
  }

  lemma {:induction false} RecordReads(space: string, members: seq<Member>, rest: string)
    requires Proper(Record(space, members))
    ensures ParseValue(Spell(Record(space, members)) + rest) == Ok((Means(Record(space, members)), rest))
    decreases members, 1
  {
    if members == [] {
      EmptyReads('{', space, '}', rest);
    } else {
      Associative(['{'], SpellMembers(members), rest);
      MembersBegin(members, rest);
      OpenReads('{', SpellMembers(members) + rest);
      ApartIsFresh(members, []);
      MembersRead(members, rest, []);
      assert [] + MeansMembers(members) == MeansMembers(members);
    }
  }

  lemma {:induction false} MembersBegin(members: seq<Member>, rest: string)
    requires members != [] && ProperMembers(members)
    ensures !Starts(Ws(SpellMembers(members) + rest), '}')
  {
    MembersSplit(members, rest);
    BlankEnds(members[0].before, FromKey(members[0], MembersTail(members, rest)));
  }

  /** Each key is new when it is read. */
  ghost predicate Fresh(members: seq<Member>, out: seq<Field>)
    decreases |members|
  {
    members == []
    || (!HasKey(out, MeansParts(members[0].key))
        && Fresh(members[1..], out + [Field(MeansParts(members[0].key), Means(members[0].doc))]))
  }

  ghost predicate NotIn(members: seq<Member>, out: seq<Field>) {
    forall i | 0 <= i < |members| :: !HasKey(out, MeansParts(members[i].key))
  }

  lemma {:induction false} ApartIsFresh(members: seq<Member>, out: seq<Field>)
    requires KeysApart(members) && NotIn(members, out)
    ensures Fresh(members, out)
    decreases |members|
  {
    if members != [] {
      var f := Field(MeansParts(members[0].key), Means(members[0].doc));
      forall i | 0 <= i < |members[1..]|
        ensures !HasKey(out + [f], MeansParts(members[1..][i].key))
      {
        assert members[1..][i] == members[i + 1];
      }
      ApartIsFresh(members[1..], out + [f]);
    }
  }

  lemma {:induction false} FreshIsApart(members: seq<Member>, out: seq<Field>)
    requires Fresh(members, out)
    ensures KeysApart(members) && NotIn(members, out)
    decreases |members|
  {
    if members != [] {
      var f := Field(MeansParts(members[0].key), Means(members[0].doc));
      FreshIsApart(members[1..], out + [f]);
      assert (out + [f])[|out|] == f;
      forall i | 0 < i < |members|
        ensures MeansParts(members[i].key) != f.key && !HasKey(out, MeansParts(members[i].key))
      {
        assert members[i] == members[1..][i - 1];
        assert forall k | 0 <= k < |out| :: (out + [f])[k] == out[k];
      }
      forall i, j | 0 <= i < j < |members|
        ensures MeansParts(members[i].key) != MeansParts(members[j].key)
      {
        if i > 0 {
          assert members[i] == members[1..][i - 1] && members[j] == members[1..][j - 1];
        }
      }
    }
  }

  lemma {:induction false} ValueAtReads(m: Member, tail: string)
    requires Blank(m.right) && Proper(m.doc) && Blank(m.after) && tail != "" && tail[0] in {',', '}'}
    requires ParseValue(Spell(m.doc) + (m.after + tail)) == Ok((Means(m.doc), m.after + tail))
    ensures Starts(FromColon(m, tail), ':')
    ensures ParseValue(Ws(FromColon(m, tail)[1..])) == Ok((Means(m.doc), m.after + tail))
    ensures Ws(m.after + tail) == tail
  {
    var value := Spell(m.doc) + (m.after + tail);
    assert FromColon(m, tail)[1..] == m.right + value;
    SpellBegins(m.doc);
    BlankEnds(m.right, value);
    TailAfter(m.after, tail);
  }

  lemma {:induction false} MemberReads(m: Member, tail: string, out: seq<Field>)
    requires Blank(m.before) && ProperString(m.key) && Blank(m.left) && !HasKey(out, MeansParts(m.key))
    requires Starts(FromColon(m, tail), ':')
    requires ParseValue(Ws(FromColon(m, tail)[1..])) == Ok((Means(m.doc), m.after + tail))
    requires Ws(m.after + tail) == tail
    ensures ParseField(m.before + FromKey(m, tail), out) == Ok((Field(MeansParts(m.key), Means(m.doc)), tail))
  {
    BlankEnds(m.before, FromKey(m, tail));
    StringReads(m.key, m.left + FromColon(m, tail));
    BlankEnds(m.left, FromColon(m, tail));
  }

  lemma {:induction false} MembersRead(members: seq<Member>, rest: string, out: seq<Field>)
    requires members != [] && ProperMembers(members) && Fresh(members, out)
    ensures ParseFields(SpellMembers(members) + rest, out) == Ok((Obj(out + MeansMembers(members)), rest))
    decreases members, 0
  {
    var m, tail := members[0], MembersTail(members, rest);
    var f := Field(MeansParts(m.key), Means(m.doc));
    assert tail[0] == if |members| == 1 then '}' else ',';
    MembersSplit(members, rest);
    TailAfter(m.after, tail);
    DocReads(m.doc, m.after + tail);
    ValueAtReads(m, tail);
    MemberReads(m, tail, out);
    if |members| == 1 {
      LastMember(SpellMembers(members) + rest, f, rest, out);
      assert MeansMembers(members[1..]) == [] && [f] + [] == [f];
    } else {
      Associative([','], SpellMembers(members[1..]), rest);
      MembersRead(members[1..], rest, out + [f]);
      NextMember(SpellMembers(members) + rest, f, SpellMembers(members[1..]) + rest, out);
      Associate(out, [f], MeansMembers(members[1..]));
    }
  }

  lemma {:induction false} LastMember(s: string, f: Field, rest: string, out: seq<Field>)
    requires ParseField(s, out) == Ok((f, ['}'] + rest))
    ensures ParseFields(s, out) == Ok((Obj(out + [f]), rest))
  {
    assert (['}'] + rest)[1..] == rest;
  }

  lemma {:induction false} NextMember(s: string, f: Field, rest: string, out: seq<Field>)
    requires ParseField(s, out) == Ok((f, [','] + rest))
    ensures ParseFields(s, out) == ParseFields(rest, out + [f])
  {
    assert ([','] + rest)[1..] == rest;
  }

  // ---- What is read has a tree

  ghost predicate Derives(doc: Doc, s: string, v: Json, rest: string) {
    Proper(doc) && Means(doc) == v && s == Spell(doc) + rest
  }

  lemma {:induction false} WordDerives(s: string, v: Json) returns (doc: Doc)
    requires v == Null || v.Bool?
    requires Spell(Word(v)) <= s
    ensures doc == Word(v) && Derives(doc, s, v, s[|Spell(Word(v))|..])
  {
    doc := Word(v);
  }

  lemma {:induction false} StringDoc(s: string) returns (doc: Doc)
    requires s != "" && s[0] == '"' && StringRest(s[1..], "").Ok?
    ensures Derives(doc, s, Str(StringRest(s[1..], "").value.0), StringRest(s[1..], "").value.1)
  {
    var parts := StringDerives(s[1..], "");
    var rest := StringRest(s[1..], "").value.1;
    doc := Quoted(parts);
    assert "" + MeansParts(parts) == MeansParts(parts);
    QuotedSpelled(parts, s, rest);
  }

  lemma {:induction false} QuotedSpelled(parts: seq<Part>, s: string, rest: string)
    requires s != "" && s[0] == '"' && s[1..] == SpellParts(parts) + (['"'] + rest)
    ensures s == SpellString(parts) + rest
  {
    Associative(SpellParts(parts), ['"'], rest);
    Associative(['"'], SpellParts(parts) + ['"'], rest);
    assert s == ['"'] + s[1..];
  }

  /** Every value the parser reads is spelled by a tree that means it. */
  lemma {:induction false} ValueDerives(s: string) returns (doc: Doc)
    requires ParseValue(s).Ok?
    ensures Derives(doc, s, ParseValue(s).value.0, ParseValue(s).value.1)
    decreases |s|, 3
  {
    if s[0] == '{' {
      doc := RecordDerives(s);
    } else if s[0] == '[' {
      doc := ListDerives(s);
    } else if s[0] == '"' {
      doc := StringDoc(s);
    } else if s[0] == '-' || IsDigit(s[0]) {
      doc := NumeralDerives(s);
    } else if "true" <= s {
      doc := WordDerives(s, Bool(true));
    } else if "false" <= s {
      doc := WordDerives(s, Bool(false));
    } else {
      doc := WordDerives(s, Null);
    }
  }

  lemma {:induction false} EmptyDerives(s: string, close: char) returns (space: string)
    requires s != "" && Starts(Ws(s[1..]), close)
    ensures Blank(space) && s == [s[0]] + (space + [close]) + Ws(s[1..])[1..]
  {
    space := WsSplits(s[1..]);
    var rest := Ws(s[1..]);
    assert rest == [close] + rest[1..];
    assert s == [s[0]] + s[1..];
  }

  lemma {:induction false} ListDerives(s: string) returns (doc: Doc)
    requires s != "" && s[0] == '[' && ParseValue(s).Ok?
    ensures Derives(doc, s, ParseValue(s).value.0, ParseValue(s).value.1)
    decreases |s|, 2
  {
    if Starts(Ws(s[1..]), ']') {
      var space := EmptyDerives(s, ']');
      doc := List(space, []);
    } else {
      var items := ItemsDerive(s[1..], []);
      doc := List("", items);
      assert [] + MeansItems(items) == MeansItems(items);
      Opened('[', SpellItems(items), ParseItems(s[1..], []).value.1, s);
    }
  }

  lemma {:induction false} Opened(open: char, inner: string, rest: string, s: string)
    requires s != "" && s[0] == open && s[1..] == inner + rest
    ensures s == [open] + inner + rest
  {
  }

  lemma {:induction false} ItemDerives(s: string) returns (item: Item)
    requires ParseItem(s).Ok?
    ensures Blank(item.before) && Proper(item.doc) && Blank(item.after)
    ensures Means(item.doc) == ParseItem(s).value.0
    ensures s == item.before + (Spell(item.doc) + (item.after + ParseItem(s).value.1))
    decreases |s|, 4
  {
    var before := WsSplits(s);
    var doc := ValueDerives(Ws(s));
    var after := WsSplits(ParseValue(Ws(s)).value.1);
    item := Item(before, doc, after);
  }

  lemma {:induction false} ItemsDerive(s: string, out: seq<Json>) returns (items: seq<Item>)
    requires ParseItems(s, out).Ok?
    ensures items != [] && ProperItems(items)
    ensures ParseItems(s, out).value.0 == Arr(out + MeansItems(items))
    ensures s == SpellItems(items) + ParseItems(s, out).value.1
    decreases |s|, 5
  {
    var i := ItemDerives(s);
    var tail, rest := ParseItem(s).value.1, ParseItems(s, out).value.1;
    if Starts(tail, ']') {
      items := [i];
      assert items[1..] == [];
      assert [Means(i.doc)] + [] == [Means(i.doc)];
      assert tail == [']'] + rest;
    } else {
      var more := ItemsDerive(tail[1..], out + [Means(i.doc)]);
      items := [i] + more;
      assert items[1..] == more;
      Associate(out, [Means(i.doc)], MeansItems(more));
      Associative([','], SpellItems(more), rest);
      assert tail == [','] + tail[1..];
    }
    ItemsSplit(items, rest);
  }

  lemma {:induction false} RecordDerives(s: string) returns (doc: Doc)
    requires s != "" && s[0] == '{' && ParseValue(s).Ok?
    ensures Derives(doc, s, ParseValue(s).value.0, ParseValue(s).value.1)
    decreases |s|, 2
  {
    if Starts(Ws(s[1..]), '}') {
      var space := EmptyDerives(s, '}');
      doc := Record(space, []);
    } else {
      var members := MembersDerive(s[1..], []);
      doc := Record("", members);
      FreshIsApart(members, []);
      assert [] + MeansMembers(members) == MeansMembers(members);
      Opened('{', SpellMembers(members), ParseFields(s[1..], []).value.1, s);
    }
  }

  ghost predicate ProperMember(m: Member) {
    && Blank(m.before) && ProperString(m.key) && Blank(m.left) && Blank(m.right) && Proper(m.doc) && Blank(m.after)
  }

  lemma {:induction false} KeyDerives(at: string) returns (key: seq<Part>)
    requires at != "" && at[0] == '"' && StringRest(at[1..], "").Ok?
    ensures ProperString(key) && MeansParts(key) == StringRest(at[1..], "").value.0
    ensures at == SpellString(key) + StringRest(at[1..], "").value.1
  {
    key := StringDerives(at[1..], "");
    assert "" + MeansParts(key) == MeansParts(key);
    QuotedSpelled(key, at, StringRest(at[1..], "").value.1);
  }

  lemma {:induction false} MemberDerives(s: string, out: seq<Field>) returns (m: Member)
    requires ParseField(s, out).Ok?
    ensures ProperMember(m) && !HasKey(out, MeansParts(m.key))
    ensures ParseField(s, out).value.0 == Field(MeansParts(m.key), Means(m.doc))
    ensures s == m.before + FromKey(m, ParseField(s, out).value.1)
    decreases |s|, 4
  {
    var at := Ws(s);
    var before := WsSplits(s);
    var key := KeyDerives(at);
    var behind := StringRest(at[1..], "").value.1;
    var left := WsSplits(behind);
    var right, doc, after := ColonDerives(Ws(behind));
    m := Member(before, key, left, right, doc, after);
    assert Ws(behind) == FromColon(m, ParseField(s, out).value.1);
  }

  /** A colon, white space, a value and white space. */
  lemma {:induction false} ColonDerives(s: string) returns (right: string, doc: Doc, after: string)
    requires Starts(s, ':') && ParseValue(Ws(s[1..])).Ok?
    ensures Blank(right) && Proper(doc) && Blank(after)
    ensures var (v, rest) := ParseValue(Ws(s[1..])).value;
            Means(doc) == v && s == [':'] + (right + (Spell(doc) + (after + Ws(rest))))
    decreases |s|, 3
  {
    right := WsSplits(s[1..]);
    doc := ValueDerives(Ws(s[1..]));
    after := WsSplits(ParseValue(Ws(s[1..])).value.1);
    assert s == [':'] + s[1..];
  }

  lemma {:induction false} MembersDerive(s: string, out: seq<Field>) returns (members: seq<Member>)
    requires ParseFields(s, out).Ok?
    ensures members != [] && ProperMembers(members) && Fresh(members, out)
    ensures ParseFields(s, out).value.0 == Obj(out + MeansMembers(members))
    ensures s == SpellMembers(members) + ParseFields(s, out).value.1
    decreases |s|, 5
  {
    var m := MemberDerives(s, out);
    var f := Field(MeansParts(m.key), Means(m.doc));
    var tail, rest := ParseField(s, out).value.1, ParseFields(s, out).value.1;
    if Starts(tail, '}') {
      members := [m];
      assert members[1..] == [];
      assert [f] + [] == [f];
      assert tail == ['}'] + rest;
    } else {
      var more := MembersDerive(tail[1..], out + [f]);
      members := [m] + more;
      assert members[1..] == more;
      Associate(out, [f], MeansMembers(more));
      Associative([','], SpellMembers(more), rest);
      assert tail == [','] + tail[1..];
    }
    MembersSplit(members, rest);
  }

  // ---- The parser and the grammar

  /** `src` is `doc` with white space around it. */
  ghost predicate SpelledBy(src: string, before: string, doc: Doc, after: string) {
    Blank(before) && Proper(doc) && Blank(after) && src == before + (Spell(doc) + after)
  }

  lemma {:induction false} ParsedIsSpelled(src: string) returns (before: string, doc: Doc, after: string)
    requires Parse(src).Ok?
    ensures SpelledBy(src, before, doc, after) && Means(doc) == Parse(src).value
  {
    before := WsSplits(src);
    doc := ValueDerives(Ws(src));
    after := WsSplits(ParseValue(Ws(src)).value.1);
    assert after + "" == after;
  }

  lemma {:induction false} SpelledIsParsed(src: string, before: string, doc: Doc, after: string)
    requires SpelledBy(src, before, doc, after)
    ensures Parse(src) == Ok(Means(doc))
  {
    SpellBegins(doc);
    BlankEnds(before, Spell(doc) + after);
    assert after != "" ==> !IsNumberChar(after[0]);
    DocReads(doc, after);
    BlankSkips(after, "");
    assert after + "" == after;
  }

  /** The parser reads exactly the texts of the grammar, each as what it means: whatever it accepts
      has a syntax tree, and every tree's text is accepted. */
  lemma {:induction false} ParsesExactly(src: string, v: Json)
    ensures Parse(src) == Ok(v)
       <==> exists before, doc, after :: SpelledBy(src, before, doc, after) && Means(doc) == v
  {
    if Parse(src) == Ok(v) {
      var before, doc, after := ParsedIsSpelled(src);
    }
    if before, doc, after :| SpelledBy(src, before, doc, after) && Means(doc) == v {
      SpelledIsParsed(src, before, doc, after);
    }
  }

  /** The grammar is wider than RFC 8259's: a numeral may begin with a zero. */
  lemma {:induction false} BeyondTheStandard()
    ensures Parse("01") == Ok(Num(1))
  {
    var zero := "01";
    assert zero[..1] == "0" && "0"[..0] == "" && Value("0") == 0 && Value(zero) == 1;
    assert Magnitude(zero) == zero;
    assert "" + (zero + "") == zero;
    SpelledIsParsed(zero, "", Numeral(zero), "");
  }
}
