/** The printer, in the layout Xcode gives a string catalogue, and its round trip through the
    parser. */
module JsonPrinter {
  import opened Wrappers
  import opened Digits
  import opened Text
  import opened Json
  import Utf8

  function HexLower(d: nat): char
    requires d < 16
  {
    if d < 10 then DigitChar(d) else ('a' as int + d - 10) as char
  }

  function EscapeChar(c: char): string {
    if c == '"' then "\\\""
    else if c == '\\' then "\\\\"
    else if c == '\n' then "\\n"
    else if c == '\r' then "\\r"
    else if c == '\t' then "\\t"
    else if c < ' ' then "\\u00" + [HexLower(c as int / 16), HexLower(c as int % 16)]
    else [c]
  }

  function Escaped(s: string): string {
    if s == "" then "" else EscapeChar(s[0]) + Escaped(s[1..])
  }

  /** `s` as a JSON string literal. */
  function Quote(s: string): string {
    "\"" + Escaped(s) + "\""
  }

  function Pad(depth: nat): (s: string)
    ensures forall c <- s :: c == ' '
  {
    if depth == 0 then "" else "  " + Pad(depth - 1)
  }

  function IntText(n: int): string {
    if n < 0 then "-" + Decimal(-n) else Decimal(n)
  }

  function PrettyAt(v: Json, depth: nat): string
    decreases v, 1
  {
    match v
    case Null => "null"
    case Bool(b) => if b then "true" else "false"
    case Num(n) => IntText(n)
    case Real(literal) => literal
    case Str(s) => Quote(s)
    case Arr(items) => "[" + ItemsText(items, depth, true)
    case Obj(fields) => "{" + FieldsText(fields, depth, true)
  }

  /** An array from its next item on; a comma stands before every item but the first. */
  function ItemsText(items: seq<Json>, depth: nat, first: bool): string
    decreases items, 0
  {
    if items == [] then "\n" + Pad(depth) + "]"
    else
      (if first then "\n" else ",\n") + Pad(depth + 1) + PrettyAt(items[0], depth + 1)
      + ItemsText(items[1..], depth, false)
  }

  function FieldsText(fields: seq<Field>, depth: nat, first: bool): string
    decreases fields, 0
  {
    if fields == [] then "\n" + Pad(depth) + "}"
    else
      (if first then "\n" else ",\n") + Pad(depth + 1) + Quote(fields[0].key) + " : "
      + PrettyAt(fields[0].value, depth + 1) + FieldsText(fields[1..], depth, false)
  }

  function Pretty(v: Json): string {
    PrettyAt(v, 0) + "\n"
  }

  // ---- The printer itself

  method WriteQuote(s: string) returns (out: string)
    ensures out == Quote(s)
  {
    out := "\"";
    for i := 0 to |s|
      invariant out + Escaped(s[i..]) == "\"" + Escaped(s)
    {
      assert s[i..][0] == s[i] && s[i..][1..] == s[i + 1..];
      Associative(out, EscapeChar(s[i]), Escaped(s[i + 1..]));
      out := out + EscapeChar(s[i]);
    }
    assert out + "" == out;
    out := out + "\"";
  }

  method WritePretty(v: Json, depth: nat, before: string) returns (out: string)
    ensures out == before + PrettyAt(v, depth)
    decreases v, 1
  {
    match v
    case Null =>
      out := before + "null";
    case Bool(b) =>
      out := before + if b then "true" else "false";
    case Num(n) =>
      out := before + IntText(n);
    case Real(literal) =>
      out := before + literal;
    case Str(s) =>
      var q := WriteQuote(s);
      out := before + q;
    case Arr(items) =>
      out := WriteItems(items, depth, before + "[");
      Associative(before, "[", ItemsText(items, depth, true));
    case Obj(fields) =>
      out := WriteFields(fields, depth, before + "{");
      Associative(before, "{", FieldsText(fields, depth, true));
  }

  /** The printer's loop over an array. */
  method WriteItems(items: seq<Json>, depth: nat, before: string) returns (out: string)
    ensures out == before + ItemsText(items, depth, true)
    decreases items, 0
  {
    out := before;
    for i := 0 to |items|
      invariant out + ItemsText(items[i..], depth, i == 0) == before + ItemsText(items, depth, true)
    {
      assert items[i..][0] == items[i] && items[i..][1..] == items[i + 1..];
      ghost var was := out;
      var lead := (if i == 0 then "\n" else ",\n") + Pad(depth + 1);
      out := WritePretty(items[i], depth + 1, out + lead);
      Associative(was, lead, PrettyAt(items[i], depth + 1));
      Associative(was, lead + PrettyAt(items[i], depth + 1), ItemsText(items[i + 1..], depth, false));
    }
    assert items[|items|..] == [];
    out := out + ("\n" + Pad(depth) + "]");
  }

  /** The printer's loop over an object. */
  method WriteFields(fields: seq<Field>, depth: nat, before: string) returns (out: string)
    ensures out == before + FieldsText(fields, depth, true)
    decreases fields, 0
  {
    out := before;
    for i := 0 to |fields|
      invariant out + FieldsText(fields[i..], depth, i == 0) == before + FieldsText(fields, depth, true)
    {
      assert fields[i..][0] == fields[i] && fields[i..][1..] == fields[i + 1..];
      ghost var was := out;
      var key := WriteQuote(fields[i].key);
      var lead := (if i == 0 then "\n" else ",\n") + Pad(depth + 1) + key + " : ";
      out := WritePretty(fields[i].value, depth + 1, out + lead);
      Associative(was, lead, PrettyAt(fields[i].value, depth + 1));
      Associative(was, lead + PrettyAt(fields[i].value, depth + 1), FieldsText(fields[i + 1..], depth, false));
    }
    assert fields[|fields|..] == [];
    out := out + ("\n" + Pad(depth) + "}");
  }

  method PrettyText(v: Json) returns (out: string)
    ensures out == Pretty(v)
  {
    out := WritePretty(v, 0, "");
    out := out + "\n";
  }

  // ---- The round trip

  /** Strings that are text, keys that differ at every level, numbers that are integers. */
  ghost predicate Printable(v: Json) {
    match v
    case Real(_) => false
    case Str(s) => Utf8.Valid(s)
    case Arr(items) => forall i | 0 <= i < |items| :: Printable(items[i])
    case Obj(fields) =>
      && (forall i | 0 <= i < |fields| :: Utf8.Valid(fields[i].key) && Printable(fields[i].value))
      && forall i, j | 0 <= i < j < |fields| :: fields[i].key != fields[j].key
    case _ => true
  }

  lemma {:induction false} HexOfControl(c: char)
    requires c < ' '
    ensures var h := ['0', '0', HexLower(c as int / 16), HexLower(c as int % 16)];
            (forall x <- h :: IsHex(x)) && HexValue(h) == c as int
  {
    var a, b := HexLower(c as int / 16), HexLower(c as int % 16);
    var h := ['0', '0', a, b];
    assert h[..3] == ['0', '0', a] && ['0', '0', a][..2] == ['0', '0'] && ['0', '0'][..1] == ['0'] && ['0'][..0] == [];
    assert HexValue(['0']) == 0 && HexValue(['0', '0']) == 0 && HexValue(['0', '0', a]) == c as int / 16;
  }

  /** One escaped character is read back. */
  lemma {:induction false} ReadsChar(c: char, rest: string, out: string)
    ensures StringRest(EscapeChar(c) + rest, out) == StringRest(rest, out + [c])
  {
    var e := EscapeChar(c);
    var s := e + rest;
    assert s[|e|..] == rest;
    if c < ' ' && c !in ['\n', '\r', '\t'] {
      var h := ['0', '0', HexLower(c as int / 16), HexLower(c as int % 16)];
      HexOfControl(c);
      assert e == ['\\', 'u'] + h;
      assert s[2..] == h + rest && (h + rest)[..4] == h && (h + rest)[4..] == rest;
      assert Hex4(s[2..]) == Ok((c as int, rest));
      assert Utf8.Encode(c as int) == [c];
    }
  }

  lemma {:induction false} ReadsEscaped(t: string, rest: string, out: string)
    ensures StringRest(Escaped(t) + rest, out) == StringRest(rest, out + t)
  {
    if t == "" {
      assert Escaped(t) + rest == rest && out + t == out;
    } else {
      Associative(EscapeChar(t[0]), Escaped(t[1..]), rest);
      ReadsChar(t[0], Escaped(t[1..]) + rest, out);
      ReadsEscaped(t[1..], rest, out + [t[0]]);
      OneMore(out, t);
    }
  }

  lemma {:induction false} ReadsString(t: string, rest: string)
    requires Utf8.Valid(t)
    ensures StringRest(Escaped(t) + "\"" + rest, "") == Ok((t, rest))
  {
    Associative(Escaped(t), "\"", rest);
    ReadsEscaped(t, "\"" + rest, "");
    assert "" + t == t;
  }

  lemma {:induction false} IntTextIs(n: int)
    ensures NumberOf(IntText(n)) == Ok(Num(n))
    ensures forall c <- IntText(n) :: IsNumberChar(c)
    ensures IntText(n)[0] == '-' || IsDigit(IntText(n)[0])
  {
    var digits := Decimal(if n < 0 then -n else n);
    ValueOfDecimal(if n < 0 then -n else n);
    DigitRunOf(digits, "");
    assert digits + "" == digits && digits[0] in digits;
    assert Unsigned(IntText(n)) == digits;
  }

  lemma {:induction false} NumReads(n: int, rest: string)
    requires rest != "" ==> !IsNumberChar(rest[0])
    ensures ParseValue(IntText(n) + rest) == Ok((Num(n), rest))
  {
    var text := IntText(n);
    IntTextIs(n);
    NumberRunOf(text, rest);
    NumberAt(text, rest, Num(n));
  }

  lemma {:induction false} StrReads(t: string, rest: string)
    requires Utf8.Valid(t)
    ensures ParseValue(Quote(t) + rest) == Ok((Str(t), rest))
  {
    ReadsString(t, rest);
    assert Quote(t) + rest == ['"'] + (Escaped(t) + "\"" + rest);
    assert (['"'] + (Escaped(t) + "\"" + rest))[1..] == Escaped(t) + "\"" + rest;
  }

  lemma {:induction false} LiteralReads(v: Json, rest: string)
    requires v.Null? || v.Bool?
    ensures ParseValue(PrettyAt(v, 0) + rest) == Ok((v, rest))
  {
    var text := PrettyAt(v, 0);
    assert (text + rest)[|text|..] == rest;
    assert text <= text + rest;
    assert (text + rest)[0] == text[0];
  }

  /** The first character of a printed value. */
  lemma {:induction false} PrettyBegins(v: Json, depth: nat)
    requires Printable(v)
    ensures PrettyAt(v, depth) != "" && !IsWs(PrettyAt(v, depth)[0])
    ensures PrettyAt(v, depth)[0] !in [']', '}']
  {
    if v.Num? {
      IntTextIs(v.n);
    }
  }

  lemma {:induction false} PadIsWs(depth: nat)
    ensures forall c <- "\n" + Pad(depth) :: IsWs(c)
  {
    var pad := Pad(depth);
    assert forall c <- "\n" + pad :: c == '\n' || c in pad;
  }

  /** A line break and its indent are skipped. */
  lemma {:induction false} IndentSkips(depth: nat, rest: string)
    requires rest != "" && !IsWs(rest[0])
    ensures Ws("\n" + Pad(depth) + rest) == rest
  {
    PadIsWs(depth);
    WsSkips("\n" + Pad(depth), rest);
  }

  lemma {:induction false} ItemReads(v: Json, depth: nat, after: string)
    requires Printable(v)
    requires ParseValue(PrettyAt(v, depth) + after) == Ok((v, after))
    ensures ParseItem("\n" + Pad(depth) + PrettyAt(v, depth) + after) == Ok((v, Ws(after)))
  {
    PrettyBegins(v, depth);
    Associative("\n" + Pad(depth), PrettyAt(v, depth), after);
    IndentSkips(depth, PrettyAt(v, depth) + after);
  }

  /** What stands behind an item or a field: a comma, or a line break and the closing sign. */
  lemma {:induction false} ClosingSkips(depth: nat, close: char, rest: string)
    requires !IsWs(close)
    ensures Ws("\n" + Pad(depth) + [close] + rest) == [close] + rest
    ensures ([close] + rest)[1..] == rest
  {
    Associative("\n" + Pad(depth), [close], rest);
    IndentSkips(depth, [close] + rest);
  }

  function ItemsBody(items: seq<Json>, depth: nat): string
    requires items != []
  {
    "\n" + Pad(depth + 1) + PrettyAt(items[0], depth + 1) + ItemsText(items[1..], depth, false)
  }

  lemma {:induction false} ItemsSplit(items: seq<Json>, depth: nat, rest: string)
    requires items != []
    ensures ItemsText(items, depth, true) + rest == ItemsBody(items, depth) + rest
    ensures ItemsText(items, depth, false) + rest == [','] + (ItemsBody(items, depth) + rest)
    ensures ItemsBody(items, depth) + rest
         == "\n" + Pad(depth + 1) + PrettyAt(items[0], depth + 1) + (ItemsText(items[1..], depth, false) + rest)
  {
    var lead, tail := "\n" + Pad(depth + 1) + PrettyAt(items[0], depth + 1), ItemsText(items[1..], depth, false);
    Associative(lead, tail, rest);
    assert ",\n" + Pad(depth + 1) + PrettyAt(items[0], depth + 1) == [','] + lead;
    Associative([','], lead, tail);
    Associative([','], lead + tail, rest);
  }

  lemma {:induction false} LastItem(s: string, out: seq<Json>, v: Json, rest: string)
    requires ParseItem(s) == Ok((v, [']'] + rest))
    ensures ParseItems(s, out) == Ok((Arr(out + [v]), rest))
  {
    assert ([']'] + rest)[1..] == rest;
  }

  lemma {:induction false} NextItem(s: string, out: seq<Json>, v: Json, rest: string)
    requires ParseItem(s) == Ok((v, [','] + rest))
    ensures ParseItems(s, out) == ParseItems(rest, out + [v])
  {
    assert ([','] + rest)[1..] == rest;
  }

  lemma {:induction false} FirstItem(items: seq<Json>, depth: nat, rest: string)
    requires items != [] && Printable(items[0])
    requires var after := ItemsText(items[1..], depth, false) + rest;
             ParseValue(PrettyAt(items[0], depth + 1) + after) == Ok((items[0], after))
    ensures ParseItem(ItemsBody(items, depth) + rest)
         == Ok((items[0], if items[1..] == [] then [']'] + rest else [','] + (ItemsBody(items[1..], depth) + rest)))
  {
    ItemsSplit(items, depth, rest);
    ItemsTail(items[1..], depth, rest);
    ItemReads(items[0], depth + 1, ItemsText(items[1..], depth, false) + rest);
  }

  /** Each item can be read. */
  ghost predicate ReadableItems(items: seq<Json>)
    decreases |items|
  {
    items != [] ==> Printable(items[0]) && ReadableItems(items[1..])
  }

  lemma {:induction false} PrintableItems(items: seq<Json>)
    requires Printable(Arr(items))
    ensures ReadableItems(items)
    decreases |items|
  {
    if items != [] {
      PrintableItems(items[1..]);
    }
  }

  lemma {:induction false} ItemStep(items: seq<Json>, depth: nat, rest: string, out: seq<Json>)
    requires items != [] && Printable(items[0])
    requires var after := ItemsText(items[1..], depth, false) + rest;
             ParseValue(PrettyAt(items[0], depth + 1) + after) == Ok((items[0], after))
    ensures ParseItems(ItemsBody(items, depth) + rest, out)
         == if items[1..] == [] then Ok((Arr(out + [items[0]]), rest))
            else ParseItems(ItemsBody(items[1..], depth) + rest, out + [items[0]])
  {
    FirstItem(items, depth, rest);
    if items[1..] == [] {
      LastItem(ItemsBody(items, depth) + rest, out, items[0], rest);
    } else {
      NextItem(ItemsBody(items, depth) + rest, out, items[0], ItemsBody(items[1..], depth) + rest);
    }
  }

  /** An array's items, and what stands behind the bracket. */
  lemma {:induction false} ItemsRead(items: seq<Json>, depth: nat, rest: string, out: seq<Json>)
    requires items != [] && ReadableItems(items)
    ensures ParseItems(ItemsBody(items, depth) + rest, out) == Ok((Arr(out + items), rest))
    decreases items, 0
  {
    ItemsTail(items[1..], depth, rest);
    ValueReads(items[0], depth + 1, ItemsText(items[1..], depth, false) + rest);
    ItemStep(items, depth, rest, out);
    OneMore(out, items);
    if items[1..] != [] {
      ItemsRead(items[1..], depth, rest, out + [items[0]]);
    }
  }

  lemma {:induction false} ItemsTail(items: seq<Json>, depth: nat, rest: string)
    ensures var after := ItemsText(items, depth, false) + rest;
            && after != "" && !IsNumberChar(after[0])
            && Ws(after) == if items == [] then [']'] + rest else [','] + (ItemsBody(items, depth) + rest)
  {
    if items == [] {
      ClosingSkips(depth, ']', rest);
    } else {
      ItemsSplit(items, depth, rest);
    }
  }

  /** A field on a line of its own, up to the comma or the brace. */
  function FieldLine(f: Field, depth: nat): string {
    "\n" + Pad(depth) + Quote(f.key) + " : " + PrettyAt(f.value, depth)
  }

  function FieldsBody(fields: seq<Field>, depth: nat): string
    requires fields != []
  {
    FieldLine(fields[0], depth + 1) + FieldsText(fields[1..], depth, false)
  }

  /** A separator in front of five texts. */
  lemma {:induction false} CommaBefore(a: string, b: string, c: string, d: string, e: string)
    ensures ",\n" + a + b + c + d + e == [','] + ("\n" + a + b + c + d + e)
  {
    Associative([','], "\n", a);
    Associative([','], "\n" + a, b);
    Associative([','], "\n" + a + b, c);
    Associative([','], "\n" + a + b + c, d);
    Associative([','], "\n" + a + b + c + d, e);
  }

  lemma {:induction false} CommaLine(f: Field, depth: nat, tail: string)
    ensures ",\n" + Pad(depth) + Quote(f.key) + " : " + PrettyAt(f.value, depth) + tail
         == [','] + (FieldLine(f, depth) + tail)
  {
    CommaBefore(Pad(depth), Quote(f.key), " : ", PrettyAt(f.value, depth), tail);
  }

  lemma {:induction false} FieldsSplit(fields: seq<Field>, depth: nat, rest: string)
    requires fields != []
    ensures FieldsText(fields, depth, true) + rest == FieldsBody(fields, depth) + rest
    ensures FieldsText(fields, depth, false) + rest == [','] + (FieldsBody(fields, depth) + rest)
    ensures FieldsBody(fields, depth) + rest
         == FieldLine(fields[0], depth + 1) + (FieldsText(fields[1..], depth, false) + rest)
  {
    var tail := FieldsText(fields[1..], depth, false);
    Associative(FieldLine(fields[0], depth + 1), tail, rest);
    CommaLine(fields[0], depth + 1, tail);
    Associative([','], FieldsBody(fields, depth), rest);
  }

  lemma {:induction false} FieldText(f: Field, depth: nat, after: string)
    ensures FieldLine(f, depth) + after
         == "\n" + Pad(depth) + (['"'] + (Escaped(f.key) + "\"" + (" : " + (PrettyAt(f.value, depth) + after))))
  {
    var indent, q, value := "\n" + Pad(depth), Quote(f.key), PrettyAt(f.value, depth);
    Associative(indent + q + " : ", value, after);
    Associative(indent + q, " : ", value + after);
    Associative(indent, q, " : " + (value + after));
    assert q == ['"'] + (Escaped(f.key) + "\"");
    Associative(['"'], Escaped(f.key) + "\"", " : " + (value + after));
  }

  lemma {:induction false} FieldReads(f: Field, depth: nat, after: string, out: seq<Field>)
    requires Utf8.Valid(f.key) && Printable(f.value) && !HasKey(out, f.key)
    requires ParseValue(PrettyAt(f.value, depth) + after) == Ok((f.value, after))
    ensures ParseField(FieldLine(f, depth) + after, out) == Ok((f, Ws(after)))
  {
    var value := PrettyAt(f.value, depth) + after;
    var behind := " : " + value;
    var at := ['"'] + (Escaped(f.key) + "\"" + behind);
    FieldText(f, depth, after);
    IndentSkips(depth, at);
    PrettyBegins(f.value, depth);
    FieldAtReads(f, value, after, out);
  }

  lemma {:induction false} FieldAtReads(f: Field, value: string, after: string, out: seq<Field>)
    requires Utf8.Valid(f.key) && !HasKey(out, f.key) && (value != "" ==> !IsWs(value[0]))
    requires ParseValue(value) == Ok((f.value, after))
    ensures ParseFieldAt(['"'] + (Escaped(f.key) + "\"" + (" : " + value)), out) == Ok((f, Ws(after)))
  {
    KeyReads(f.key, " : " + value);
    ColonReads(value);
  }

  lemma {:induction false} KeyReads(key: string, behind: string)
    requires Utf8.Valid(key)
    ensures var at := ['"'] + (Escaped(key) + "\"" + behind);
            StringRest(at[1..], "") == Ok((key, behind))
  {
    var at := ['"'] + (Escaped(key) + "\"" + behind);
    assert at[1..] == Escaped(key) + "\"" + behind;
    ReadsString(key, behind);
  }

  lemma {:induction false} ColonReads(value: string)
    requires value != "" ==> !IsWs(value[0])
    ensures Ws(" : " + value) == ": " + value
    ensures Ws((": " + value)[1..]) == value
  {
    WsSkips(" ", ": " + value);
    assert " : " + value == " " + (": " + value);
    assert (": " + value)[1..] == " " + value;
    WsSkips(" ", value);
  }

  lemma {:induction false} FieldsTail(fields: seq<Field>, depth: nat, rest: string)
    ensures var after := FieldsText(fields, depth, false) + rest;
            && after != "" && !IsNumberChar(after[0])
            && Ws(after) == if fields == [] then ['}'] + rest else [','] + (FieldsBody(fields, depth) + rest)
  {
    if fields == [] {
      ClosingSkips(depth, '}', rest);
    } else {
      FieldsSplit(fields, depth, rest);
    }
  }

  lemma {:induction false} LastField(s: string, out: seq<Field>, f: Field, rest: string)
    requires ParseField(s, out) == Ok((f, ['}'] + rest))
    ensures ParseFields(s, out) == Ok((Obj(out + [f]), rest))
  {
    assert (['}'] + rest)[1..] == rest;
  }

  lemma {:induction false} NextField(s: string, out: seq<Field>, f: Field, rest: string)
    requires ParseField(s, out) == Ok((f, [','] + rest))
    ensures ParseFields(s, out) == ParseFields(rest, out + [f])
  {
    assert ([','] + rest)[1..] == rest;
  }

  lemma {:induction false} FirstField(fields: seq<Field>, depth: nat, rest: string, out: seq<Field>)
    requires fields != [] && Utf8.Valid(fields[0].key) && Printable(fields[0].value) && !HasKey(out, fields[0].key)
    requires var after := FieldsText(fields[1..], depth, false) + rest;
             ParseValue(PrettyAt(fields[0].value, depth + 1) + after) == Ok((fields[0].value, after))
    ensures ParseField(FieldsBody(fields, depth) + rest, out)
         == Ok((fields[0], if fields[1..] == [] then ['}'] + rest else [','] + (FieldsBody(fields[1..], depth) + rest)))
  {
    FieldsSplit(fields, depth, rest);
    FieldsTail(fields[1..], depth, rest);
    FieldReads(fields[0], depth + 1, FieldsText(fields[1..], depth, false) + rest, out);
  }

  /** Each field can be read after those before it. */
  ghost predicate Readable(fields: seq<Field>, out: seq<Field>)
    decreases |fields|
  {
    fields != [] ==>
      && Utf8.Valid(fields[0].key) && Printable(fields[0].value) && !HasKey(out, fields[0].key)
      && Readable(fields[1..], out + [fields[0]])
  }

  lemma {:induction false} PrintableIsReadable(fields: seq<Field>, out: seq<Field>)
    requires Printable(Obj(fields))
    requires forall i | 0 <= i < |fields| :: !HasKey(out, fields[i].key)
    ensures Readable(fields, out)
    decreases |fields|
  {
    if fields != [] {
      PrintableIsReadable(fields[1..], out + [fields[0]]);
    }
  }

  lemma {:induction false} FieldStep(fields: seq<Field>, depth: nat, rest: string, out: seq<Field>)
    requires fields != [] && Utf8.Valid(fields[0].key) && Printable(fields[0].value) && !HasKey(out, fields[0].key)
    requires var after := FieldsText(fields[1..], depth, false) + rest;
             ParseValue(PrettyAt(fields[0].value, depth + 1) + after) == Ok((fields[0].value, after))
    ensures ParseFields(FieldsBody(fields, depth) + rest, out)
         == if fields[1..] == [] then Ok((Obj(out + [fields[0]]), rest))
            else ParseFields(FieldsBody(fields[1..], depth) + rest, out + [fields[0]])
  {
    FirstField(fields, depth, rest, out);
    if fields[1..] == [] {
      LastField(FieldsBody(fields, depth) + rest, out, fields[0], rest);
    } else {
      NextField(FieldsBody(fields, depth) + rest, out, fields[0], FieldsBody(fields[1..], depth) + rest);
    }
  }

  /** An object's fields, and what stands behind the brace. */
  lemma {:induction false} FieldsRead(fields: seq<Field>, depth: nat, rest: string, out: seq<Field>)
    requires fields != [] && Readable(fields, out)
    ensures ParseFields(FieldsBody(fields, depth) + rest, out) == Ok((Obj(out + fields), rest))
    decreases fields, 0
  {
    FieldsTail(fields[1..], depth, rest);
    ValueReads(fields[0].value, depth + 1, FieldsText(fields[1..], depth, false) + rest);
    FieldStep(fields, depth, rest, out);
    OneMore(out, fields);
    if fields[1..] != [] {
      FieldsRead(fields[1..], depth, rest, out + [fields[0]]);
    }
  }

  /** A printed value, and what stands behind it. */
  lemma {:induction false} ValueReads(v: Json, depth: nat, rest: string)
    requires Printable(v) && (rest != "" ==> !IsNumberChar(rest[0]))
    ensures ParseValue(PrettyAt(v, depth) + rest) == Ok((v, rest))
    decreases v, 1
  {
    match v
    case Num(n) =>
      NumReads(n, rest);
    case Str(t) =>
      StrReads(t, rest);
    case Arr(items) =>
      ArrReads(items, depth, rest);
    case Obj(fields) =>
      ObjReads(fields, depth, rest);
    case _ =>
      LiteralReads(v, rest);
  }

  lemma {:induction false} ItemsBegin(items: seq<Json>, depth: nat, rest: string)
    requires items != [] && Printable(items[0])
    ensures ItemsText(items, depth, true) + rest == ItemsBody(items, depth) + rest
    ensures var at := Ws(ItemsBody(items, depth) + rest); at != "" && at[0] != ']'
  {
    ItemsSplit(items, depth, rest);
    var after := ItemsText(items[1..], depth, false) + rest;
    PrettyBegins(items[0], depth + 1);
    IndentSkips(depth + 1, PrettyAt(items[0], depth + 1) + after);
    Associative("\n" + Pad(depth + 1), PrettyAt(items[0], depth + 1), after);
  }

  lemma {:induction false} ArrOpens(inner: string)
    requires !Starts(Ws(inner), ']')
    ensures ParseValue(['['] + inner) == ParseItems(inner, [])
  {
    assert (['['] + inner)[1..] == inner;
  }

  lemma {:induction false} ArrReads(items: seq<Json>, depth: nat, rest: string)
    requires Printable(Arr(items))
    ensures ParseValue(PrettyAt(Arr(items), depth) + rest) == Ok((Arr(items), rest))
    decreases items, 1
  {
    var inner := ItemsText(items, depth, true) + rest;
    assert PrettyAt(Arr(items), depth) + rest == ['['] + inner;
    if items == [] {
      assert (['['] + inner)[1..] == inner;
      ClosingSkips(depth, ']', rest);
    } else {
      ItemsBegin(items, depth, rest);
      ArrOpens(inner);
      PrintableItems(items);
      ItemsRead(items, depth, rest, []);
      assert [] + items == items;
    }
  }

  lemma {:induction false} ObjOpens(inner: string)
    requires !Starts(Ws(inner), '}')
    ensures ParseValue("{" + inner) == ParseFields(inner, [])
  {
    assert ("{" + inner)[1..] == inner;
  }

  lemma {:induction false} NoFieldsRead(depth: nat, rest: string)
    ensures ParseValue("{" + (FieldsText([], depth, true) + rest)) == Ok((Obj([]), rest))
  {
    var inner := FieldsText([], depth, true) + rest;
    assert ("{" + inner)[1..] == inner;
    ClosingSkips(depth, '}', rest);
  }

  lemma {:induction false} ObjReads(fields: seq<Field>, depth: nat, rest: string)
    requires Printable(Obj(fields))
    ensures ParseValue(PrettyAt(Obj(fields), depth) + rest) == Ok((Obj(fields), rest))
    decreases fields, 1
  {
    Associative("{", FieldsText(fields, depth, true), rest);
    if fields == [] {
      NoFieldsRead(depth, rest);
    } else {
      FieldsBegin(fields, depth, rest);
      ObjOpens(FieldsBody(fields, depth) + rest);
      PrintableIsReadable(fields, []);
      FieldsRead(fields, depth, rest, []);
      assert [] + fields == fields;
    }
  }

  lemma {:induction false} FieldsBegin(fields: seq<Field>, depth: nat, rest: string)
    requires fields != []
    ensures FieldsText(fields, depth, true) + rest == FieldsBody(fields, depth) + rest
    ensures var at := Ws(FieldsBody(fields, depth) + rest); at != "" && at[0] == '"'
  {
    FieldsSplit(fields, depth, rest);
    var value := PrettyAt(fields[0].value, depth + 1) + (FieldsText(fields[1..], depth, false) + rest);
    FieldText(fields[0], depth + 1, FieldsText(fields[1..], depth, false) + rest);
    IndentSkips(depth + 1, ['"'] + (Escaped(fields[0].key) + "\"" + (" : " + value)));
  }

  /** The printer and the parser undo each other: every printable value is read back whole. */
  lemma {:induction false} ParseUndoesPretty(v: Json)
    requires Printable(v)
    ensures Parse(Pretty(v)) == Ok(v)
  {
    PrettyBegins(v, 0);
    assert Ws(Pretty(v)) == Pretty(v);
    ValueReads(v, 0, "\n");
    assert "\n"[1..] == "";
  }

  /** A quote and a backslash behind a backslash, three control characters by their letters, the others
      by four small hexadecimal digits, and every other character as it is. */
  lemma {:induction false} EscapeCharIs(c: char)
    ensures if c == '"' || c == '\\' then EscapeChar(c) == ['\\', c]
            else if c == '\n' then EscapeChar(c) == ['\\', 'n']
            else if c == '\r' then EscapeChar(c) == ['\\', 'r']
            else if c == '\t' then EscapeChar(c) == ['\\', 't']
            else if c < ' ' then
              exists a, b :: EscapeChar(c) == ['\\', 'u', '0', '0', a, b]
                && ('0' <= a <= '1') && ('0' <= b <= '9' || 'a' <= b <= 'f')
                && HexValue(['0', '0', a, b]) == c as int
            else EscapeChar(c) == [c]
  {
    if c < ' ' {
      HexOfControl(c);
      var a, b := HexLower(c as int / 16), HexLower(c as int % 16);
      assert c !in {'\n', '\r', '\t'} ==> EscapeChar(c) == ['\\', 'u', '0', '0', a, b];
    }
  }

  // ---- The layout

  function Spaces(n: nat): string {
    seq(n, _ => ' ')
  }

  lemma {:induction false} PadIs(depth: nat)
    ensures Pad(depth) == Spaces(2 * depth)
  {
    if depth > 0 {
      PadIs(depth - 1);
    }
  }

  /** Items stand each on a line of its own, two spaces in, with a comma behind all but the last, and
      the closing bracket on its own. */
  lemma {:induction false} ListLayout(depth: nat)
    ensures PrettyAt(Arr([Null, Null]), depth)
         == "[" + ("\n" + Spaces(2 * depth + 2) + "null"
                   + (",\n" + Spaces(2 * depth + 2) + "null" + ("\n" + Spaces(2 * depth) + "]")))
  {
    PadIs(depth);
    PadIs(depth + 1);
    assert [Null, Null][1..] == [Null] && [Null][1..] == [];
  }

  /** So do fields, with a space on either side of the colon, as Xcode writes them. */
  lemma {:induction false} FieldLayout(key: string, other: string, depth: nat)
    ensures PrettyAt(Obj([Field(key, Null), Field(other, Null)]), depth)
         == "{" + ("\n" + Spaces(2 * depth + 2) + Quote(key) + " : " + "null"
                   + (",\n" + Spaces(2 * depth + 2) + Quote(other) + " : " + "null"
                      + ("\n" + Spaces(2 * depth) + "}")))
  {
    PadIs(depth);
    PadIs(depth + 1);
    var f, g := Field(key, Null), Field(other, Null);
    assert [f, g][1..] == [g] && [g][1..] == [];
    assert FieldsText([], depth, false) == "\n" + Pad(depth) + "}";
    assert FieldsText([g], depth, false)
        == ",\n" + Pad(depth + 1) + Quote(other) + " : " + "null" + FieldsText([], depth, false);
    assert FieldsText([f, g], depth, true)
        == "\n" + Pad(depth + 1) + Quote(key) + " : " + "null" + FieldsText([g], depth, false);
  }
}
