/** The Android back end: string resources, and what Android makes of them. */
module Android {
  import opened Wrappers
  import opened Text
  import opened Digits
  import opened Plural
  import opened Messages

  // ---- Writing a resource

  /** A character of text, or the specifier of argument `n`: `%N$d` for the count. */
  datatype Atom = Char(c: char) | Spec(n: nat, isCount: bool)

  function TextAtoms(t: string): seq<Atom> {
    seq(|t|, i requires 0 <= i < |t| => Char(t[i]))
  }

  function Atoms(ix: seq<Ix>, count: Option<nat>): seq<Atom> {
    if ix == [] then []
    else
      (match ix[0]
       case IxText(t) => TextAtoms(t)
       case IxArg(n) => [Spec(n, count == Some(n))])
      + Atoms(ix[1..], count)
  }

  function SpecText(n: nat, isCount: bool): string {
    "%" + Decimal(n + 1) + (if isCount then "$d" else "$s")
  }

  /** A space Android would trim or collapse: at either end, or behind another. */
  predicate EdgeSpace(atoms: seq<Atom>, i: nat)
    requires i < |atoms|
  {
    i == 0 || i + 1 == |atoms| || atoms[i - 1] == Char(' ')
  }

  function EscapeAt(atoms: seq<Atom>, i: nat, formatted: bool): string
    requires i < |atoms|
  {
    match atoms[i]
    case Spec(n, d) => SpecText(n, d)
    case Char(c) =>
      if c == '\\' then "\\\\"
      else if c == '\'' then "\\'"
      else if c == '"' then "\\\""
      else if c == '\n' then "\\n"
      else if c == '\t' then "\\t"
      else if c == '&' then "&amp;"
      else if c == '<' then "&lt;"
      else if c == '>' then "&gt;"
      else if c == '%' && formatted then "%%"
      else if (c == '@' || c == '?') && i == 0 then ['\\', c]
      else if c == ' ' && EdgeSpace(atoms, i) then "\\u0020"
      else [c]
  }

  /** The parts from the `i`th on, one behind the other. */
  function Flat<T>(parts: seq<seq<T>>, i: nat): seq<T>
    requires i <= |parts|
    decreases |parts| - i
  {
    if i == |parts| then [] else parts[i] + Flat(parts, i + 1)
  }

  function Escapes(atoms: seq<Atom>, formatted: bool): seq<string> {
    seq(|atoms|, i requires 0 <= i < |atoms| => EscapeAt(atoms, i, formatted))
  }

  function EscapeFrom(atoms: seq<Atom>, i: nat, formatted: bool): string
    requires i <= |atoms|
  {
    Flat(Escapes(atoms, formatted), i)
  }

  /** One string resource's text. */
  function ResourceText(ix: seq<Ix>, count: Option<nat>, formatted: bool): string {
    EscapeFrom(Atoms(ix, count), 0, formatted)
  }

  /** One atom as the source writes it. */
  method WriteAtom(atoms: seq<Atom>, i: nat, formatted: bool) returns (out: string)
    requires i < |atoms|
    ensures out == EscapeAt(atoms, i, formatted)
  {
    match atoms[i] {
      case Spec(n, d) =>
        out := SpecText(n, d);
      case Char(c) =>
        var edge := i == 0 || i + 1 == |atoms| || atoms[i - 1] == Char(' ');
        if c == '\\' {
          out := "\\\\";
        } else if c == '\'' {
          out := "\\'";
        } else if c == '"' {
          out := "\\\"";
        } else if c == '\n' {
          out := "\\n";
        } else if c == '\t' {
          out := "\\t";
        } else if c == '&' {
          out := "&amp;";
        } else if c == '<' {
          out := "&lt;";
        } else if c == '>' {
          out := "&gt;";
        } else if c == '%' && formatted {
          out := "%%";
        } else if (c == '@' || c == '?') && i == 0 {
          out := ['\\', c];
        } else if c == ' ' && edge {
          out := "\\u0020";
        } else {
          out := [c];
        }
    }
  }

  lemma {:induction false} FlatStep(out: string, parts: seq<string>, i: nat)
    requires i < |parts|
    ensures out + parts[i] + Flat(parts, i + 1) == out + Flat(parts, i)
  {
    Joined(out, parts[i], Flat(parts, i + 1));
  }

  /** The source's loop over the atoms. */
  method WriteText(ix: seq<Ix>, count: Option<nat>, formatted: bool) returns (out: string)
    ensures out == ResourceText(ix, count, formatted)
  {
    var atoms := Atoms(ix, count);
    ghost var parts := Escapes(atoms, formatted);
    out := "";
    for i := 0 to |atoms|
      invariant out + Flat(parts, i) == Flat(parts, 0)
    {
      var piece := WriteAtom(atoms, i, formatted);
      assert piece == parts[i];
      FlatStep(out, parts, i);
      out := out + piece;
    }
    assert out + "" == out;
  }

  lemma {:induction false} Joined(a: string, b: string, c: string)
    ensures (a + b) + c == a + (b + c)
  {
  }

  // ---- What Android reads

  /** A character kept as it is, or white space that collapses. */
  datatype Token = Lit(c: char) | Space

  /** XML entities and Android's escapes undone. `None` is a resource that does not compile: an
      unknown escape or entity, a bare quote, markup, a character XML 1.0 does not allow. */
  function Tokens(s: string): Option<seq<Token>>
    decreases |s|
  {
    if s == "" then Some([])
    else if s[0] == '\\' then
      if |s| < 2 then None
      else if s[1] in ['\\', '\'', '"', '@', '?'] then Then(Lit(s[1]), Tokens(s[2..]))
      else if s[1] == 'n' then Then(Lit('\n'), Tokens(s[2..]))
      else if s[1] == 't' then Then(Lit('\t'), Tokens(s[2..]))
      else if s[1] == 'u' && |s| >= 6 && (forall c <- s[2..6] :: IsHex(c)) && 0x20 <= HexValue(s[2..6]) < 0x80 then
        Then(Lit(HexValue(s[2..6]) as char), Tokens(s[6..]))
      else None
    else if s[0] == '&' then
      if "&amp;" <= s then Then(Lit('&'), Tokens(s[5..]))
      else if "&lt;" <= s then Then(Lit('<'), Tokens(s[4..]))
      else if "&gt;" <= s then Then(Lit('>'), Tokens(s[4..]))
      else None
    else if s[0] in ['<', '"', '\''] then None
    else if s[0] in [' ', '\n', '\t', '\r'] then Then(Space, Tokens(s[1..]))
    else if s[0] < ' ' then None
    else Then(Lit(s[0]), Tokens(s[1..]))
  }

  function Then(t: Token, rest: Option<seq<Token>>): Option<seq<Token>> {
    match rest
    case None => None
    case Some(ts) => Some([t] + ts)
  }

  /** White space at either end dropped, a run of it one space. `gap` is a run just passed,
      `started` whether anything stands before it. */
  function Collapse(ts: seq<Token>, gap: bool, started: bool): string {
    if ts == [] then ""
    else
      match ts[0]
      case Space => Collapse(ts[1..], true, started)
      case Lit(c) => (if gap && started then " " else "") + [c] + Collapse(ts[1..], false, true)
  }

  /** The string a resource holds. Text that begins with `@` or `?` is a reference instead. */
  function ReadResource(s: string): Option<string> {
    if s != "" && (s[0] == '@' || s[0] == '?') then None
    else
      match Tokens(s)
      case None => None
      case Some(ts) => Some(Collapse(ts, false, false))
  }

  /** A format string's atoms: `%%`, and `%N$s` or `%N$d` with N from 1. */
  function ParseFormat(s: string): Option<seq<Atom>>
    decreases |s|
  {
    if s == "" then Some([])
    else if s[0] != '%' then Consed(Char(s[0]), ParseFormat(s[1..]))
    else if |s| > 1 && s[1] == '%' then Consed(Char('%'), ParseFormat(s[2..]))
    else
      var run := DigitRun(s[1..]);
      var rest := s[1 + run..];
      if run == 0 || |rest| < 2 || rest[0] != '$' || rest[1] !in ['s', 'd'] || SpecNumber(s[1..], run) == 0 then None
      else Consed(Spec(SpecNumber(s[1..], run) - 1, rest[1] == 'd'), ParseFormat(rest[2..]))
  }

  function SpecNumber(s: string, run: nat): nat
    requires run <= |s| && forall k :: 0 <= k < run ==> IsDigit(s[k])
  {
    Value(s[..run])
  }

  function Consed(a: Atom, rest: Option<seq<Atom>>): Option<seq<Atom>> {
    match rest
    case None => None
    case Some(atoms) => Some([a] + atoms)
  }

  function FillAtoms(atoms: seq<Atom>, args: seq<string>): Option<string> {
    if atoms == [] then Some("")
    else
      match FillAtoms(atoms[1..], args)
      case None => None
      case Some(rest) =>
        match atoms[0]
        case Char(c) => Some([c] + rest)
        case Spec(n, _) => if n < |args| then Some(args[n] + rest) else None
  }

  /** `String.format` over arguments already in text form. */
  function JavaFormat(s: string, args: seq<string>): Option<string> {
    match ParseFormat(s)
    case None => None
    case Some(atoms) => FillAtoms(atoms, args)
  }

  // ---- Reading undoes writing

  function Raws(atoms: seq<Atom>, formatted: bool): seq<string> {
    seq(|atoms|, i requires 0 <= i < |atoms| => AtomRaw(atoms[i], formatted))
  }

  /** The string the resource stands for, before any formatter. */
  function Raw(atoms: seq<Atom>, i: nat, formatted: bool): string
    requires i <= |atoms|
  {
    Flat(Raws(atoms, formatted), i)
  }

  /** A character XML carries: the escapes cover the line feed and the tab, nothing covers the
      carriage return, and no other control character is allowed. */
  predicate Carried(a: Atom) {
    a.Char? ==> a.c >= ' ' || a.c == '\n' || a.c == '\t'
  }

  predicate AllCarried(atoms: seq<Atom>) {
    forall i | 0 <= i < |atoms| :: Carried(atoms[i])
  }

  lemma {:induction false} AllCarriedConcat(a: seq<Atom>, b: seq<Atom>)
    ensures AllCarried(a + b) <==> AllCarried(a) && AllCarried(b)
  {
    assert a == (a + b)[..|a|] && b == (a + b)[|a|..];
  }

  function RawSpace(atoms: seq<Atom>, i: nat): bool
    requires i < |atoms|
  {
    atoms[i] == Char(' ') && !EdgeSpace(atoms, i)
  }

  function Lits(s: string): seq<Token> {
    seq(|s|, i requires 0 <= i < |s| => Lit(s[i]))
  }

  function Joint(a: seq<Token>, b: Option<seq<Token>>): Option<seq<Token>> {
    match b
    case None => None
    case Some(ts) => Some(a + ts)
  }

  predicate PlainChar(c: char) {
    c > ' ' && c !in ['\\', '\'', '"', '&', '<']
  }

  lemma {:induction false} LitsFirst(s: string, rest: Option<seq<Token>>)
    requires s != ""
    ensures Joint(Lits(s), rest) == Then(Lit(s[0]), Joint(Lits(s[1..]), rest))
  {
    assert Lits(s) == [Lit(s[0])] + Lits(s[1..]);
    if rest.Some? {
      assert [Lit(s[0])] + (Lits(s[1..]) + rest.value) == [Lit(s[0])] + Lits(s[1..]) + rest.value;
    }
  }

  lemma {:induction false} TokensPlain(s: string, rest: string)
    requires forall c <- s :: PlainChar(c)
    ensures Tokens(s + rest) == Joint(Lits(s), Tokens(rest))
  {
    if s == "" {
      assert s + rest == rest;
      assert Tokens(rest).Some? ==> Lits(s) + Tokens(rest).value == Tokens(rest).value;
    } else {
      assert (s + rest)[1..] == s[1..] + rest;
      assert s[0] in s;
      TokensPlain(s[1..], rest);
      LitsFirst(s, Tokens(rest));
    }
  }

  /** What one atom reads back as. */
  function AtomTokens(atoms: seq<Atom>, i: nat, formatted: bool): seq<Token>
    requires i < |atoms|
  {
    match atoms[i]
    case Spec(n, d) => Lits(SpecText(n, d))
    case Char(c) =>
      if RawSpace(atoms, i) then [Space]
      else if c == '%' && formatted then Lits("%%")
      else [Lit(c)]
  }

  lemma {:induction false} TokensOfSpec(n: nat, d: bool, rest: string)
    ensures Tokens(SpecText(n, d) + rest) == Joint(Lits(SpecText(n, d)), Tokens(rest))
  {
    forall c | c in SpecText(n, d)
      ensures PlainChar(c)
    {
      assert c == '%' || c in Decimal(n + 1) || c in "$d" || c in "$s";
    }
    TokensPlain(SpecText(n, d), rest);
  }

  lemma {:induction false} TokensOfSpace(rest: string)
    ensures Tokens("\\u0020" + rest) == Joint([Lit(' ')], Tokens(rest))
  {
    var e := "\\u0020";
    var s := e + rest;
    assert |e| == 6 && e[0] == '\\' && e[1] == 'u' && e[2..6] == "0020";
    assert s[0] == e[0] && s[1] == e[1] && s[2..6] == e[2..6] && s[6..] == rest;
    HexOfSpace();
    assert forall c <- s[2..6] :: IsHex(c);
  }

  /** A character behind a backslash. */
  lemma {:induction false} TokensOfEscape(c: char, rest: string)
    requires c in ['\\', '\'', '"', '@', '?', 'n', 't']
    ensures Tokens(['\\', c] + rest)
         == Joint([Lit(if c == 'n' then '\n' else if c == 't' then '\t' else c)], Tokens(rest))
  {
    assert (['\\', c] + rest)[2..] == rest;
  }

  lemma {:induction false} PrefixSecond(a: string, s: string)
    requires |a| > 1 && a <= s
    ensures |s| > 1 && s[0] == a[0] && s[1] == a[1]
  {
  }

  lemma {:induction false} TokensOfEntity(c: char, rest: string)
    requires c in ['&', '<', '>']
    ensures var e := if c == '&' then "&amp;" else if c == '<' then "&lt;" else "&gt;";
            Tokens(e + rest) == Joint([Lit(c)], Tokens(rest))
  {
    var e := if c == '&' then "&amp;" else if c == '<' then "&lt;" else "&gt;";
    var s := e + rest;
    assert e <= s && s[|e|..] == rest;
    PrefixSecond(e, s);
  }

  /** A character written as it is. */
  lemma {:induction false} TokensOfBare(c: char, rest: string)
    requires c >= ' ' && c !in ['\\', '\'', '"', '&', '<', '>']
    ensures Tokens([c] + rest) == Joint([if c == ' ' then Space else Lit(c)], Tokens(rest))
  {
    assert ([c] + rest)[1..] == rest;
  }

  lemma {:induction false} TokensOfChar(atoms: seq<Atom>, i: nat, formatted: bool, rest: string)
    requires i < |atoms| && atoms[i].Char? && Carried(atoms[i])
    ensures Tokens(EscapeAt(atoms, i, formatted) + rest) == Joint(AtomTokens(atoms, i, formatted), Tokens(rest))
  {
    var c := atoms[i].c;
    if c in ['\\', '\'', '"'] || (c in ['@', '?'] && i == 0) {
      TokensOfEscape(c, rest);
    } else if c == '\n' || c == '\t' {
      TokensOfEscape(if c == '\n' then 'n' else 't', rest);
    } else if c in ['&', '<', '>'] {
      TokensOfEntity(c, rest);
    } else if c == ' ' && EdgeSpace(atoms, i) {
      TokensOfSpace(rest);
    } else if c == '%' && formatted {
      TokensPlain("%%", rest);
    } else {
      TokensOfBare(c, rest);
    }
  }

  lemma {:induction false} HexOfSpace()
    ensures (forall c <- "0020" :: IsHex(c)) && HexValue("0020") == 0x20
  {
    var s := "0020";
    assert s[..3] == "002" && "002"[..2] == "00" && "00"[..1] == "0" && "0"[..0] == "";
    assert HexValue("0") == 0 && HexValue("00") == 0 && HexValue("002") == 2;
  }

  function TokenParts(atoms: seq<Atom>, formatted: bool): seq<seq<Token>> {
    seq(|atoms|, i requires 0 <= i < |atoms| => AtomTokens(atoms, i, formatted))
  }

  function TokensFrom(atoms: seq<Atom>, i: nat, formatted: bool): seq<Token>
    requires i <= |atoms|
  {
    Flat(TokenParts(atoms, formatted), i)
  }

  /** `part` reads as `ts`, whatever stands behind it. */
  ghost predicate PartReads(part: string, ts: seq<Token>) {
    forall rest :: Tokens(part + rest) == Joint(ts, Tokens(rest))
  }

  lemma {:induction false} AtomReads(atoms: seq<Atom>, i: nat, formatted: bool)
    requires i < |atoms| && Carried(atoms[i])
    ensures PartReads(EscapeAt(atoms, i, formatted), AtomTokens(atoms, i, formatted))
  {
    forall rest
      ensures Tokens(EscapeAt(atoms, i, formatted) + rest) == Joint(AtomTokens(atoms, i, formatted), Tokens(rest))
    {
      if atoms[i].Spec? {
        TokensOfSpec(atoms[i].n, atoms[i].isCount, rest);
      } else {
        TokensOfChar(atoms, i, formatted, rest);
      }
    }
  }

  lemma {:induction false} PartsRead(parts: seq<string>, ts: seq<seq<Token>>, i: nat)
    requires i <= |parts| == |ts| && forall k | 0 <= k < |parts| :: PartReads(parts[k], ts[k])
    ensures Tokens(Flat(parts, i)) == Some(Flat(ts, i))
    decreases |parts| - i
  {
    if i < |parts| {
      PartsRead(parts, ts, i + 1);
      assert PartReads(parts[i], ts[i]);
    }
  }

  lemma {:induction false} TokensOfText(atoms: seq<Atom>, formatted: bool)
    requires AllCarried(atoms)
    ensures Tokens(EscapeFrom(atoms, 0, formatted)) == Some(TokensFrom(atoms, 0, formatted))
  {
    var parts, ts := Escapes(atoms, formatted), TokenParts(atoms, formatted);
    forall k | 0 <= k < |parts|
      ensures PartReads(parts[k], ts[k])
    {
      AtomReads(atoms, k, formatted);
    }
    PartsRead(parts, ts, 0);
  }

  lemma {:induction false} CollapseLits(s: string, ts: seq<Token>, gap: bool, started: bool)
    requires s != ""
    ensures Collapse(Lits(s) + ts, gap, started)
         == (if gap && started then " " else "") + s + Collapse(ts, false, true)
  {
    assert (Lits(s) + ts)[1..] == Lits(s[1..]) + ts;
    if |s| == 1 {
      assert Lits(s[1..]) + ts == ts;
    } else {
      CollapseLits(s[1..], ts, false, true);
      assert s == [s[0]] + s[1..];
    }
  }

  /** The space that stands before atom `i`, when it was kept bare. */
  function Lead(atoms: seq<Atom>, i: nat): string
    requires i <= |atoms|
  {
    if i > 0 && RawSpace(atoms, i - 1) then " " else ""
  }

  function AtomRaw(a: Atom, formatted: bool): (s: string)
    ensures s != ""
  {
    match a
    case Spec(n, d) => SpecText(n, d)
    case Char(c) => if c == '%' && formatted then "%%" else [c]
  }

  lemma {:induction false} LitAtom(atoms: seq<Atom>, i: nat, formatted: bool)
    requires i < |atoms| && !RawSpace(atoms, i)
    ensures AtomTokens(atoms, i, formatted) == Lits(AtomRaw(atoms[i], formatted))
  {
  }

  /** Kept spaces are single and inside, so collapsing restores the text. */
  lemma {:induction false} CollapseOfText(atoms: seq<Atom>, i: nat, formatted: bool)
    requires i <= |atoms|
    ensures Collapse(TokensFrom(atoms, i, formatted), i > 0 && RawSpace(atoms, i - 1), i > 0)
         == Lead(atoms, i) + Raw(atoms, i, formatted)
    decreases |atoms| - i
  {
    if i < |atoms| {
      CollapseOfText(atoms, i + 1, formatted);
      var rest, raw := TokensFrom(atoms, i + 1, formatted), Raw(atoms, i + 1, formatted);
      if RawSpace(atoms, i) {
        assert ([Space] + rest)[1..] == rest;
      } else {
        var s := AtomRaw(atoms[i], formatted);
        LitAtom(atoms, i, formatted);
        CollapseLits(s, rest, i > 0 && RawSpace(atoms, i - 1), i > 0);
        assert Lead(atoms, i + 1) + raw == raw;
        Joined(Lead(atoms, i), s, raw);
      }
    }
  }

  lemma {:induction false} NeverAReference(atoms: seq<Atom>, formatted: bool)
    ensures var s := EscapeFrom(atoms, 0, formatted); s != "" ==> s[0] != '@' && s[0] != '?'
  {
  }

  // ---- Characters the file cannot carry

  lemma {:induction false} TokensCarry(s: string)
    requires Tokens(s).Some?
    ensures forall t | t in Tokens(s).value :: t.Lit? ==> Carried(Char(t.c))
    decreases |s|
  {
    if s != "" {
      var n := if s[0] == '\\' then (if s[1] == 'u' then 6 else 2)
               else if s[0] == '&' then (if "&amp;" <= s then 5 else 4)
               else 1;
      TokensCarry(s[n..]);
    }
  }

  lemma {:induction false} CollapseCarries(ts: seq<Token>, gap: bool, started: bool)
    requires forall t | t in ts :: t.Lit? ==> Carried(Char(t.c))
    ensures forall c | c in Collapse(ts, gap, started) :: Carried(Char(c))
  {
    if ts != [] {
      assert ts[0] in ts;
      if ts[0].Space? {
        CollapseCarries(ts[1..], true, started);
      } else {
        CollapseCarries(ts[1..], false, true);
      }
    }
  }

  lemma {:induction false} RawHas(atoms: seq<Atom>, i: nat, k: nat, formatted: bool)
    requires i <= k < |atoms| && atoms[k].Char? && !Carried(atoms[k])
    ensures atoms[k].c in Raw(atoms, i, formatted)
    decreases k - i
  {
    var head, tail := AtomRaw(atoms[i], formatted), Raw(atoms, i + 1, formatted);
    if i < k {
      RawHas(atoms, i + 1, k, formatted);
      InEither(head, tail, atoms[k].c);
    } else {
      assert head == [atoms[k].c];
      InEither(head, tail, atoms[k].c);
    }
  }

  lemma {:induction false} InEither(a: string, b: string, c: char)
    ensures c in a + b <==> c in a || c in b
  {
  }

  /** Escaping loses nothing exactly when the text has only characters an XML file carries: a
      carriage return or another control character is lost. */
  lemma {:induction false} EscapingIsExact(atoms: seq<Atom>, formatted: bool)
    ensures ReadResource(EscapeFrom(atoms, 0, formatted)) == Some(Raw(atoms, 0, formatted)) <==> AllCarried(atoms)
  {
    var s := EscapeFrom(atoms, 0, formatted);
    NeverAReference(atoms, formatted);
    if AllCarried(atoms) {
      TokensOfText(atoms, formatted);
      CollapseOfText(atoms, 0, formatted);
      assert "" + Raw(atoms, 0, formatted) == Raw(atoms, 0, formatted);
    } else {
      var k :| 0 <= k < |atoms| && !Carried(atoms[k]);
      RawHas(atoms, 0, k, formatted);
      if Tokens(s).Some? {
        TokensCarry(s);
        CollapseCarries(Tokens(s).value, false, false);
      }
    }
  }

  // ---- The formatter

  lemma {:induction false} SpecStarts(n: nat, tail: string)
    ensures var digits := Decimal(n + 1);
            && DigitRun(digits + ("$" + tail)) == |digits| && SpecNumber(digits + ("$" + tail), |digits|) == n + 1
            && (digits + ("$" + tail))[0] != '%'
  {
    var digits := Decimal(n + 1);
    DigitRunOf(digits, "$" + tail);
    assert (digits + ("$" + tail))[..|digits|] == digits;
    ValueOfDecimal(n + 1);
    assert digits[0] in digits && (digits + ("$" + tail))[0] == digits[0];
  }

  /** A specifier of `run` digits at the head of `s`. */
  lemma {:induction false} SpecParses(s: string, run: nat, n: nat, d: bool, rest: string)
    requires |s| > run + 2 && s[0] == '%' && s[1] != '%' && run > 0 && DigitRun(s[1..]) == run
    requires SpecNumber(s[1..], run) == n + 1
    requires s[1 + run] == '$' && s[2 + run] == (if d then 'd' else 's') && s[3 + run..] == rest
    ensures ParseFormat(s) == Consed(Spec(n, d), ParseFormat(rest))
  {
    var behind := s[1 + run..];
    assert behind[0] == s[1 + run] && behind[1] == s[2 + run] && behind[2..] == s[3 + run..];
  }

  lemma {:induction false} ParseSpec(n: nat, d: bool, rest: string)
    ensures ParseFormat(SpecText(n, d) + rest) == Consed(Spec(n, d), ParseFormat(rest))
  {
    var digits, tail := Decimal(n + 1), [if d then 'd' else 's'] + rest;
    var s := SpecText(n, d) + rest;
    assert s == ['%'] + (digits + ("$" + tail));
    assert s[1..] == digits + ("$" + tail);
    SpecStarts(n, tail);
    assert s[3 + |digits|..] == rest;
    SpecParses(s, |digits|, n, d, rest);
  }

  lemma {:induction false} ParseChar(c: char, rest: string)
    ensures ParseFormat(AtomRaw(Char(c), true) + rest) == Consed(Char(c), ParseFormat(rest))
  {
    var head := AtomRaw(Char(c), true);
    assert (head + rest)[|head|..] == rest;
  }

  lemma {:induction false} ParseAtom(a: Atom, rest: string)
    ensures ParseFormat(AtomRaw(a, true) + rest) == Consed(a, ParseFormat(rest))
  {
    match a
    case Spec(n, d) =>
      ParseSpec(n, d, rest);
    case Char(c) =>
      ParseChar(c, rest);
  }

  /** `part` is parsed as `a`, whatever stands behind it. */
  ghost predicate PartParses(part: string, a: Atom) {
    forall rest :: ParseFormat(part + rest) == Consed(a, ParseFormat(rest))
  }

  lemma {:induction false} PartsParse(parts: seq<string>, atoms: seq<Atom>, i: nat)
    requires i <= |parts| == |atoms| && forall k | 0 <= k < |parts| :: PartParses(parts[k], atoms[k])
    ensures ParseFormat(Flat(parts, i)) == Some(atoms[i..])
    decreases |parts| - i
  {
    if i < |parts| {
      PartsParse(parts, atoms, i + 1);
      assert PartParses(parts[i], atoms[i]);
      assert atoms[i..] == [atoms[i]] + atoms[i + 1..];
    }
  }

  /** Formatting reads back exactly the atoms that were written. */
  lemma {:induction false} FormatReadsAtoms(atoms: seq<Atom>, i: nat)
    requires i <= |atoms|
    ensures ParseFormat(Raw(atoms, i, true)) == Some(atoms[i..])
  {
    var parts := Raws(atoms, true);
    forall k | 0 <= k < |parts|
      ensures PartParses(parts[k], atoms[k])
    {
      forall rest
        ensures ParseFormat(parts[k] + rest) == Consed(atoms[k], ParseFormat(rest))
      {
        ParseAtom(atoms[k], rest);
      }
    }
    PartsParse(parts, atoms, i);
  }

  lemma {:induction false} RawUnformatted(t: string, i: nat)
    requires i <= |t|
    ensures Raw(TextAtoms(t), i, false) == t[i..]
    decreases |t| - i
  {
    if i < |t| {
      RawUnformatted(t, i + 1);
      assert t[i..] == [t[i]] + t[i + 1..];
    }
  }

  // ---- The pieces back from the atoms

  /** Atoms merged into the longest pieces of text. */
  function Pieces(atoms: seq<Atom>): seq<Ix> {
    if atoms == [] then []
    else
      var rest := Pieces(atoms[1..]);
      match atoms[0]
      case Spec(n, _) => [IxArg(n)] + rest
      case Char(c) =>
        if rest != [] && rest[0].IxText? then [IxText([c] + rest[0].text)] + rest[1..]
        else [IxText([c])] + rest
  }

  /** No empty text, no two texts in a row: what compiled patterns in normal form are. */
  ghost predicate NormalIx(ix: seq<Ix>) {
    && (forall i | 0 <= i < |ix| :: ix[i].IxText? ==> ix[i].text != "")
    && forall i | 0 < i < |ix| :: ix[i - 1].IxText? ==> ix[i].IxArg?
  }

  lemma {:induction false} PiecesOfText(t: string, atoms: seq<Atom>)
    requires t != "" && (Pieces(atoms) != [] ==> Pieces(atoms)[0].IxArg?)
    ensures Pieces(TextAtoms(t) + atoms) == [IxText(t)] + Pieces(atoms)
  {
    assert (TextAtoms(t) + atoms)[1..] == TextAtoms(t[1..]) + atoms;
    if |t| == 1 {
      assert TextAtoms(t[1..]) + atoms == atoms;
      assert t == [t[0]];
    } else {
      PiecesOfText(t[1..], atoms);
      assert t == [t[0]] + t[1..];
    }
  }

  lemma {:induction false} PiecesOfArg(spec: Atom, atoms: seq<Atom>)
    requires spec.Spec?
    ensures Pieces([spec] + atoms) == [IxArg(spec.n)] + Pieces(atoms)
  {
    assert ([spec] + atoms)[1..] == atoms;
  }

  lemma {:induction false} NormalTail(ix: seq<Ix>)
    requires NormalIx(ix) && ix != []
    ensures NormalIx(ix[1..]) && (ix[0].IxText? ==> ix[0].text != "" && (ix[1..] != [] ==> ix[1].IxArg?))
  {
  }

  lemma {:induction false} PiecesOfAtoms(ix: seq<Ix>, count: Option<nat>)
    requires NormalIx(ix)
    ensures Pieces(Atoms(ix, count)) == ix
  {
    if ix != [] {
      NormalTail(ix);
      PiecesOfAtoms(ix[1..], count);
      match ix[0]
      case IxText(t) =>
        PiecesOfText(t, Atoms(ix[1..], count));
      case IxArg(n) =>
        PiecesOfArg(Spec(n, count == Some(n)), Atoms(ix[1..], count));
    }
  }

  /** The left inverse: a formatted resource gives back the compiled pattern it was written
      from, placeholders and all. */
  lemma {:induction false} ResourceKeepsPieces(ix: seq<Ix>, count: Option<nat>)
    requires NormalIx(ix) && AllCarried(Atoms(ix, count))
    ensures var r := ReadResource(ResourceText(ix, count, true));
            r.Some? && ParseFormat(r.value).Some? && Pieces(ParseFormat(r.value).value) == ix
  {
    EscapingIsExact(Atoms(ix, count), true);
    FormatReadsAtoms(Atoms(ix, count), 0);
    PiecesOfAtoms(ix, count);
  }

  /** The specifier, written out: arguments count from 1, and the count alone is a number. */
  lemma {:induction false} SpecIs(n: nat, count: Option<nat>)
    ensures ResourceText([IxArg(n)], count, true) == "%" + Decimal(n + 1) + (if count == Some(n) then "$d" else "$s")
  {
    var atoms := Atoms([IxArg(n)], count);
    assert [IxArg(n)][1..] == [] && Atoms([], count) == [];
    assert atoms == [Spec(n, count == Some(n))] + [] == [Spec(n, count == Some(n))];
    assert Escapes(atoms, true)[0] == SpecText(n, count == Some(n));
    assert Flat(Escapes(atoms, true), 1) == "";
    assert SpecText(n, count == Some(n)) + "" == SpecText(n, count == Some(n));
  }

  lemma {:induction false} AtomsCount(ix: seq<Ix>, count: Option<nat>)
    ensures forall a | a in Atoms(ix, count) && a.Spec? :: (a.isCount <==> count == Some(a.n)) && IxArg(a.n) in ix
  {
    if ix != [] {
      AtomsCount(ix[1..], count);
      assert forall x | x in ix[1..] :: x in ix;
      assert ix[0] in ix;
    }
  }

  /** The formatter asks for a number exactly where the count stands, and for text everywhere else. */
  lemma {:induction false} CountIsNumber(ix: seq<Ix>, count: Option<nat>)
    requires AllCarried(Atoms(ix, count))
    ensures var r := ReadResource(ResourceText(ix, count, true));
            && r.Some? && ParseFormat(r.value).Some?
            && forall a | a in ParseFormat(r.value).value && a.Spec? ::
                 (a.isCount <==> count == Some(a.n)) && IxArg(a.n) in ix
  {
    EscapingIsExact(Atoms(ix, count), true);
    FormatReadsAtoms(Atoms(ix, count), 0);
    assert Atoms(ix, count)[0..] == Atoms(ix, count);
    AtomsCount(ix, count);
  }
}
