/** Message text of the shared subset: literal text, `{name}` placeholders and the escapes
    `\\{`, `\\}` and `\\\\`. The parser is shown to be one half of a bijection. */
module Pattern {
  import opened Wrappers
  import opened Text

  datatype Piece = Text(text: string) | Arg(name: string)

  type Pattern = seq<Piece>

  datatype PatternError =
    | EmptyMessage
    | BadEscape
    | NeverClosed
    | ClosesNothing
    | BadName(why: NameError)

  datatype NameError = Markup | Function | Positional | NotIdentifier | Reserved

  // ---- Placeholder names

  predicate IsLower(c: char) {
    'a' <= c <= 'z'
  }

  predicate IsIdent(s: string) {
    && s != "" && IsLower(s[0])
    && forall c <- s :: IsLower(c) || '0' <= c <= '9' || c == '_'
  }

  /** Keywords of the two languages in which placeholders turn into parameters. */
  const RESERVED_WORDS: seq<string> := [
    "abstract", "any", "as", "associatedtype", "async", "await", "become", "box", "break", "case",
    "catch", "class", "const", "continue", "crate", "default", "defer", "deinit", "do", "dyn",
    "else", "enum", "extension", "extern", "fallthrough", "false", "fileprivate", "final", "fn",
    "for", "func", "gen", "guard", "if", "impl", "import", "in", "init", "inout", "internal", "is",
    "let", "loop", "macro", "match", "mod", "move", "mut", "nil", "open", "operator", "override",
    "precedencegroup", "priv", "private", "protocol", "pub", "public", "ref", "repeat", "rethrows",
    "return", "self", "some", "static", "struct", "subscript", "super", "switch", "throw",
    "throws", "trait", "true", "try", "type", "typealias", "typeof", "unsafe", "unsized", "use",
    "var", "virtual", "where", "while", "yield"
  ]

  /** Why `name` cannot name a placeholder; `None` when it can. */
  function CheckPlaceholder(name: string): (why: Option<NameError>)
    ensures why == None ==> IsIdent(name)
  {
    if name != "" && (name[0] == '#' || name[0] == '/') then Some(Markup)
    else if ':' in name then Some(Function)
    else if name != "" && '0' <= name[0] <= '9' then Some(Positional)
    else if !IsIdent(name) then Some(NotIdentifier)
    else if name in RESERVED_WORDS then Some(Reserved)
    else None
  }

  ghost predicate Snake(name: string) {
    && name != "" && 'a' <= name[0] <= 'z'
    && forall i | 0 <= i < |name| :: 'a' <= name[i] <= 'z' || '0' <= name[i] <= '9' || name[i] == '_'
  }

  /** A placeholder's name: a lower-case letter, then lower-case letters, digits and underscores, and
      no keyword. */
  lemma {:induction false} NameAllowedIff(name: string)
    ensures CheckPlaceholder(name) == None <==> Snake(name) && name !in RESERVED_WORDS
  {
    IdentIsSnake(name);
    if Snake(name) {
      assert ':' !in name;
    }
  }

  lemma {:induction false} IdentIsSnake(name: string)
    ensures IsIdent(name) <==> Snake(name)
  {
    if IsIdent(name) {
      forall i | 0 <= i < |name|
        ensures 'a' <= name[i] <= 'z' || '0' <= name[i] <= '9' || name[i] == '_'
      {
        assert name[i] in name;
      }
    }
    if Snake(name) {
      forall c <- name
        ensures IsLower(c) || '0' <= c <= '9' || c == '_'
      {
        var i :| 0 <= i < |name| && name[i] == c;
      }
    }
  }

  // ---- Parsing

  /** Flushes pending text: an empty text piece is never pushed. */
  function Flush(out: Pattern, text: string): Pattern {
    if text == "" then out else out + [Text(text)]
  }

  /** What the parser answers with `s` left to read, `text` pending and `out` pushed. */
  function ParseRest(s: string, text: string, out: Pattern): Result<Pattern, PatternError>
    decreases |s|
  {
    if s == "" then Ok(Flush(out, text))
    else if s[0] == '\\' then
      if |s| > 1 && s[1] in ['{', '}', '\\'] then ParseRest(s[2..], text + [s[1]], out)
      else Err(BadEscape)
    else if s[0] == '{' then ParseName(s[1..], text, out)
    else if s[0] == '}' then Err(ClosesNothing)
    else ParseRest(s[1..], text + [s[0]], out)
  }

  /** The same behind an opening brace. */
  function ParseName(s: string, text: string, out: Pattern): Result<Pattern, PatternError>
    decreases |s|
  {
    var end := Find(s, '}');
    if end == |s| then Err(NeverClosed)
    else
      var why := CheckPlaceholder(s[..end]);
      if why.Some? then Err(BadName(why.value))
      else ParseRest(s[end + 1..], "", Flush(out, text) + [Arg(s[..end])])
  }

  function Parse(s: string): Result<Pattern, PatternError> {
    if s == "" then Err(EmptyMessage) else ParseRest(s, "", [])
  }

  /** The inner loop: the name read from `i` up to the next closing brace. */
  method ReadName(s: string, i: nat) returns (name: string, end: nat)
    requires i <= |s|
    ensures end == i + Find(s[i..], '}') && end <= |s| && name == s[i..end]
  {
    name, end := "", i;
    while end < |s| && s[end] != '}'
      invariant i <= end <= |s|
      invariant name == s[i..end] && '}' !in name
    {
      name := name + [s[end]];
      end := end + 1;
    }
    assert s[i..] == name + s[end..];
    FindSkips(name, s[end..], '}');
  }

  /** The source's loop over the characters of a message. */
  method ParsePattern(s: string) returns (r: Result<Pattern, PatternError>)
    ensures r == Parse(s)
  {
    if s == "" {
      return Err(EmptyMessage);
    }
    var out: Pattern, text, i := [], "", 0;
    while i < |s|
      invariant i <= |s|
      invariant ParseRest(s[i..], text, out) == Parse(s)
    {
      ghost var rest := s[i..];
      var c := s[i];
      i := i + 1;
      assert rest[0] == c && rest[1..] == s[i..];
      if c == '\\' {
        if i < |s| && s[i] in ['{', '}', '\\'] {
          text := text + [s[i]];
          i := i + 1;
          assert rest[2..] == s[i..];
        } else {
          return Err(BadEscape);
        }
      } else if c == '{' {
        var name, end := ReadName(s, i);
        if end == |s| {
          return Err(NeverClosed);
        }
        assert s[i..][..end - i] == name;
        assert s[i..][end - i + 1..] == s[end + 1..];
        i := end + 1;
        var why := CheckPlaceholder(name);
        if why.Some? {
          return Err(BadName(why.value));
        }
        if text != "" {
          out := out + [Text(text)];
          text := "";
        }
        out := out + [Arg(name)];
      } else if c == '}' {
        return Err(ClosesNothing);
      } else {
        text := text + [c];
      }
    }
    if text != "" {
      out := out + [Text(text)];
    }
    r := Ok(out);
  }

  // ---- Normal forms and their spelling

  /** What the parser produces: no empty text, no two texts in a row, only valid names. */
  ghost predicate Normal(p: Pattern) {
    && (forall i | 0 <= i < |p| ::
          match p[i]
          case Text(t) => t != ""
          case Arg(n) => CheckPlaceholder(n) == None)
    && forall i | 0 < i < |p| :: p[i - 1].Text? ==> p[i].Arg?
  }

  /** How text is written in a message file. */
  function EscapeText(t: string): string {
    if t == "" then ""
    else (if t[0] in ['{', '}', '\\'] then ['\\', t[0]] else [t[0]]) + EscapeText(t[1..])
  }

  function EscapePiece(piece: Piece): string {
    match piece
    case Text(t) => EscapeText(t)
    case Arg(n) => "{" + n + "}"
  }

  function Escape(p: Pattern): string {
    if p == [] then "" else EscapePiece(p[0]) + Escape(p[1..])
  }

  /** The pattern as a person reads it: escapes resolved. */
  function Display(p: Pattern): string {
    if p == [] then ""
    else
      (match p[0]
       case Text(t) => t
       case Arg(n) => "{" + n + "}")
      + Display(p[1..])
  }

  lemma {:induction false} EscapeTextConcat(a: string, b: string)
    ensures EscapeText(a + b) == EscapeText(a) + EscapeText(b)
  {
    if a == "" {
      assert a + b == b;
    } else {
      assert (a + b)[1..] == a[1..] + b;
      EscapeTextConcat(a[1..], b);
    }
  }

  lemma {:induction false} EscapeConcat(p: Pattern, q: Pattern)
    ensures Escape(p + q) == Escape(p) + Escape(q)
  {
    if p == [] {
      assert p + q == q;
    } else {
      assert (p + q)[1..] == p[1..] + q;
      EscapeConcat(p[1..], q);
    }
  }

  /** The spelling of what the parser has read so far. */
  ghost function Spelled(out: Pattern, text: string): string {
    Escape(out) + EscapeText(text)
  }

  ghost function SpelledChar(c: char): string {
    if c in ['{', '}', '\\'] then ['\\', c] else [c]
  }

  lemma {:induction false} SpelledFlush(out: Pattern, text: string)
    ensures Escape(Flush(out, text)) == Spelled(out, text)
  {
    EscapeConcat(out, [Text(text)]);
    assert Escape([Text(text)]) == EscapeText(text) + Escape([]);
  }

  lemma {:induction false} SpelledName(out: Pattern, text: string, name: string)
    ensures Spelled(Flush(out, text) + [Arg(name)], "") == Spelled(out, text) + ("{" + name + "}")
  {
    SpelledFlush(out, text);
    EscapeConcat(Flush(out, text), [Arg(name)]);
    assert Escape([Arg(name)]) == "{" + name + "}" + Escape([]);
  }

  lemma {:induction false} SpelledMore(out: Pattern, text: string, c: char)
    ensures Spelled(out, text + [c]) == Spelled(out, text) + SpelledChar(c)
  {
    EscapeTextConcat(text, [c]);
    assert EscapeText([c]) == SpelledChar(c) + EscapeText([c][1..]);
  }

  lemma {:induction false} NormalAppend(out: Pattern, text: string, name: string)
    requires Normal(out) && (out != [] ==> out[|out| - 1].Arg?)
    ensures Normal(Flush(out, text))
    ensures CheckPlaceholder(name) == None ==> Normal(Flush(out, text) + [Arg(name)])
  {
  }

  /** One character of text, escaped or not, is read. */
  lemma {:induction false} StepChar(s: string, text: string, out: Pattern) returns (c: char, rest: string)
    requires s != "" && s[0] != '{' && ParseRest(s, text, out).Ok?
    ensures s == SpelledChar(c) + rest && |rest| < |s|
    ensures ParseRest(s, text, out) == ParseRest(rest, text + [c], out)
  {
    var n := if s[0] == '\\' then 2 else 1;
    c, rest := s[n - 1], s[n..];
  }

  /** One placeholder is read. */
  lemma {:induction false} StepName(s: string, text: string, out: Pattern) returns (name: string, rest: string)
    requires s != "" && s[0] == '{' && ParseRest(s, text, out).Ok?
    ensures s == ("{" + name + "}") + rest && |rest| < |s| && CheckPlaceholder(name) == None
    ensures ParseRest(s, text, out) == ParseRest(rest, "", Flush(out, text) + [Arg(name)])
  {
    var end := Find(s[1..], '}');
    name, rest := s[1..][..end], s[1..][end + 1..];
    assert s[1..] == name + ("}" + rest);
  }

  /** Everything accepted is in normal form and spelled exactly as it was read. */
  lemma {:induction false} ParseRestSound(s: string, text: string, out: Pattern)
    requires Normal(out) && (out != [] ==> out[|out| - 1].Arg?)
    requires ParseRest(s, text, out).Ok?
    ensures Normal(ParseRest(s, text, out).value)
    ensures Escape(ParseRest(s, text, out).value) == Spelled(out, text) + s
    decreases |s|
  {
    if s == "" {
      NormalAppend(out, text, "");
      SpelledFlush(out, text);
      assert Spelled(out, text) + s == Spelled(out, text);
    } else if s[0] == '{' {
      var name, rest := StepName(s, text, out);
      NormalAppend(out, text, name);
      ParseRestSound(rest, "", Flush(out, text) + [Arg(name)]);
      SpelledName(out, text, name);
      Associative(Spelled(out, text), "{" + name + "}", rest);
    } else {
      var c, rest := StepChar(s, text, out);
      ParseRestSound(rest, text + [c], out);
      SpelledMore(out, text, c);
      Associative(Spelled(out, text), SpelledChar(c), rest);
    }
  }

  lemma {:induction false} ParseSkipsText(t: string, rest: string, text: string, out: Pattern)
    ensures ParseRest(EscapeText(t) + rest, text, out) == ParseRest(rest, text + t, out)
  {
    if t == "" {
      assert EscapeText(t) + rest == rest && text + t == text;
    } else {
      var head := if t[0] in ['{', '}', '\\'] then ['\\', t[0]] else [t[0]];
      var s := EscapeText(t) + rest;
      assert s == head + (EscapeText(t[1..]) + rest);
      assert s[|head|..] == EscapeText(t[1..]) + rest;
      ParseSkipsText(t[1..], rest, text + [t[0]], out);
      assert text + [t[0]] + t[1..] == text + t;
    }
  }

  lemma {:induction false} NameEnds(name: string, rest: string, text: string, out: Pattern)
    requires CheckPlaceholder(name) == None
    ensures ParseName(name + ("}" + rest), text, out) == ParseRest(rest, "", Flush(out, text) + [Arg(name)])
  {
    var tail := name + ("}" + rest);
    NameFound(name, rest);
    assert tail[..|name|] == name && tail[|name| + 1..] == rest;
  }

  lemma {:induction false} NameFound(name: string, rest: string)
    requires IsIdent(name)
    ensures Find(name + ("}" + rest), '}') == |name|
  {
    FindSkips(name, "}" + rest, '}');
    assert Find("}" + rest, '}') == 0;
  }

  lemma {:induction false} ParseReadsName(name: string, rest: string, text: string, out: Pattern)
    requires CheckPlaceholder(name) == None
    ensures ParseRest("{" + name + "}" + rest, text, out)
         == ParseRest(rest, "", Flush(out, text) + [Arg(name)])
  {
    var s, tail := "{" + name + "}" + rest, name + ("}" + rest);
    assert s == ['{'] + tail;
    assert s[0] == '{' && s[1..] == tail;
    NameEnds(name, rest, text, out);
  }

  lemma {:induction false} OnePiece(out: Pattern, p: Pattern)
    requires p != []
    ensures out + [p[0]] + p[1..] == out + p
  {
  }

  /** Every normal form is read back from its spelling, pending text included. */
  lemma {:induction false} ParseRestComplete(p: Pattern, text: string, out: Pattern)
    requires Normal(p) && (text != "" && p != [] ==> p[0].Arg?)
    ensures ParseRest(Escape(p), text, out) == Ok(Flush(out, text) + p)
    decreases |p|
  {
    if p == [] {
      assert Flush(out, text) + p == Flush(out, text);
    } else if p[0].Arg? {
      ParseReadsName(p[0].name, Escape(p[1..]), text, out);
      ParseRestComplete(p[1..], "", Flush(out, text) + [p[0]]);
      OnePiece(Flush(out, text), p);
    } else {
      ParseSkipsText(p[0].text, Escape(p[1..]), "", out);
      assert "" + p[0].text == p[0].text;
      ParseRestComplete(p[1..], p[0].text, out);
      OnePiece(out, p);
    }
  }

  lemma {:induction false} EscapeNonempty(p: Pattern)
    requires Normal(p) && p != []
    ensures Escape(p) != ""
  {
  }

  /** The parser accepts exactly the spellings of non-empty normal forms, each of one. */
  lemma {:induction false} ParseIsBijection(s: string, p: Pattern)
    ensures Parse(s) == Ok(p) <==> p != [] && Normal(p) && s == Escape(p)
  {
    if Parse(s) == Ok(p) {
      ParseRestSound(s, "", []);
    }
    if p != [] && Normal(p) && s == Escape(p) {
      EscapeNonempty(p);
      ParseRestComplete(p, "", []);
      assert [] + p == p;
    }
  }

  lemma {:induction false} EscapeTextGrows(t: string)
    ensures |t| <= |EscapeText(t)|
    ensures '\\' in EscapeText(t) ==> |t| < |EscapeText(t)|
    ensures '\\' !in EscapeText(t) ==> t == EscapeText(t)
  {
    if t != "" {
      EscapeTextGrows(t[1..]);
      assert t == [t[0]] + t[1..];
    }
  }

  lemma {:induction false} DisplayShrinks(p: Pattern)
    requires Normal(p)
    ensures |Display(p)| <= |Escape(p)|
    ensures '\\' in Escape(p) ==> |Display(p)| < |Escape(p)|
    ensures '\\' !in Escape(p) ==> Display(p) == Escape(p)
  {
    if p != [] {
      DisplayShrinks(p[1..]);
      if p[0].Text? {
        EscapeTextGrows(p[0].text);
      }
    }
  }

  /** A message is displayed as it was written exactly when it holds no backslash. */
  lemma {:induction false} DisplayIsSource(s: string)
    requires Parse(s).Ok?
    ensures Display(Parse(s).value) == s <==> '\\' !in s
  {
    ParseIsBijection(s, Parse(s).value);
    DisplayShrinks(Parse(s).value);
  }
}
