/** The field names of a plural message are text. */
module MessageWords {
  import Utf8

  lemma {:induction false} WordsAreAscii(w: string)
    requires w == "declarations" || w == "selectors" || w == "match"
    ensures Utf8.Ascii(w)
  {
  }

  lemma {:induction false} WordsAreValid(w: string)
    requires w == "declarations" || w == "selectors" || w == "match"
    ensures Utf8.Valid(w)
  {
    WordsAreAscii(w);
    Utf8.AsciiIsValid(w);
  }
}

/** What the files of a catalogue hand to the build: writing a message file and reading it back, the
    list of languages, and the catalogue both make. */
module CatalogSource {
  import opened Wrappers
  import opened Text
  import opened Plural
  import opened Pattern
  import opened Messages
  import opened Build
  import opened Compilation
  import opened MessageFile
  import J = Json
  import JsonPrinter
  import MessageWords
  import Utf8

  // ---- Writing a message as the files have it

  function LocalText(sel: string, count: string): string {
    "local " + (sel + " " + ("=" + (" " + count + (":" + " plural"))))
  }

  function Declarations(inputs: seq<string>, last: string): seq<J.Json> {
    if inputs == [] then [J.Str(last)] + [] else [J.Str("input " + inputs[0])] + Declarations(inputs[1..], last)
  }

  function CategoryText(c: Category): string {
    if c == Other then "*" else Name(c)
  }

  function Arms(cases: seq<(Category, Pattern)>, sel: string): seq<J.Field> {
    if cases == [] then []
    else [J.Field(sel + ("=" + CategoryText(cases[0].0)), J.Str(Escape(cases[0].1)))] + Arms(cases[1..], sel)
  }

  function PluralFields(decls: J.Json, sels: J.Json, arms: J.Json): seq<J.Field> {
    [J.Field("declarations", decls)] + ([J.Field("selectors", sels)] + ([J.Field("match", arms)] + []))
  }

  function Written(m: Message, sel: string, inputs: seq<string>): J.Json {
    match m
    case Plain(p) => J.Str(Escape(p))
    case Plural(count, cases) =>
      J.Arr([J.Obj(PluralFields(J.Arr(Declarations(inputs, LocalText(sel, count))), J.Arr([J.Str(sel)] + []),
                                J.Obj(Arms(cases, sel))))])
  }

  // ---- Reading it back

  lemma {:induction false} TrimKeeps(s: string)
    requires s != "" && !IsSpace(s[0]) && !IsSpace(s[|s| - 1])
    ensures TrimStart(s) == s && TrimEnd(s) == s && Trim(s) == s
  {
  }

  lemma {:induction false} TrimBefore(s: string)
    ensures TrimStart(" " + s) == TrimStart(s)
  {
    assert (" " + s)[1..] == s;
  }

  lemma {:induction false} TrimBehind(s: string)
    requires s != "" && !IsSpace(s[0])
    ensures TrimStart(s + " ") == s + " " && TrimEnd(s + " ") == TrimEnd(s)
  {
    assert (s + " ")[0] == s[0];
    assert (s + " ")[..|s|] == s;
  }

  lemma {:induction false} IdentEnds(name: string)
    requires IsIdent(name)
    ensures !IsSpace(name[0]) && !IsSpace(name[|name| - 1])
  {
    assert name[|name| - 1] in name;
  }

  lemma {:induction false} TrimsPad(name: string)
    requires IsIdent(name)
    ensures Trim(name) == name && Trim(" " + name) == name && Trim(name + " ") == name
  {
    IdentEnds(name);
    TrimKeeps(name);
    TrimBefore(name);
    TrimBehind(name);
  }

  lemma {:induction false} ParseLocalOf(d: string, a: string, b: string, i: string, f: string, sel: string,
                                        count: string)
    requires "local " <= d && SplitOnce(d[6..], '=') == Some((a, b)) && SplitOnce(b, ':') == Some((i, f))
    requires Trim(a) == sel && Trim(i) == count && Trim(f) == "plural" && IsIdent(sel) && IsIdent(count)
    ensures ParseLocal(d) == Some((sel, count))
  {
  }

  lemma {:induction false} KeywordIsIdent()
    ensures IsIdent("plural") && " " + "plural" == " plural"
  {
  }

  lemma {:induction false} PadLacks(name: string, c: char)
    requires IsIdent(name) && (c == '=' || c == ':')
    ensures c !in name && c !in name + " " && c !in " " + name
  {
  }

  lemma {:induction false} LocalSplits(sel: string, count: string)
    requires IsIdent(sel) && IsIdent(count)
    ensures var call, d := " " + count + (":" + " plural"), LocalText(sel, count);
            && "local " <= d && !("input " <= d)
            && SplitOnce(d[6..], '=') == Some((sel + " ", call))
            && SplitOnce(call, ':') == Some((" " + count, " plural"))
  {
    var call := " " + count + (":" + " plural");
    Behind("local ", sel + " " + ("=" + call));
    var d := LocalText(sel, count);
    PrefixFirst("local ", d);
    if "input " <= d {
      PrefixFirst("input ", d);
    }
    PadLacks(sel, '=');
    PadLacks(count, ':');
    SplitsAt(sel + " ", '=', call);
    SplitsAt(" " + count, ':', " plural");
  }

  lemma {:induction false} LocalReads(sel: string, count: string)
    requires IsIdent(sel) && IsIdent(count)
    ensures ParseLocal(LocalText(sel, count)) == Some((sel, count)) && !IsInput(LocalText(sel, count))
  {
    LocalSplits(sel, count);
    KeywordIsIdent();
    TrimsPad(sel);
    TrimsPad(count);
    TrimsPad("plural");
    ParseLocalOf(LocalText(sel, count), sel + " ", " " + count + (":" + " plural"), " " + count, " plural", sel, count);
  }

  lemma {:induction false} InputReads(n: string)
    requires IsIdent(n)
    ensures IsInput("input " + n)
  {
    TrimsPad(n);
    Behind("input ", n);
  }

  lemma {:induction false} DeclarationsRead(inputs: seq<string>, sel: string, count: string)
    requires IsIdent(sel) && IsIdent(count) && forall n | n in inputs :: IsIdent(n)
    ensures var decls := Strings(Declarations(inputs, LocalText(sel, count)));
            decls.Some? && ReadLocal(decls.value, None) == Ok(Some((sel, count)))
  {
    var last := LocalText(sel, count);
    LocalReads(sel, count);
    if inputs == [] {
      StringsCons(last, []);
      LocalEnds(last, (sel, count));
    } else {
      DeclarationsRead(inputs[1..], sel, count);
      InputReads(inputs[0]);
      var rest := Declarations(inputs[1..], last);
      StringsCons("input " + inputs[0], rest);
      InputSkips("input " + inputs[0], Strings(rest).value);
    }
  }

  lemma {:induction false} StringsCons(s: string, rest: seq<J.Json>)
    ensures Strings([J.Str(s)] + rest) == match Strings(rest) case None => None case Some(more) => Some([s] + more)
  {
    assert ([J.Str(s)] + rest)[1..] == rest;
  }

  lemma {:induction false} LocalEnds(d: string, local: (string, string))
    requires ParseLocal(d) == Some(local) && !IsInput(d)
    ensures ReadLocal([d] + [], None) == Ok(Some(local))
  {
    assert ([d] + [])[0] == d && ([d] + [])[1..] == [];
  }

  lemma {:induction false} InputSkips(d: string, rest: seq<string>)
    requires IsInput(d)
    ensures ReadLocal([d] + rest, None) == ReadLocal(rest, None)
  {
    assert ([d] + rest)[1..] == rest;
  }

  lemma {:induction false} NameIsIdent(c: Category)
    ensures IsIdent(Name(c)) && Name(c) != "*" && FromName(Name(c)) == Some(c)
  {
  }

  lemma {:induction false} WordTrims(w: string)
    requires w == "*" || IsIdent(w)
    ensures Trim(w) == w
  {
    if w == "*" {
      TrimKeeps(w);
    } else {
      TrimsPad(w);
    }
  }

  lemma {:induction false} CategoryTextReads(c: Category, w: string)
    requires w == CategoryText(c)
    ensures Trim(w) == w
    ensures (if w == "*" then Some(Other) else FromName(w)) == Some(c)
  {
    NameIsIdent(c);
    WordTrims(w);
  }

  lemma {:induction false} CategoryReads(sel: string, c: Category)
    requires IsIdent(sel)
    ensures VariantCategory(sel + ("=" + CategoryText(c)), sel) == Some(c)
  {
    var w := CategoryText(c);
    PadLacks(sel, '=');
    SplitsAt(sel, '=', w);
    TrimsPad(sel);
    CategoryTextReads(c, w);
    CategoryOf(sel + ("=" + w), sel, w, c);
  }

  lemma {:induction false} CategoryOf(k: string, sel: string, w: string, c: Category)
    requires SplitOnce(k, '=') == Some((sel, w)) && Trim(sel) == sel && Trim(w) == w
    requires (if w == "*" then Some(Other) else FromName(w)) == Some(c)
    ensures VariantCategory(k, sel) == Some(c)
  {
  }

  lemma {:induction false} VariantReads(cases: seq<(Category, Pattern)>, x: (Category, Pattern), sel: string)
    requires IsIdent(sel) && CasesWellFormed(cases + [x], sel)
    ensures ReadVariant(J.Field(sel + ("=" + CategoryText(x.0)), J.Str(Escape(x.1))), sel, cases) == Ok(x)
  {
    CategoryReads(sel, x.0);
    var all := cases + [x];
    assert all[|cases|] == x;
    forall i | 0 <= i < |cases|
      ensures cases[i].0 != x.0
    {
      assert all[i] == cases[i];
    }
    ParseIsBijection(Escape(x.1), x.1);
  }

  lemma {:induction false} FirstWellFormed(before: seq<(Category, Pattern)>, cases: seq<(Category, Pattern)>, sel: string)
    requires cases != [] && CasesWellFormed(before + cases, sel)
    ensures CasesWellFormed(before + [cases[0]], sel)
    ensures before + [cases[0]] + cases[1..] == before + cases
  {
    var all := before + cases;
    assert before + [cases[0]] == all[..|before| + 1];
  }

  lemma {:induction false} ArmsRead(cases: seq<(Category, Pattern)>, sel: string, before: seq<(Category, Pattern)>)
    requires IsIdent(sel) && CasesWellFormed(before + cases, sel)
    ensures ReadVariants(Arms(cases, sel), sel, before) == Ok(before + cases)
    decreases |cases|
  {
    if cases == [] {
      assert before + cases == before;
    } else {
      FirstWellFormed(before, cases, sel);
      VariantReads(before, cases[0], sel);
      ArmsRead(cases[1..], sel, before + [cases[0]]);
      assert Arms(cases, sel)[1..] == Arms(cases[1..], sel);
    }
  }

  ghost predicate Selects(m: Message, sel: string) {
    m.Plural? ==> forall i | 0 <= i < |m.cases| :: sel !in NameSet(m.cases[i].1)
  }

  lemma {:induction false} FieldCons(f: J.Field, rest: seq<J.Field>, key: string)
    ensures GetField([f] + rest, key) == if f.key == key then Some(f.value) else GetField(rest, key)
    ensures f.key in ["declarations", "selectors", "match"] ==> Unexpected([f] + rest) == Unexpected(rest)
  {
    assert ([f] + rest)[1..] == rest;
  }

  lemma {:induction false} FieldsFound(decls: J.Json, sels: J.Json, arms: J.Json, key: string)
    ensures var fields := PluralFields(decls, sels, arms);
            && Unexpected(fields) == None
            && GetField(fields, key) == (if key == "declarations" then Some(decls)
                                         else if key == "selectors" then Some(sels)
                                         else if key == "match" then Some(arms) else None)
  {
    var a, b, c := J.Field("declarations", decls), J.Field("selectors", sels), J.Field("match", arms);
    FieldCons(a, [b] + ([c] + []), key);
    FieldCons(b, [c] + [], key);
    FieldCons(c, [], key);
  }

  lemma {:induction false} OneSelector(sel: string)
    ensures AsStrings(Some(J.Arr([J.Str(sel)] + []))) == Some([sel])
  {
    StringsCons(sel, []);
    assert [sel] + [] == [sel];
  }

  lemma {:induction false} PluralReadsBack(count: string, cases: seq<(Category, Pattern)>, sel: string,
                                           decls: seq<J.Json>)
    requires IsIdent(sel) && CheckPlaceholder(count) == None && cases != [] && CasesWellFormed(cases, sel)
    requires Strings(decls).Some? && ReadLocal(Strings(decls).value, None) == Ok(Some((sel, count)))
    ensures ReadPlural(PluralFields(J.Arr(decls), J.Arr([J.Str(sel)] + []), J.Obj(Arms(cases, sel))))
         == Ok(Plural(count, cases))
  {
    var d, s, a := J.Arr(decls), J.Arr([J.Str(sel)] + []), J.Obj(Arms(cases, sel));
    FieldsFound(d, s, a, "declarations");
    FieldsFound(d, s, a, "selectors");
    FieldsFound(d, s, a, "match");
    OneSelector(sel);
    assert [] + cases == cases;
    ArmsRead(cases, sel, []);
    ReadPluralOf(PluralFields(d, s, a), Strings(decls).value, sel, count, Arms(cases, sel), cases);
  }

  lemma {:induction false} ReadPluralOf(fields: seq<J.Field>, decls: seq<string>, sel: string, count: string,
                                        arms: seq<J.Field>, cases: seq<(Category, Pattern)>)
    requires Unexpected(fields) == None && AsStrings(GetField(fields, "declarations")) == Some(decls)
    requires ReadLocal(decls, None) == Ok(Some((sel, count))) && CheckPlaceholder(count) == None
    requires AsStrings(GetField(fields, "selectors")) == Some([sel])
    requires GetField(fields, "match") == Some(J.Obj(arms)) && arms != []
    requires ReadVariants(arms, sel, []) == Ok(cases)
    ensures ReadPlural(fields) == Ok(Plural(count, cases))
  {
  }

  /** Every well-formed message is read back from what was written, whatever its inputs are declared
      as and whatever the selector is called. */
  lemma {:induction false} MessageReadsBack(m: Message, sel: string, inputs: seq<string>)
    requires WellFormed(m) && Selects(m, sel) && IsIdent(sel) && forall n | n in inputs :: IsIdent(n)
    ensures ReadMessage(Written(m, sel, inputs)) == Ok(m)
  {
    match m
    case Plain(p) =>
      ParseIsBijection(Escape(p), p);
    case Plural(count, cases) =>
      DeclarationsRead(inputs, sel, count);
      PluralReadsBack(count, cases, sel, Declarations(inputs, LocalText(sel, count)));
  }

  // ---- A whole file

  function InputsOf(m: Message): seq<string> {
    match m
    case Plain(_) => []
    case Plural(count, _) => [count]
  }

  function FieldOfEntry(e: Entry, sel: string): J.Field {
    J.Field(e.key, Written(e.msg, sel, InputsOf(e.msg)))
  }

  function FieldsOf(entries: seq<Entry>, sel: string): seq<J.Field> {
    seq(|entries|, i requires 0 <= i < |entries| =>
      FieldOfEntry(entries[i], sel))
  }

  lemma {:induction false} IdentIsAscii(name: string)
    requires IsIdent(name)
    ensures Utf8.Ascii(name) && Utf8.Valid(name) && Utf8.Ascii("input " + name) && Utf8.Valid("input " + name)
  {
    forall i | 0 <= i < |name|
      ensures name[i] < '\U{80}'
    {
      assert name[i] in name;
    }
    Utf8.AsciiIsValid(name);
    Utf8.AsciiIsValid("input " + name);
  }

  lemma {:induction false} LocalIsAscii(sel: string, count: string)
    requires IsIdent(sel) && IsIdent(count)
    ensures Utf8.Valid(LocalText(sel, count))
  {
    IdentIsAscii(sel);
    IdentIsAscii(count);
    Utf8.AsciiIsValid(LocalText(sel, count));
  }

  lemma {:induction false} ArmIsAscii(sel: string, c: Category)
    requires IsIdent(sel)
    ensures Utf8.Valid(sel + ("=" + CategoryText(c)))
  {
    IdentIsAscii(sel);
    Utf8.AsciiIsValid(sel + ("=" + CategoryText(c)));
  }

  lemma {:induction false} ListsAreAscii(inputs: seq<string>, sel: string, count: string, i: nat)
    requires IsIdent(sel) && IsIdent(count) && (forall n | n in inputs :: IsIdent(n))
    requires i < |Declarations(inputs, LocalText(sel, count))|
    ensures JsonPrinter.Printable(Declarations(inputs, LocalText(sel, count))[i])
  {
    if inputs == [] {
      LocalIsAscii(sel, count);
    } else if i == 0 {
      IdentIsAscii(inputs[0]);
    } else {
      ListsAreAscii(inputs[1..], sel, count, i - 1);
    }
  }

  /** The texts of a message are well-formed UTF-8, as every Rust string is. */
  ghost predicate TextsValid(m: Message) {
    match m
    case Plain(p) => Utf8.Valid(Escape(p))
    case Plural(_, cases) => forall i | 0 <= i < |cases| :: Utf8.Valid(Escape(cases[i].1))
  }

  lemma {:induction false} ArmsAre(cases: seq<(Category, Pattern)>, sel: string)
    ensures |Arms(cases, sel)| == |cases|
    ensures forall i | 0 <= i < |cases| ::
              Arms(cases, sel)[i] == J.Field(sel + ("=" + CategoryText(cases[i].0)), J.Str(Escape(cases[i].1)))
  {
    if cases != [] {
      ArmsAre(cases[1..], sel);
      assert forall i | 0 < i < |cases| :: cases[i] == cases[1..][i - 1];
      assert forall i | 0 < i < |cases| :: Arms(cases, sel)[i] == Arms(cases[1..], sel)[i - 1];
    }
  }

  lemma {:induction false} ArmKeysDiffer(sel: string, a: Category, b: Category)
    requires a != b
    ensures sel + ("=" + CategoryText(a)) != sel + ("=" + CategoryText(b))
  {
    CategoryTextReads(a, CategoryText(a));
    CategoryTextReads(b, CategoryText(b));
    Behind(sel, "=" + CategoryText(a));
    Behind(sel, "=" + CategoryText(b));
    Behind("=", CategoryText(a));
    Behind("=", CategoryText(b));
  }

  lemma {:induction false} ArmsPrintable(cases: seq<(Category, Pattern)>, sel: string)
    requires IsIdent(sel)
    requires forall i | 0 <= i < |cases| :: Utf8.Valid(Escape(cases[i].1))
    requires forall i, j | 0 <= i < j < |cases| :: cases[i].0 != cases[j].0
    ensures JsonPrinter.Printable(J.Obj(Arms(cases, sel)))
  {
    ArmsAre(cases, sel);
    var arms := Arms(cases, sel);
    forall i | 0 <= i < |arms|
      ensures Utf8.Valid(arms[i].key) && JsonPrinter.Printable(arms[i].value)
    {
      ArmIsAscii(sel, cases[i].0);
    }
    forall i, j | 0 <= i < j < |arms|
      ensures arms[i].key != arms[j].key
    {
      ArmKeysDiffer(sel, cases[i].0, cases[j].0);
    }
  }

  lemma {:induction false} ThreePrintable(fields: seq<J.Field>, a: J.Field, b: J.Field, c: J.Field)
    requires fields == [a] + ([b] + ([c] + []))
    requires a.key != b.key && a.key != c.key && b.key != c.key
    requires Utf8.Valid(a.key) && Utf8.Valid(b.key) && Utf8.Valid(c.key)
    requires JsonPrinter.Printable(a.value) && JsonPrinter.Printable(b.value) && JsonPrinter.Printable(c.value)
    ensures JsonPrinter.Printable(J.Obj(fields))
  {
    assert fields == [a, b, c];
  }

  lemma {:induction false} FieldsPrintable(fields: seq<J.Field>, a: J.Field, b: J.Field, c: J.Field)
    requires a.key == "declarations" && b.key == "selectors" && c.key == "match"
    requires fields == [a] + ([b] + ([c] + []))
    requires JsonPrinter.Printable(a.value) && JsonPrinter.Printable(b.value) && JsonPrinter.Printable(c.value)
    ensures JsonPrinter.Printable(J.Obj(fields))
  {
    MessageWords.WordsAreValid(a.key);
    MessageWords.WordsAreValid(b.key);
    MessageWords.WordsAreValid(c.key);
    ThreePrintable(fields, a, b, c);
  }

  lemma {:induction false} OnePrintable(v: J.Json)
    requires JsonPrinter.Printable(v)
    ensures JsonPrinter.Printable(J.Arr([v])) && JsonPrinter.Printable(J.Arr([v] + []))
  {
  }

  lemma {:induction false} WrittenIsPrintable(m: Message, sel: string, inputs: seq<string>)
    requires WellFormed(m) && TextsValid(m) && IsIdent(sel) && forall n | n in inputs :: IsIdent(n)
    ensures JsonPrinter.Printable(Written(m, sel, inputs))
  {
    match m
    case Plain(_) =>
    case Plural(count, cases) =>
      var decls := Declarations(inputs, LocalText(sel, count));
      forall i | 0 <= i < |decls|
        ensures JsonPrinter.Printable(decls[i])
      {
        ListsAreAscii(inputs, sel, count, i);
      }
      IdentIsAscii(sel);
      OnePrintable(J.Str(sel));
      ArmsPrintable(cases, sel);
      var fields := PluralFields(J.Arr(decls), J.Arr([J.Str(sel)] + []), J.Obj(Arms(cases, sel)));
      FieldsPrintable(fields, J.Field("declarations", J.Arr(decls)), J.Field("selectors", J.Arr([J.Str(sel)] + [])),
                      J.Field("match", J.Obj(Arms(cases, sel))));
      OnePrintable(J.Obj(fields));
  }

  ghost predicate Writable(e: Entry, sel: string) {
    ValidKey(e.key) && Utf8.Valid(e.key) && WellFormed(e.msg) && TextsValid(e.msg) && Selects(e.msg, sel)
  }

  lemma {:induction false} EntryReadsBack(e: Entry, sel: string)
    requires Writable(e, sel) && IsIdent(sel)
    ensures ReadField(FieldOfEntry(e, sel)) == ([e], [])
    ensures JsonPrinter.Printable(Written(e.msg, sel, InputsOf(e.msg)))
  {
    MessageReadsBack(e.msg, sel, InputsOf(e.msg));
    WrittenIsPrintable(e.msg, sel, InputsOf(e.msg));
  }

  lemma {:induction false} EntriesReadBack(entries: seq<Entry>, sel: string)
    requires IsIdent(sel) && forall i | 0 <= i < |entries| :: Writable(entries[i], sel)
    ensures ReadFields(FieldsOf(entries, sel)) == (entries, [])
    decreases |entries|
  {
    if entries != [] {
      var last := |entries| - 1;
      EntriesReadBack(entries[..last], sel);
      EntryReadsBack(entries[last], sel);
      FieldsOfLast(entries, sel);
      LastField(FieldsOf(entries, sel), FieldsOf(entries[..last], sel), entries[..last], entries[last]);
    }
  }

  lemma {:induction false} FieldsOfLast(entries: seq<Entry>, sel: string)
    requires entries != []
    ensures var last := |entries| - 1;
            && FieldsOf(entries, sel)[..last] == FieldsOf(entries[..last], sel)
            && FieldsOf(entries, sel)[last] == FieldOfEntry(entries[last], sel)
            && entries[..last] + [entries[last]] == entries
  {
  }

  lemma {:induction false} LastField(fields: seq<J.Field>, front: seq<J.Field>, before: seq<Entry>, e: Entry)
    requires fields != [] && fields[..|fields| - 1] == front && ReadFields(front) == (before, [])
    requires ReadField(fields[|fields| - 1]) == ([e], [])
    ensures ReadFields(fields) == (before + [e], [])
  {
    var none: seq<FileProblem> := [];
    assert none + none == none;
  }

  /** A message file written from well-formed messages and printed is read back as those messages,
      with nothing to complain about. */
  lemma {:induction false} FileReadsBack(lang: string, entries: seq<Entry>, sel: string)
    requires ValidLang(lang) && IsIdent(sel)
    requires forall i | 0 <= i < |entries| :: Writable(entries[i], sel)
    requires forall i, j | 0 <= i < j < |entries| :: entries[i].key != entries[j].key
    ensures FileOf(lang, JsonPrinter.Pretty(J.Obj(FieldsOf(entries, sel)))) == (File(lang, entries), [])
  {
    var fields := FieldsOf(entries, sel);
    FieldsOfPrintable(entries, sel);
    JsonPrinter.ParseUndoesPretty(J.Obj(fields));
    EntriesReadBack(entries, sel);
    FileFrom(lang, JsonPrinter.Pretty(J.Obj(fields)), fields);
  }

  lemma {:induction false} FileFrom(lang: string, src: string, fields: seq<J.Field>)
    requires ValidLang(lang) && J.Parse(src) == Ok(J.Obj(fields))
    ensures FileOf(lang, src) == (File(lang, ReadFields(fields).0), ReadFields(fields).1)
  {
  }

  lemma {:induction false} FieldsOfPrintable(entries: seq<Entry>, sel: string)
    requires IsIdent(sel) && forall i | 0 <= i < |entries| :: Writable(entries[i], sel)
    requires forall i, j | 0 <= i < j < |entries| :: entries[i].key != entries[j].key
    ensures JsonPrinter.Printable(J.Obj(FieldsOf(entries, sel)))
  {
    var fields := FieldsOf(entries, sel);
    forall i | 0 <= i < |fields|
      ensures Utf8.Valid(fields[i].key) && JsonPrinter.Printable(fields[i].value)
    {
      EntryReadsBack(entries[i], sel);
    }
  }

  // ---- The languages

  datatype LocalesError =
    | NoSource
    | NoShipped
    | NoFallback
    | BadFallback
    | NotALanguage(tag: string)
    | NotShipped(from: string, to: string)

  datatype Languages = Languages(source: string, shipped: seq<string>, fallback: seq<(string, string)>)

  function FieldOf(v: J.Json, key: string): Option<J.Json> {
    if v.Obj? then GetField(v.fields, key) else None
  }

  function Pairs(fields: seq<J.Field>): Option<seq<(string, string)>> {
    if fields == [] then Some([])
    else if !fields[0].value.Str? then None
    else
      match Pairs(fields[1..])
      case None => None
      case Some(rest) => Some([(fields[0].key, fields[0].value.s)] + rest)
  }

  /** The first of `tags` that is not a language tag. */
  function FirstBad(tags: seq<string>): (r: Option<string>)
    ensures r == None <==> forall i | 0 <= i < |tags| :: ValidLang(tags[i])
  {
    if tags == [] then None else if !ValidLang(tags[0]) then Some(tags[0]) else FirstBad(tags[1..])
  }

  function FirstUnshipped(fallback: seq<(string, string)>, shipped: seq<string>): (r: Option<(string, string)>)
    ensures r == None <==> forall i | 0 <= i < |fallback| :: fallback[i].1 in shipped
  {
    if fallback == [] then None
    else if fallback[0].1 !in shipped then Some(fallback[0])
    else FirstUnshipped(fallback[1..], shipped)
  }

  /** `retain`: all but the source. */
  function Without(tags: seq<string>, source: string): seq<string> {
    if tags == [] then [] else (if tags[0] == source then [] else [tags[0]]) + Without(tags[1..], source)
  }

  function Locales(v: J.Json): Result<Languages, LocalesError> {
    var source := FieldOf(v, "source");
    if source == None || !source.value.Str? then Err(NoSource)
    else
      var shipped := AsStrings(FieldOf(v, "shipped"));
      if shipped == None then Err(NoShipped)
      else
        var fallback := FieldOf(v, "fallback");
        if fallback == None || !fallback.value.Obj? then Err(NoFallback)
        else
          var pairs := Pairs(fallback.value.fields);
          if pairs == None then Err(BadFallback)
          else
            var bad := FirstBad(shipped.value + [source.value.s]);
            var out := FirstUnshipped(pairs.value, shipped.value);
            if bad.Some? then Err(NotALanguage(bad.value))
            else if out.Some? then Err(NotShipped(out.value.0, out.value.1))
            else
              Ok(Languages(source.value.s, [source.value.s] + Without(shipped.value, source.value.s), pairs.value))
  }

  lemma {:induction false} WithoutIs(tags: seq<string>, source: string, tag: string)
    ensures tag in Without(tags, source) <==> tag in tags && tag != source
  {
    if tags != [] {
      WithoutIs(tags[1..], source, tag);
      assert tag in tags <==> tag == tags[0] || tag in tags[1..];
    }
  }

  /** The source ships first and once; every tag is one; every fallback is to a language that is
      shipped. */
  lemma {:induction false} LocalesAreSound(v: J.Json, tag: string)
    requires Locales(v).Ok?
    ensures var l := Locales(v).value;
            && l.shipped != [] && l.shipped[0] == l.source && l.source !in l.shipped[1..]
            && (tag in l.shipped ==> ValidLang(tag))
            && (forall i | 0 <= i < |l.fallback| :: l.fallback[i].1 in l.shipped)
  {
    var l := Locales(v).value;
    var shipped := AsStrings(FieldOf(v, "shipped")).value;
    WithoutIs(shipped, l.source, l.source);
    WithoutIs(shipped, l.source, tag);
    assert l.shipped[1..] == Without(shipped, l.source);
    assert (shipped + [l.source])[|shipped|] == l.source;
    if tag in shipped {
      var i :| 0 <= i < |shipped| && shipped[i] == tag;
      assert (shipped + [l.source])[i] == tag;
    }
    forall i | 0 <= i < |l.fallback|
      ensures l.fallback[i].1 in l.shipped
    {
      WithoutIs(shipped, l.source, l.fallback[i].1);
    }
  }

  lemma {:induction false} PairsAre(fields: seq<J.Field>, pairs: seq<(string, string)>)
    ensures Pairs(fields) == Some(pairs) <==> PairFields(fields, pairs)
  {
    if fields != [] && pairs != [] {
      PairsAre(fields[1..], pairs[1..]);
      assert pairs == [pairs[0]] + pairs[1..];
      if Pairs(fields) == Some(pairs) {
        forall i | 0 <= i < |fields|
          ensures fields[i] == J.Field(pairs[i].0, J.Str(pairs[i].1))
        {
          assert i > 0 ==> fields[i] == fields[1..][i - 1] && pairs[i] == pairs[1..][i - 1];
        }
      }
    }
  }

  ghost predicate PairFields(fields: seq<J.Field>, pairs: seq<(string, string)>) {
    |fields| == |pairs| && forall i | 0 <= i < |fields| :: fields[i] == J.Field(pairs[i].0, J.Str(pairs[i].1))
  }

  /** The list of languages without the source, in order. */
  lemma {:induction false} WithoutKeepsOrder(a: seq<string>, b: seq<string>, source: string)
    ensures Without(a + b, source) == Without(a, source) + Without(b, source)
    ensures source !in a ==> Without(a, source) == a
    ensures Without([source], source) == []
  {
    WithoutJoins(a, b, source);
    if source !in a {
      WithoutNone(a, source);
    }
    assert [source][1..] == [];
  }

  lemma {:induction false} WithoutJoins(a: seq<string>, b: seq<string>, source: string)
    ensures Without(a + b, source) == Without(a, source) + Without(b, source)
  {
    if a == [] {
      assert a + b == b;
    } else {
      WithoutJoins(a[1..], b, source);
      assert (a + b)[0] == a[0] && (a + b)[1..] == a[1..] + b;
      var head := if a[0] == source then [] else [a[0]];
      Regrouped(head, Without(a[1..], source), Without(b, source));
    }
  }

  lemma {:induction false} Regrouped(a: seq<string>, b: seq<string>, c: seq<string>)
    ensures a + (b + c) == a + b + c
  {
  }

  lemma {:induction false} WithoutNone(a: seq<string>, source: string)
    requires source !in a
    ensures Without(a, source) == a
  {
    if a != [] {
      assert a[0] in a;
      WithoutNone(a[1..], source);
      assert a == [a[0]] + a[1..];
    }
  }

  /** A file of languages as it may be written. */
  ghost predicate WritesLanguages(fields: seq<J.Field>, l: Languages, shipped: seq<string>, to: seq<J.Field>) {
    && FieldIs(fields, "source", J.Str(l.source)) && HasStrings(fields, "shipped", shipped)
    && FieldIs(fields, "fallback", J.Obj(to)) && PairFields(to, l.fallback)
    && ValidLang(l.source) && (forall i | 0 <= i < |shipped| :: ValidLang(shipped[i]))
    && (forall i | 0 <= i < |l.fallback| :: l.fallback[i].1 in shipped)
    && l.shipped == [l.source] + Without(shipped, l.source)
  }

  /** The languages are read exactly when they are so written. */
  lemma {:induction false} LocalesAreRead(fields: seq<J.Field>, l: Languages)
    ensures Locales(J.Obj(fields)) == Ok(l) <==> exists shipped, to :: WritesLanguages(fields, l, shipped, to)
  {
    if Locales(J.Obj(fields)) == Ok(l) {
      var shipped, to := ReadLocalesWritten(fields, l);
    }
    if shipped, to :| WritesLanguages(fields, l, shipped, to) {
      WrittenLocalesRead(fields, l, shipped, to);
    }
  }

  lemma {:induction false} ReadLocalesWritten(fields: seq<J.Field>, l: Languages)
    returns (shipped: seq<string>, to: seq<J.Field>)
    requires Locales(J.Obj(fields)) == Ok(l)
    ensures WritesLanguages(fields, l, shipped, to)
  {
    shipped := AsStrings(GetField(fields, "shipped")).value;
    to := GetField(fields, "fallback").value.fields;
    TagsValid(shipped, l.source);
    LocaleFields(fields, l, shipped, to);
  }

  lemma {:induction false} WrittenLocalesRead(fields: seq<J.Field>, l: Languages, shipped: seq<string>, to: seq<J.Field>)
    requires WritesLanguages(fields, l, shipped, to)
    ensures Locales(J.Obj(fields)) == Ok(l)
  {
    LocaleFields(fields, l, shipped, to);
    TagsValid(shipped, l.source);
    LocalesGive(J.Obj(fields), l.source, shipped, to, l.fallback);
  }

  lemma {:induction false} LocalesGive(v: J.Json, source: string, shipped: seq<string>, to: seq<J.Field>,
                                       fallback: seq<(string, string)>)
    requires FieldOf(v, "source") == Some(J.Str(source)) && AsStrings(FieldOf(v, "shipped")) == Some(shipped)
    requires FieldOf(v, "fallback") == Some(J.Obj(to)) && Pairs(to) == Some(fallback)
    requires FirstBad(shipped + [source]) == None && FirstUnshipped(fallback, shipped) == None
    ensures Locales(v) == Ok(Languages(source, [source] + Without(shipped, source), fallback))
  {
  }

  lemma {:induction false} LocaleFields(fields: seq<J.Field>, l: Languages, shipped: seq<string>, to: seq<J.Field>)
    ensures GetField(fields, "source") == Some(J.Str(l.source)) <==> FieldIs(fields, "source", J.Str(l.source))
    ensures AsStrings(GetField(fields, "shipped")) == Some(shipped) <==> HasStrings(fields, "shipped", shipped)
    ensures GetField(fields, "fallback") == Some(J.Obj(to)) <==> FieldIs(fields, "fallback", J.Obj(to))
    ensures Pairs(to) == Some(l.fallback) <==> PairFields(to, l.fallback)
  {
    GetFieldIs(fields, "source", J.Str(l.source));
    HasStringsIs(fields, "shipped", shipped);
    GetFieldIs(fields, "fallback", J.Obj(to));
    PairsAre(to, l.fallback);
  }

  lemma {:induction false} TagsValid(tags: seq<string>, source: string)
    ensures FirstBad(tags + [source]) == None <==> ValidLang(source) && forall i | 0 <= i < |tags| :: ValidLang(tags[i])
  {
    var all := tags + [source];
    assert all[|tags|] == source && forall i | 0 <= i < |tags| :: all[i] == tags[i];
  }

  // ---- The catalogue

  /** A part's texts: its source file and its translations by language. */
  datatype PartText = PartText(name: string, tsOnly: bool, source: string, translations: seq<(string, string)>)

  function PartOf(lang: string, text: PartText): Part {
    Part(text.name, text.tsOnly, FileOf(lang, text.source).0,
         seq(|text.translations|, i requires 0 <= i < |text.translations| =>
           FileOf(text.translations[i].0, text.translations[i].1).0))
  }

  function CatalogOf(languages: Languages, always: seq<string>, texts: seq<PartText>): Catalog {
    Catalog(languages.source, languages.shipped, always,
            seq(|texts|, i requires 0 <= i < |texts| => PartOf(languages.source, texts[i])))
  }

  /** Whatever the files hold, the catalogue read from them is well formed: what compilation asks of
      a catalogue, the readers give. */
  lemma {:induction false} CatalogIsWellFormed(locales: J.Json, always: seq<string>, texts: seq<PartText>)
    requires Locales(locales).Ok?
    ensures CatalogWellFormed(CatalogOf(Locales(locales).value, always, texts))
  {
    var languages := Locales(locales).value;
    LocalesAreSound(locales, "");
    var cat := CatalogOf(languages, always, texts);
    forall part | part in cat.parts
      ensures PartWellFormed(part) && part.source.lang == cat.source
    {
      var i :| 0 <= i < |texts| && part == PartOf(languages.source, texts[i]);
      PartIsWellFormed(languages.source, texts[i]);
    }
  }

  lemma {:induction false} PartIsWellFormed(lang: string, text: PartText)
    ensures PartWellFormed(PartOf(lang, text)) && PartOf(lang, text).source.lang == lang
  {
    FileIsWellFormed(lang, text.source);
    forall f | f in PartOf(lang, text).translations
      ensures FileWellFormed(f)
    {
      var i :| 0 <= i < |text.translations| && f == FileOf(text.translations[i].0, text.translations[i].1).0;
      FileIsWellFormed(text.translations[i].0, text.translations[i].1);
    }
  }
}
