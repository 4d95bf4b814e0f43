/** What a message means, read straight from its parsed form, and the proof that compiling,
    packing, finding the variant and filling the stored body give that text. */
module Meaning {
  import opened Wrappers
  import opened Text
  import opened Plural
  import opened Pattern
  import opened Messages
  import opened Packing
  import opened Reader

  type Values = string -> Option<string>

  /** The pattern with every placeholder that has a value replaced by it. */
  function Substitute(p: Pattern, values: Values): Pattern {
    if p == [] then []
    else
      var head := match p[0]
        case Text(t) => p[0]
        case Arg(n) => if values(n).Some? then Text(values(n).value) else p[0];
      [head] + Substitute(p[1..], values)
  }

  /** A pattern's text under values by name: it is displayed with the values in, and a placeholder
      without one as it is written. */
  function Interpret(p: Pattern, values: Values): string {
    Display(Substitute(p, values))
  }

  lemma {:induction false} InterpretFirst(p: Pattern, values: Values)
    requires p != []
    ensures Interpret(p, values)
         == (match p[0] case Text(t) => t case Arg(n) => if values(n).Some? then values(n).value else "{" + n + "}")
            + Interpret(p[1..], values)
  {
    var rest := Substitute(p[1..], values);
    assert Substitute(p, values)[1..] == rest;
  }

  lemma {:induction false} NothingSubstituted(p: Pattern, values: Values)
    requires forall n | n in NameSet(p) :: values(n) == None
    ensures Substitute(p, values) == p
  {
    if p != [] {
      NothingSubstituted(p[1..], values);
    }
  }

  /** The pattern `msg` reads in `lang` for `count`: its only one, or the variant of the count's
      category, else of `other`. */
  function Choose(lang: string, msg: Message, count: Option<nat>): Option<Pattern> {
    match msg
    case Plain(p) => Some(p)
    case Plural(_, cases) =>
      var want := if count.Some? then CategoryOf(lang, count.value) else Other;
      var found := CaseFor(cases, want);
      if found.Some? then found else CaseFor(cases, Other)
  }

  function ChooseFrom(lang: string, msg: Option<Message>, count: Option<nat>): Option<Pattern> {
    match msg
    case None => None
    case Some(m) => Choose(lang, m, count)
  }

  /** The pattern a message reads: its own language's, else English, else nothing. */
  function Chosen(lang: string, own: Option<Message>, english: string, source: Option<Message>,
                  count: Option<nat>): Pattern {
    var mine := ChooseFrom(lang, own, count);
    var theirs := ChooseFrom(english, source, count);
    if mine.Some? then mine.value else if theirs.Some? then theirs.value else []
  }

  /** Values by name, from arguments by index. */
  function ByName(args: seq<string>, arg: nat -> Option<string>): Values {
    (n: string) => match Position(args, n) case None => None case Some(i) => arg(i)
  }

  // ---- One variant

  lemma {:induction false} RenderText(t: string, rest: string, names: seq<string>, arg: nat -> Option<string>)
    requires ARG !in t
    ensures Render(t + rest, names, arg) == Prepend(t, Render(rest, names, arg))
  {
    FindSkips(t, rest, ARG);
    var at := Find(rest, ARG);
    if at < |rest| {
      assert (t + rest)[..|t| + at] == t + rest[..at];
      assert (t + rest)[|t| + at..] == rest[at..];
      PrependTwice(t, rest[..at], RenderPlaceholder(rest[at..], names, arg));
    }
  }

  lemma {:induction false} PlaceholderShows(n: nat, rest: string, names: seq<string>, arg: nat -> Option<string>)
    requires n < 64 && n < |names|
    ensures RenderPlaceholder([ARG, IndexChar(n)] + rest, names, arg)
         == Prepend(Show(names[n], arg(n)), Render(rest, names, arg))
  {
    var body := [ARG, IndexChar(n)] + rest;
    assert body[1] == IndexChar(n) && body[2..] == rest;
  }

  lemma {:induction false} RenderMark(body: string, names: seq<string>, arg: nat -> Option<string>)
    requires body != "" && body[0] == ARG
    ensures Render(body, names, arg) == RenderPlaceholder(body, names, arg)
  {
    assert Find(body, ARG) == 0 && body[..0] == "" && body[0..] == body;
    PrependTwice("", "", RenderPlaceholder(body, names, arg));
  }

  lemma {:induction false} RenderArg(n: nat, rest: string, names: seq<string>, arg: nat -> Option<string>)
    requires n < 64 && n < |names|
    ensures Render([ARG, IndexChar(n)] + rest, names, arg)
         == Prepend(Show(names[n], arg(n)), Render(rest, names, arg))
  {
    RenderMark([ARG, IndexChar(n)] + rest, names, arg);
    PlaceholderShows(n, rest, names, arg);
  }

  /** Filling a packed variant interprets the pattern it came from, and never panics. */
  lemma {:induction false} RenderInterprets(p: Pattern, args: seq<string>, arg: nat -> Option<string>)
    requires IndexPattern(p, args).Ok? && PackIx(IndexPattern(p, args).value).Ok?
    ensures Render(PackIx(IndexPattern(p, args).value).value, args, arg)
         == Some(Interpret(p, ByName(args, arg)))
  {
    if p != [] {
      RenderInterprets(p[1..], args, arg);
      InterpretFirst(p, ByName(args, arg));
      var ix := IndexPattern(p, args).value;
      var rest := PackIx(ix[1..]).value;
      assert ix[1..] == IndexPattern(p[1..], args).value;
      match ix[0]
      case IxText(t) =>
        RenderText(t, rest, args, arg);
      case IxArg(n) =>
        RenderArg(n, rest, args, arg);
    }
  }

  /** A packed pattern filled with nothing reads as the pattern is displayed. */
  lemma {:induction false} RenderUnfilled(p: Pattern, args: seq<string>, arg: nat -> Option<string>)
    requires IndexPattern(p, args).Ok? && PackIx(IndexPattern(p, args).value).Ok? && forall i: nat :: arg(i) == None
    ensures Render(PackIx(IndexPattern(p, args).value).value, args, arg) == Some(Display(p))
  {
    RenderInterprets(p, args, arg);
    forall n | n in NameSet(p)
      ensures ByName(args, arg)(n) == None
    {
      var at := Position(args, n);
      if at.Some? {
        assert arg(at.value) == None;
      }
    }
    NothingSubstituted(p, ByName(args, arg));
  }

  // ---- The variants of a plural

  lemma {:induction false} FindCaseStep(first: char, head: string, rest: string, tag: char)
    requires first != CASE && CASE !in head && (rest != "" ==> rest[0] == CASE)
    ensures FindCase([first] + head + rest, tag)
         == if first == tag then Some(head)
            else if rest == "" then None
            else FindCase(rest[1..], tag)
  {
    var s := [first] + head + rest;
    FindSkips([first] + head, rest, CASE);
    assert s[1..|head| + 1] == head;
    assert rest != "" ==> s[|head| + 2..] == rest[1..];
  }

  lemma {:induction false} PackCasesCons(cases: seq<(Category, seq<Ix>)>)
    requires cases != [] && PackCases(cases).Ok?
    ensures PackIx(cases[0].1).Ok? && PackCases(cases[1..]).Ok?
    ensures CASE !in PackIx(cases[0].1).value
    ensures PackCases(cases).value != ""
         && PackCases(cases).value[0] == CASE
         && PackCases(cases).value[1..]
            == [Tag(cases[0].0)] + PackIx(cases[0].1).value + PackCases(cases[1..]).value
  {
    PackIxFacts(cases[0].1);
  }

  /** Cutting the stored variants apart finds exactly the variant the plural has. */
  lemma {:induction false} FindCasePacked(cases: seq<(Category, seq<Ix>)>, c: Category)
    requires cases != [] && PackCases(cases).Ok?
    ensures match CaseFor(cases, c)
            case None => FindCase(PackCases(cases).value[1..], Tag(c)) == None
            case Some(ix) =>
              && PackIx(ix).Ok?
              && FindCase(PackCases(cases).value[1..], Tag(c)) == Some(PackIx(ix).value)
    decreases |cases|
  {
    var rest := cases[1..];
    PackCasesCons(cases);
    if rest != [] {
      PackCasesCons(rest);
      FindCasePacked(rest, c);
    }
    FindCaseStep(Tag(cases[0].0), PackIx(cases[0].1).value, PackCases(rest).value, Tag(c));
    assert Tag(cases[0].0) == Tag(c) <==> cases[0].0 == c;
  }

  // ---- One message in one language

  /** `body` is what the build stores for `msg` under the English message `en`; nothing when the
      language lacks it. */
  ghost predicate Stores(body: string, en: Message, msg: Option<Message>) {
    match msg
    case None => body == ""
    case Some(m) => Compile(en, m).Ok? && Packed(Compile(en, m).value) == Ok(body)
  }

  lemma {:induction false} PackedNonempty(p: Pattern, args: seq<string>)
    requires p != [] && Normal(p)
    requires IndexPattern(p, args).Ok? && PackIx(IndexPattern(p, args).value).Ok?
    ensures PackIx(IndexPattern(p, args).value).value != ""
    ensures CASE !in PackIx(IndexPattern(p, args).value).value
  {
    var ix := IndexPattern(p, args).value;
    IndexWithin(p, args);
    PackIxFacts(ix);
    assert ix[0].IxArg? || ix[0].text != "";
  }

  /** What a pack holds for a message reads as the packed form of the pattern it means. */
  lemma {:induction false} ReadPackChooses(pack: Pack, ix: nat, en: Message, msg: Option<Message>,
                                           count: Option<nat>)
    requires pack.Valid() && ix < |pack.ends|
    requires Stores(pack.Body(ix), en, msg)
    requires msg.Some? ==> WellFormed(msg.value)
    ensures ReadPack(pack, ix, count).Some? == ChooseFrom(pack.lang, msg, count).Some?
    ensures ReadPack(pack, ix, count).Some? ==>
              var p := ChooseFrom(pack.lang, msg, count).value;
              && IndexPattern(p, Args(en)).Ok?
              && PackIx(IndexPattern(p, Args(en)).value) == Ok(ReadPack(pack, ix, count).value)
  {
    if msg.Some? {
      var args := Args(en);
      match msg.value
      case Plain(p) =>
        PackedNonempty(p, args);
      case Plural(_, cases) =>
        var compiled := IndexCases(cases, args).value;
        assert compiled != [];
        var want := if count.Some? then CategoryOf(pack.lang, count.value) else Other;
        FindCasePacked(compiled, want);
        FindCasePacked(compiled, Other);
        IndexCasesFor(cases, args, want);
        IndexCasesFor(cases, args, Other);
    }
  }

  /** The message reference the build writes for `en`, at any index. */
  ghost predicate RefersTo(m: MessageRef, en: Message) {
    && m.args == Args(en)
    && m.count == match en case Plain(_) => None case Plural(count, _) => Position(Args(en), count)
  }

  /** Finding a variant and filling it gives the text the source message means, whatever the
      arguments: compilation preserves meaning, one message at a time. */
  lemma {:induction false} VariantMeans(m: MessageRef, packs: seq<Pack>, lang: nat, count: Option<nat>,
                                        arg: nat -> Option<string>, en: Message, own: Option<Message>,
                                        source: Option<Message>)
    requires ValidFor(m, packs) && RefersTo(m, en) && lang < |packs|
    requires own.Some? ==> WellFormed(own.value)
    requires source.Some? ==> WellFormed(source.value)
    requires Stores(packs[lang].Body(m.ix), en, own)
    requires Stores(packs[0].Body(m.ix), en, source)
    ensures Render(Variant(m, packs, lang, count), m.args, arg)
         == Some(Interpret(Chosen(packs[lang].lang, own, packs[0].lang, source, count), ByName(m.args, arg)))
  {
    ReadPackChooses(packs[lang], m.ix, en, own, count);
    ReadPackChooses(packs[0], m.ix, en, source, count);
    var p := Chosen(packs[lang].lang, own, packs[0].lang, source, count);
    if p != [] {
      RenderInterprets(p, m.args, arg);
    }
  }
}
