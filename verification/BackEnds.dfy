/** Three back ends, one meaning: the packed Rust body, the Apple catalogue entry and the Android
    resource of one compiled message give the same text, and exactly when the last does not. */
module BackEnds {
  import opened Wrappers
  import opened Text
  import opened Plural
  import opened Pattern
  import opened Messages
  import opened Packing
  import opened Reader
  import opened Meaning
  import opened Build
  import opened Check
  import Apple
  import Android

  // ---- Android's resources

  datatype Resource = StringResource(text: string) | Plurals(items: seq<(Category, string)>)

  predicate HasArg(ix: seq<Ix>) {
    exists i | 0 <= i < |ix| :: ix[i].IxArg?
  }

  function Items(cases: seq<(Category, seq<Ix>)>, count: Option<nat>): seq<(Category, string)> {
    seq(|cases|, i requires 0 <= i < |cases| => (cases[i].0, Android.ResourceText(cases[i].1, count, true)))
  }

  /** A plain message is formatted when this language shows an argument, a plural always. */
  function ResourceOf(c: Compiled, count: Option<nat>): Resource {
    match c
    case CPlain(ix) => StringResource(Android.ResourceText(ix, count, HasArg(ix)))
    case CPlural(cases) => Plurals(Items(SortCases(cases, Number), count))
  }

  function FormatResource(text: string, args: seq<string>): Option<string> {
    match Android.ReadResource(text)
    case None => None
    case Some(s) => Android.JavaFormat(s, args)
  }

  /** What the generated call reads: a string goes through the formatter when the call passes
      arguments, that is when English has some; a plural always does. */
  function ReadAndroid(r: Resource, cat: Category, args: seq<string>): Option<string> {
    match r
    case StringResource(text) => if args == [] then Android.ReadResource(text) else FormatResource(text, args)
    case Plurals(items) =>
      var own := CaseFor(items, cat);
      var item := if own.Some? then own else CaseFor(items, Other);
      match item
      case None => None
      case Some(text) => FormatResource(text, args)
  }

  lemma {:induction false} ItemsFor(cases: seq<(Category, seq<Ix>)>, count: Option<nat>, c: Category)
    ensures CaseFor(Items(cases, count), c)
         == match CaseFor(cases, c)
            case None => None
            case Some(ix) => Some(Android.ResourceText(ix, count, true))
  {
    if cases != [] {
      ItemsFor(cases[1..], count, c);
      assert Items(cases, count)[1..] == Items(cases[1..], count);
    }
  }

  // ---- Android reads the compiled pattern

  lemma {:induction false} FillText(t: string, atoms: seq<Android.Atom>, args: seq<string>)
    ensures Android.FillAtoms(Android.TextAtoms(t) + atoms, args) == Before(t, Android.FillAtoms(atoms, args))
  {
    var all := Android.TextAtoms(t) + atoms;
    if t == "" {
      assert all == atoms;
      assert Android.FillAtoms(atoms, args).Some? ==>
          "" + Android.FillAtoms(atoms, args).value == Android.FillAtoms(atoms, args).value;
    } else {
      assert all[1..] == Android.TextAtoms(t[1..]) + atoms;
      FillText(t[1..], atoms, args);
      if Android.FillAtoms(atoms, args).Some? {
        assert [t[0]] + (t[1..] + Android.FillAtoms(atoms, args).value) == t + Android.FillAtoms(atoms, args).value;
      }
    }
  }

  lemma {:induction false} FillInterpolates(ix: seq<Ix>, count: Option<nat>, args: seq<string>)
    ensures Android.FillAtoms(Android.Atoms(ix, count), args) == Interpolate(ix, args)
  {
    if ix != [] {
      FillInterpolates(ix[1..], count, args);
      match ix[0]
      case IxText(t) =>
        FillText(t, Android.Atoms(ix[1..], count), args);
      case IxArg(n) =>
        assert Android.Atoms(ix, count)[1..] == Android.Atoms(ix[1..], count);
    }
  }

  predicate Carried(ix: seq<Ix>) {
    Android.AllCarried(Android.Atoms(ix, None))
  }

  lemma {:induction false} CarriedAnyCount(ix: seq<Ix>, count: Option<nat>)
    ensures Android.AllCarried(Android.Atoms(ix, count)) == Carried(ix)
  {
    if ix != [] {
      CarriedAnyCount(ix[1..], count);
      CarriedCons(ix, count);
      CarriedCons(ix, None);
    }
  }

  lemma {:induction false} CarriedCons(ix: seq<Ix>, count: Option<nat>)
    requires ix != []
    ensures Android.AllCarried(Android.Atoms(ix, count))
         == ((ix[0].IxText? ==> Android.AllCarried(Android.TextAtoms(ix[0].text)))
             && Android.AllCarried(Android.Atoms(ix[1..], count)))
  {
    var head := match ix[0] case IxText(t) => Android.TextAtoms(t) case IxArg(n) => [Android.Spec(n, count == Some(n))];
    var tail := Android.Atoms(ix[1..], count);
    assert Android.Atoms(ix, count) == head + tail;
    Android.AllCarriedConcat(head, tail);
  }

  lemma {:induction false} FormattedReads(ix: seq<Ix>, count: Option<nat>, args: seq<string>)
    requires Carried(ix)
    ensures FormatResource(Android.ResourceText(ix, count, true), args) == Interpolate(ix, args)
  {
    CarriedAnyCount(ix, count);
    var atoms := Android.Atoms(ix, count);
    Android.EscapingIsExact(atoms, true);
    Android.FormatReadsAtoms(atoms, 0);
    assert atoms[0..] == atoms;
    FillInterpolates(ix, count, args);
  }

  // ---- A plain text without arguments

  function Joined(ix: seq<Ix>): string
    requires !HasArg(ix)
  {
    if ix == [] then ""
    else
      assert forall i | 0 <= i < |ix| :: !ix[i].IxArg?;
      ix[0].text + Joined(ix[1..])
  }

  lemma {:induction false} AtomsOfJoined(ix: seq<Ix>, count: Option<nat>, args: seq<string>)
    requires !HasArg(ix)
    ensures Android.Atoms(ix, count) == Android.TextAtoms(Joined(ix))
    ensures Interpolate(ix, args) == Some(Joined(ix))
  {
    if ix != [] {
      assert forall i | 0 <= i < |ix| :: !ix[i].IxArg?;
      AtomsOfJoined(ix[1..], count, args);
    }
  }

  lemma {:induction false} UnformattedReads(ix: seq<Ix>, count: Option<nat>)
    requires !HasArg(ix) && Carried(ix)
    ensures Android.ReadResource(Android.ResourceText(ix, count, false)) == Some(Joined(ix))
  {
    CarriedAnyCount(ix, count);
    var t := Joined(ix);
    AtomsOfJoined(ix, count, []);
    Android.EscapingIsExact(Android.TextAtoms(t), false);
    Android.RawUnformatted(t, 0);
    assert t[0..] == t;
  }

  lemma {:induction false} FormatWithoutPercent(s: string, args: seq<string>)
    requires '%' !in s
    ensures Android.JavaFormat(s, args) == Some(s)
  {
    if s != "" {
      FormatWithoutPercent(s[1..], args);
      var atoms := Android.ParseFormat(s[1..]).value;
      assert ([Android.Char(s[0])] + atoms)[1..] == atoms;
      assert s == [s[0]] + s[1..];
    }
  }

  /** With empty arguments a formatter only ever shortens, and every `%` costs it a character. */
  lemma {:induction false} FormatShortens(s: string, args: seq<string>)
    requires forall i | 0 <= i < |args| :: args[i] == ""
    ensures Android.JavaFormat(s, args).Some? ==>
              |Android.JavaFormat(s, args).value| <= |s| - (if '%' in s then 1 else 0)
    decreases |s|
  {
    if s != "" && Android.JavaFormat(s, args).Some? {
      var atoms := Android.ParseFormat(s).value;
      var n := if s[0] != '%' then 1 else if s[1] == '%' then 2 else 3 + Digits.DigitRun(s[1..]);
      assert atoms[1..] == Android.ParseFormat(s[n..]).value by {
        assert s[0] == '%' && s[1] != '%' ==> s[1 + Digits.DigitRun(s[1..])..][2..] == s[n..];
      }
      FormatShortens(s[n..], args);
      assert s == s[..n] + s[n..];
      assert s[0] != '%' ==> s[..n] == [s[0]];
    }
  }

  /** A translation that shows no argument of a message that takes some is written unformatted
      and formatted all the same: it reads right for every argument exactly when it holds no
      percent sign. */
  lemma {:induction false} UnformattedAgreesIff(ix: seq<Ix>, count: Option<nat>, cat: Category, arity: nat)
    requires !HasArg(ix) && Carried(ix) && arity > 0
    ensures (forall args: seq<string> | |args| == arity ::
               ReadAndroid(ResourceOf(CPlain(ix), count), cat, args) == Interpolate(ix, args))
            <==> '%' !in Joined(ix)
  {
    UnformattedReads(ix, count);
    var r := ResourceOf(CPlain(ix), count);
    if '%' in Joined(ix) {
      var none: seq<string> := seq(arity, _ => "");
      AtomsOfJoined(ix, count, none);
      FormatShortens(Joined(ix), none);
      assert ReadAndroid(r, cat, none) != Interpolate(ix, none);
    } else {
      forall args: seq<string> | |args| == arity
        ensures ReadAndroid(r, cat, args) == Interpolate(ix, args)
      {
        AtomsOfJoined(ix, count, args);
        FormatWithoutPercent(Joined(ix), args);
      }
    }
  }

  // ---- Messages that compile and do not read right on Android

  lemma {:induction false} OneText(t: string)
    ensures var ix := [IxText(t)]; !HasArg(ix) && Joined(ix) == t && Android.Atoms(ix, None) == Android.TextAtoms(t)
    ensures forall args: seq<string> :: Interpolate([IxText(t)], args) == Some(t)
  {
    var ix := [IxText(t)];
    assert Android.TextAtoms(t) + [] == Android.TextAtoms(t) && t + "" == t;
  }

  lemma {:induction false} OneTextCompiles(name: string, tail: string, t: string)
    ensures var en := Plain([Arg(name), Text(tail)]);
            Args(en) == [name] && Compile(en, Plain([Text(t)])) == Ok(CPlain([IxText(t)]))
  {
    assert PushNames([name], [Text(tail)]) == PushNames([name], []);
    assert PushNames([], [Arg(name), Text(tail)]) == PushNames([] + [name], [Text(tail)]);
    assert IndexPattern([Text(t)], [name]) == Ok([IxText(t)]) by {
      assert IndexPattern([], [name]) == Ok([]) && [IxText(t)] + [] == [IxText(t)];
    }
  }

  lemma {:induction false} HalfIsNoFormat(args: seq<string>)
    ensures Android.JavaFormat("50%", args) == None
  {
    assert "50%"[1..] == "0%" && "0%"[1..] == "%" && "%"[1..] == "";
    assert Android.ParseFormat("%") == None;
    assert Android.ParseFormat("0%") == None;
  }

  /** `{n} left` in English and `50%` in a translation: it compiles, Rust reads it, and Android's
      formatter refuses it whatever the argument is. */
  lemma {:induction false} PercentBreaksAndroid(arg: string)
    ensures var en, c := Plain([Arg("n"), Text(" left")]), CPlain([IxText("50%")]);
            && Args(en) == ["n"] && Compile(en, Plain([Text("50%")])) == Ok(c)
            && Interpolate([IxText("50%")], [arg]) == Some("50%")
            && ReadAndroid(ResourceOf(c, None), Other, [arg]) == None
  {
    var ix := [IxText("50%")];
    OneTextCompiles("n", " left", "50%");
    OneText("50%");
    assert Carried(ix);
    UnformattedReads(ix, None);
    HalfIsNoFormat([arg]);
  }

  /** A text with a carriage return, `a` before and `b` behind it: it compiles, Rust reads it, and
      Android reads something else. */
  lemma {:induction false} ReturnIsLost()
    ensures var msg, ix := Plain([Text("a\rb")]), [IxText("a\rb")];
            && Args(msg) == [] && Compile(msg, msg) == Ok(CPlain(ix))
            && Interpolate(ix, []) == Some("a\rb")
            && ReadAndroid(ResourceOf(CPlain(ix), None), Other, []) != Some("a\rb")
  {
    var ix := [IxText("a\rb")];
    assert [Text("a\rb")][1..] == [] && ix + [] == ix;
    OneText("a\rb");
    var atoms := Android.TextAtoms("a\rb");
    assert atoms[1] == Android.Char('\r') && !Android.Carried(atoms[1]);
    Android.EscapingIsExact(atoms, false);
    Android.RawUnformatted("a\rb", 0);
    assert "a\rb"[0..] == "a\rb";
  }

  // ---- The three together

  /** When Android reads what was compiled: the file carries the characters, and a plain text
      without arguments either is not formatted or has no percent sign. */
  predicate AndroidSafe(ix: seq<Ix>, plain: bool, arity: nat) {
    Carried(ix) && (plain && arity > 0 && !HasArg(ix) ==> '%' !in Joined(ix))
  }

  lemma {:induction false} AndroidReads(c: Compiled, count: Option<nat>, cat: Category, args: seq<string>, ix: seq<Ix>)
    requires ChosenIx(c, cat) == Some(ix) && AndroidSafe(ix, c.CPlain?, |args|)
    requires c.CPlain? && args == [] ==> !HasArg(ix)
    ensures ReadAndroid(ResourceOf(c, count), cat, args) == Interpolate(ix, args)
  {
    match c
    case CPlain(_) =>
      if HasArg(ix) {
        FormattedReads(ix, count, args);
      } else {
        UnformattedReads(ix, count);
        AtomsOfJoined(ix, count, args);
        if args != [] {
          FormatWithoutPercent(Joined(ix), args);
        }
      }
    case CPlural(cases) =>
      var sorted := SortCases(cases, Number);
      CaseForSorted(cases, Number, cat);
      CaseForSorted(cases, Number, Other);
      ItemsFor(sorted, count, cat);
      ItemsFor(sorted, count, Other);
      FormattedReads(ix, count, args);
  }

  lemma {:induction false} AppleReads(c: Compiled, count: Option<nat>, cat: Category, args: seq<string>, ix: seq<Ix>)
    requires ChosenIx(c, cat) == Some(ix)
    requires c.CPlural? ==> count.Some? && count.value < |args|
    requires c.CPlain? && args == [] ==> !HasArg(ix)
    ensures Apple.UnitOf(c, count, args != []).Some?
    ensures Apple.ReadUnit(Apple.UnitOf(c, count, args != []).value, cat, args) == Interpolate(ix, args)
  {
    match c
    case CPlain(_) =>
      if args == [] {
        Apple.UnformattedInterpolates(ix, args);
      } else {
        Apple.FormatInterpolates(ix, None, args, None);
      }
    case CPlural(cases) =>
      ApplePluralReads(cases, count.value, cat, args, ix);
  }

  lemma {:induction false} ApplePluralReads(cases: seq<(Category, seq<Ix>)>, count: nat, cat: Category,
                                            args: seq<string>, ix: seq<Ix>)
    requires ChosenIx(CPlural(cases), cat) == Some(ix) && count < |args|
    ensures var unit := Apple.Substitution(count + 1, Apple.Forms(SortCases(cases, Number), Some(count)));
            Apple.ReadUnit(unit, cat, args) == Interpolate(ix, args)
  {
    FormsRead(cases, Some(count), cat);
    FormsRead(cases, Some(count), Other);
    Apple.FormatInterpolates(ix, Some(count), args, Some(args[count]));
  }

  lemma {:induction false} FormsRead(cases: seq<(Category, seq<Ix>)>, count: Option<nat>, cat: Category)
    ensures CaseFor(Apple.Forms(SortCases(cases, Number), count), cat)
         == match CaseFor(cases, cat)
            case None => None
            case Some(ix) => Some(Apple.FormatString(ix, count, true))
  {
    CaseForSorted(cases, Number, cat);
    Apple.FormsFor(SortCases(cases, Number), count, cat);
  }

  lemma {:induction false} RenderInterpolates(ix: seq<Ix>, names: seq<string>, args: seq<string>)
    requires PackIx(ix).Ok? && Within(ix, |names|) && |args| == |names|
    ensures Render(PackIx(ix).value, names, ArgAt(args)) == Interpolate(ix, args)
  {
    if ix != [] {
      RenderInterpolates(ix[1..], names, args);
      var rest := PackIx(ix[1..]).value;
      match ix[0]
      case IxText(t) =>
        RenderText(t, rest, names, ArgAt(args));
      case IxArg(n) =>
        RenderArg(n, rest, names, ArgAt(args));
    }
  }

  lemma {:induction false} RustReads(c: Compiled, cat: Category, ix: seq<Ix>)
    requires ChosenIx(c, cat) == Some(ix) && Packed(c).Ok?
    ensures PackIx(ix).Ok?
    ensures c.CPlain? ==> Packed(c).value == PackIx(ix).value
    ensures c.CPlural? && c.cases != [] ==>
              var body := Packed(c).value;
              && body != "" && body[0] == CASE
              && (if FindCase(body[1..], Tag(cat)).Some? then FindCase(body[1..], Tag(cat))
                  else FindCase(body[1..], Tag(Other))) == Some(PackIx(ix).value)
  {
    if c.CPlural? && c.cases != [] {
      PackCasesCons(c.cases);
      FindCasePacked(c.cases, cat);
      FindCasePacked(c.cases, Other);
    }
  }

  /** The variant a compiled message chooses is the pattern the message chooses, compiled. */
  lemma {:induction false} ChosenCompiled(en: Message, msg: Message, c: Compiled, cat: Category, ix: seq<Ix>)
    requires WellFormed(msg) && Compile(en, msg) == Ok(c) && ChosenIx(c, cat) == Some(ix)
    ensures Within(ix, |Args(en)|)
    ensures c.CPlural? ==> c.cases != [] && en.Plural?
    ensures c.CPlain? ==> en.Plain? && ix != []
  {
    match msg
    case Plain(p) =>
      IndexWithin(p, Args(en));
    case Plural(_, cases) =>
      var own := CaseFor(c.cases, cat);
      IndexCasesFor(cases, Args(en), cat);
      IndexCasesFor(cases, Args(en), Other);
      var k := if own.Some? then cat else Other;
      IndexWithin(CaseFor(cases, k).value, Args(en));
  }

  /** Three back ends, one meaning. For a message compiled under English and as many arguments as
      English has, in index order, the Rust body found in the language's pack and filled, the
      Apple entry and the Android resource all read as the pattern of the count's category,
      `other` standing in for a category the message lacks. */
  lemma {:induction false} BackEndsAgree(pack: Pack, ix: nat, en: Message, msg: Message, c: Compiled, n: nat,
                                         args: seq<string>, chosen: seq<Ix>)
    requires pack.Valid() && ix < |pack.ends|
    requires WellFormed(msg) && Compile(en, msg) == Ok(c) && Packed(c) == Ok(pack.Body(ix))
    requires |args| == |Args(en)|
    requires ChosenIx(c, CategoryOf(pack.lang, n)) == Some(chosen)
    requires AndroidSafe(chosen, c.CPlain?, |args|)
    ensures var text := Interpolate(chosen, args);
            var cat := CategoryOf(pack.lang, n);
            var body := ReadPack(pack, ix, Some(n));
            var unit := Apple.UnitOf(c, CountOf(en), args != []);
            && text.Some?
            && body.Some? && Render(body.value, Args(en), ArgAt(args)) == text
            && unit.Some? && Apple.ReadUnit(unit.value, cat, args) == text
            && ReadAndroid(ResourceOf(c, CountOf(en)), cat, args) == text
  {
    var cat := CategoryOf(pack.lang, n);
    ChosenCompiled(en, msg, c, cat, chosen);
    InterpolateWithin(chosen, args);
    RustReads(c, cat, chosen);
    RenderInterpolates(chosen, Args(en), args);
    if en.Plain? {
      PackedNonempty(msg.pattern, Args(en));
    } else {
      ArgsListPlaceholders(en, en.count);
    }
    AppleReads(c, CountOf(en), cat, args, chosen);
    AndroidReads(c, CountOf(en), cat, args, chosen);
  }

  lemma {:induction false} IndexedName(p: Pattern, args: seq<string>, n: string)
    requires IndexPattern(p, args).Ok? && n in NameSet(p)
    ensures HasArg(IndexPattern(p, args).value)
  {
    var ix := IndexPattern(p, args).value;
    if p[0].Arg? {
      assert ix[0].IxArg?;
    } else {
      IndexedName(p[1..], args, n);
      var i :| 0 <= i < |ix[1..]| && ix[1..][i].IxArg?;
      assert ix[i + 1].IxArg?;
    }
  }

  /** The placeholder check closes Android's gap: a plain translation it accepts shows an argument
      whenever English has one. */
  lemma {:induction false} CheckedIsAndroidSafe(en: Message, msg: Message, ix: seq<Ix>)
    requires en.Plain? && Compile(en, msg) == Ok(CPlain(ix)) && PlaceholdersAgree(en, msg) && Carried(ix)
    ensures AndroidSafe(ix, true, |Args(en)|)
  {
    if Args(en) != [] {
      var n := Args(en)[0];
      ArgsListPlaceholders(en, n);
      IndexedName(msg.pattern, Args(en), n);
    }
  }

  // ---- A language that lacks a plural

  /** Apple writes the English forms under a language that lacks a plural, and the system picks
      among them by that language's rule; Rust falls back by the English rule. The two texts are
      the same exactly when the two rules agree on `one`. */
  lemma {:induction false} AppleFallbackAgreesIff(cases: seq<(Category, seq<Ix>)>, count: nat, source: string,
                                                  lang: string, n: nat, args: seq<string>)
    requires count < |args|
    requires forall c :: CaseFor(cases, c).Some? <==> c in {One, Other}
    requires Interpolate(CaseFor(cases, One).value, args) != Interpolate(CaseFor(cases, Other).value, args)
    ensures var unit := Apple.UnitOf(CPlural(cases), Some(count), true).value;
            Apple.ReadUnit(unit, CategoryOf(lang, n), args)
              == Interpolate(ChosenIx(CPlural(cases), CategoryOf(source, n)).value, args)
            <==> (CategoryOf(lang, n) == One <==> CategoryOf(source, n) == One)
  {
    AppleReads(CPlural(cases), Some(count), CategoryOf(lang, n), args,
               ChosenIx(CPlural(cases), CategoryOf(lang, n)).value);
  }

  lemma {:induction false} NoughtInFrench()
    ensures CategoryOf("fr", 0) == One && CategoryOf("en", 0) == Other
  {
    assert Subtags("fr") == ("fr", "") && Subtags("en") == ("en", "") by {
      assert "fr"[1..] == "r" && "en"[1..] == "n" && "r"[1..] == "" && "n"[1..] == "";
    }
    assert ToLower("fr") == "fr" && ToLower("en") == "en";
  }

  /** It does happen: an English plural no one has put into French, at a count of nought. */
  lemma {:induction false} AppleFallbackDiffers(cases: seq<(Category, seq<Ix>)>, count: nat, args: seq<string>)
    requires count < |args|
    requires forall c :: CaseFor(cases, c).Some? <==> c in {One, Other}
    requires Interpolate(CaseFor(cases, One).value, args) != Interpolate(CaseFor(cases, Other).value, args)
    ensures Apple.ReadUnit(Apple.UnitOf(CPlural(cases), Some(count), true).value, CategoryOf("fr", 0), args)
         != Interpolate(ChosenIx(CPlural(cases), CategoryOf("en", 0)).value, args)
  {
    NoughtInFrench();
    AppleFallbackAgreesIff(cases, count, "en", "fr", 0, args);
  }
}
