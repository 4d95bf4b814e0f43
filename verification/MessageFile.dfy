/** From the text of a message file to its messages, and what every file so read is like. */
module MessageFile {
  import opened Wrappers
  import opened Text
  import opened Plural
  import opened Pattern
  import opened Messages
  import opened Build
  import opened Compilation
  import J = Json

  datatype MessageError =
    | Shape
    | UnexpectedField(name: string)
    | NoDeclarations
    | BadDeclaration(declaration: string)
    | NoLocal
    | BadCount(whyNot: NameError)
    | BadSelectors
    | NoMatch
    | BadVariant(variant: string)
    | RepeatedCategory(variant: string)
    | NotText(variant: string)
    | BadText(variant: string, error: PatternError)
    | ShowsSelector
    | BadMessageText(error: PatternError)

  // ---- Reading JSON apart

  function GetField(fields: seq<J.Field>, key: string): Option<J.Json> {
    if fields == [] then None
    else if fields[0].key == key then Some(fields[0].value)
    else GetField(fields[1..], key)
  }

  function Strings(items: seq<J.Json>): Option<seq<string>> {
    if items == [] then Some([])
    else if !items[0].Str? then None
    else
      match Strings(items[1..])
      case None => None
      case Some(rest) => Some([items[0].s] + rest)
  }

  /** A list of strings, or `None` for anything else. */
  function AsStrings(v: Option<J.Json>): Option<seq<string>> {
    if v.Some? && v.value.Arr? then Strings(v.value.items) else None
  }

  function SplitOnce(s: string, c: char): Option<(string, string)> {
    var i := Find(s, c);
    if i == |s| then None else Some((s[..i], s[i + 1..]))
  }

  function Split(s: string, c: char): seq<string>
    decreases |s|
  {
    var i := Find(s, c);
    if i == |s| then [s] else [s[..i]] + Split(s[i + 1..], c)
  }

  predicate IsAlnum(c: char) {
    IsLower(c) || 'A' <= c <= 'Z' || '0' <= c <= '9'
  }

  /** `<area>_<thing>` in lowercase snake case: an underscore at least, never two in a row. */
  predicate ValidKey(key: string) {
    && key != "" && IsLower(key[0]) && '_' in key
    && forall w <- Split(key, '_') :: w != "" && forall c <- w :: IsLower(c) || '0' <= c <= '9'
  }

  /** A language tag as a file name. */
  predicate ValidLang(tag: string) {
    var subtags := Split(tag, '-');
    && 2 <= |subtags[0]| <= 3 && (forall c <- subtags[0] :: IsLower(c))
    && forall w <- subtags[1..] :: 1 <= |w| <= 8 && forall c <- w :: IsAlnum(c)
  }

  // ---- One message

  predicate IsInput(d: string) {
    "input " <= d && IsIdent(Trim(d[6..]))
  }

  /** `local n = count: plural`, as `n` and `count`. */
  function ParseLocal(d: string): Option<(string, string)> {
    if !("local " <= d) then None
    else
      var sides := SplitOnce(d[6..], '=');
      if sides == None then None
      else
        var call := SplitOnce(sides.value.1, ':');
        if call == None then None
        else
          var name, input := Trim(sides.value.0), Trim(call.value.0);
          if Trim(call.value.1) == "plural" && IsIdent(name) && IsIdent(input) then Some((name, input)) else None
  }

  /** The one local among the declarations, `local` already found. */
  function ReadLocal(decls: seq<string>, local: Option<(string, string)>)
    : Result<Option<(string, string)>, MessageError>
  {
    if decls == [] then Ok(local)
    else if IsInput(decls[0]) then ReadLocal(decls[1..], local)
    else
      var l := ParseLocal(decls[0]);
      if l.Some? && local == None then ReadLocal(decls[1..], l) else Err(BadDeclaration(decls[0]))
  }

  /** The category a variant's key `n=one` or `n=*` names. */
  function VariantCategory(k: string, sel: string): Option<Category> {
    match SplitOnce(k, '=')
    case None => None
    case Some((s, c)) =>
      if Trim(s) != sel then None else if Trim(c) == "*" then Some(Other) else FromName(Trim(c))
  }

  predicate HasCategory(cases: seq<(Category, Pattern)>, c: Category) {
    exists i | 0 <= i < |cases| :: cases[i].0 == c
  }

  /** One variant, `cases` already read. */
  function ReadVariant(arm: J.Field, sel: string, cases: seq<(Category, Pattern)>)
    : Result<(Category, Pattern), MessageError>
  {
    match VariantCategory(arm.key, sel)
    case None => Err(BadVariant(arm.key))
    case Some(c) =>
      if HasCategory(cases, c) then Err(RepeatedCategory(arm.key))
      else if !arm.value.Str? then Err(NotText(arm.key))
      else
        match Parse(arm.value.s)
        case Err(e) => Err(BadText(arm.key, e))
        case Ok(p) => if sel in NameSet(p) then Err(ShowsSelector) else Ok((c, p))
  }

  function ReadVariants(arms: seq<J.Field>, sel: string, cases: seq<(Category, Pattern)>)
    : Result<seq<(Category, Pattern)>, MessageError>
    decreases |arms|
  {
    if arms == [] then Ok(cases)
    else
      match ReadVariant(arms[0], sel, cases)
      case Err(e) => Err(e)
      case Ok(x) => ReadVariants(arms[1..], sel, cases + [x])
  }

  /** The first field a plural does not have. */
  function Unexpected(fields: seq<J.Field>): Option<string> {
    if fields == [] then None
    else if fields[0].key !in ["declarations", "selectors", "match"] then Some(fields[0].key)
    else Unexpected(fields[1..])
  }

  function ReadPlural(fields: seq<J.Field>): Result<Message, MessageError> {
    if Unexpected(fields).Some? then Err(UnexpectedField(Unexpected(fields).value))
    else
      match AsStrings(GetField(fields, "declarations"))
      case None => Err(NoDeclarations)
      case Some(decls) =>
        match ReadLocal(decls, None)
        case Err(e) => Err(e)
        case Ok(None) => Err(NoLocal)
        case Ok(Some((sel, count))) =>
          if CheckPlaceholder(count).Some? then Err(BadCount(CheckPlaceholder(count).value))
          else if AsStrings(GetField(fields, "selectors")) != Some([sel]) then Err(BadSelectors)
          else
            var arms := GetField(fields, "match");
            if arms == None || !arms.value.Obj? || arms.value.fields == [] then Err(NoMatch)
            else
              match ReadVariants(arms.value.fields, sel, [])
              case Err(e) => Err(e)
              case Ok(cases) => Ok(Plural(count, cases))
  }

  function ReadMessage(v: J.Json): Result<Message, MessageError> {
    if v.Str? then
      match Parse(v.s)
      case Err(e) => Err(BadMessageText(e))
      case Ok(p) => Ok(Plain(p))
    else if !v.Arr? || |v.items| != 1 || !v.items[0].Obj? then Err(Shape)
    else ReadPlural(v.items[0].fields)
  }

  // ---- The reader's loops

  method FindLocal(decls: seq<string>) returns (r: Result<Option<(string, string)>, MessageError>)
    ensures r == ReadLocal(decls, None)
  {
    var local: Option<(string, string)> := None;
    assert decls[0..] == decls;
    for i := 0 to |decls|
      invariant ReadLocal(decls[i..], local) == ReadLocal(decls, None)
    {
      var d := decls[i];
      assert decls[i..][0] == d && decls[i..][1..] == decls[i + 1..];
      if !IsInput(d) {
        var l := ParseLocal(d);
        if l == None || local.Some? {
          return Err(BadDeclaration(d));
        }
        local := l;
      }
    }
    r := Ok(local);
  }

  method CollectVariants(arms: seq<J.Field>, sel: string) returns (r: Result<seq<(Category, Pattern)>, MessageError>)
    ensures r == ReadVariants(arms, sel, [])
  {
    var cases: seq<(Category, Pattern)> := [];
    assert arms[0..] == arms;
    for i := 0 to |arms|
      invariant ReadVariants(arms[i..], sel, cases) == ReadVariants(arms, sel, [])
    {
      var k, text := arms[i].key, arms[i].value;
      assert arms[i..][0] == arms[i] && arms[i..][1..] == arms[i + 1..];
      var c := VariantCategory(k, sel);
      if c == None {
        return Err(BadVariant(k));
      }
      if HasCategory(cases, c.value) {
        return Err(RepeatedCategory(k));
      }
      if !text.Str? {
        return Err(NotText(k));
      }
      var p := ParsePattern(text.s);
      if p.Err? {
        return Err(BadText(k, p.error));
      }
      if sel in NameSet(p.value) {
        return Err(ShowsSelector);
      }
      cases := cases + [(c.value, p.value)];
    }
    r := Ok(cases);
  }

  method ParseMessage(v: J.Json) returns (r: Result<Message, MessageError>)
    ensures r == ReadMessage(v)
  {
    if v.Str? {
      var p := ParsePattern(v.s);
      return if p.Err? then Err(BadMessageText(p.error)) else Ok(Plain(p.value));
    }
    if !v.Arr? || |v.items| != 1 || !v.items[0].Obj? {
      return Err(Shape);
    }
    var fields := v.items[0].fields;
    if Unexpected(fields).Some? {
      return Err(UnexpectedField(Unexpected(fields).value));
    }
    var decls := AsStrings(GetField(fields, "declarations"));
    if decls == None {
      return Err(NoDeclarations);
    }
    var local := FindLocal(decls.value);
    if local.Err? {
      return Err(local.error);
    }
    if local.value == None {
      return Err(NoLocal);
    }
    var (sel, count) := local.value.value;
    if CheckPlaceholder(count).Some? {
      return Err(BadCount(CheckPlaceholder(count).value));
    }
    if AsStrings(GetField(fields, "selectors")) != Some([sel]) {
      return Err(BadSelectors);
    }
    var arms := GetField(fields, "match");
    if arms == None || !arms.value.Obj? || arms.value.fields == [] {
      return Err(NoMatch);
    }
    var cases := CollectVariants(arms.value.fields, sel);
    r := if cases.Err? then Err(cases.error) else Ok(Plural(count, cases.value));
  }

  // ---- What is read is well formed

  ghost predicate CasesWellFormed(cases: seq<(Category, Pattern)>, sel: string) {
    && (forall i | 0 <= i < |cases| :: cases[i].1 != [] && Normal(cases[i].1) && sel !in NameSet(cases[i].1))
    && forall i, j | 0 <= i < j < |cases| :: cases[i].0 != cases[j].0
  }

  lemma {:induction false} VariantIs(arm: J.Field, sel: string, cases: seq<(Category, Pattern)>)
    returns (x: (Category, Pattern))
    requires ReadVariant(arm, sel, cases).Ok?
    ensures ReadVariant(arm, sel, cases) == Ok(x)
    ensures x.1 != [] && Normal(x.1) && sel !in NameSet(x.1) && !HasCategory(cases, x.0)
  {
    x := ReadVariant(arm, sel, cases).value;
    ParseIsBijection(arm.value.s, x.1);
  }

  lemma {:induction false} OneMoreCase(cases: seq<(Category, Pattern)>, x: (Category, Pattern), sel: string)
    requires CasesWellFormed(cases, sel) && !HasCategory(cases, x.0)
    requires x.1 != [] && Normal(x.1) && sel !in NameSet(x.1)
    ensures CasesWellFormed(cases + [x], sel)
  {
  }

  lemma {:induction false} VariantsWellFormed(arms: seq<J.Field>, sel: string, cases: seq<(Category, Pattern)>)
    requires CasesWellFormed(cases, sel) && ReadVariants(arms, sel, cases).Ok?
    ensures CasesWellFormed(ReadVariants(arms, sel, cases).value, sel)
    ensures |ReadVariants(arms, sel, cases).value| == |cases| + |arms|
    decreases |arms|
  {
    if arms != [] {
      var x := VariantIs(arms[0], sel, cases);
      OneMoreCase(cases, x, sel);
      VariantsWellFormed(arms[1..], sel, cases + [x]);
    }
  }

  /** Every message read is well formed: patterns in normal form, a count that may be named, no
      category twice and at least one. */
  lemma {:induction false} MessageIsWellFormed(v: J.Json)
    requires ReadMessage(v).Ok?
    ensures WellFormed(ReadMessage(v).value)
  {
    if v.Str? {
      ParseIsBijection(v.s, Parse(v.s).value);
    } else {
      var fields := v.items[0].fields;
      var (sel, count) := ReadLocal(AsStrings(GetField(fields, "declarations")).value, None).value.value;
      VariantsWellFormed(GetField(fields, "match").value.fields, sel, []);
    }
  }

  // ---- What is read, without the reader

  lemma {:induction false} SplitsAt(a: string, c: char, b: string)
    requires c !in a
    ensures SplitOnce(a + ([c] + b), c) == Some((a, b))
  {
    FindSkips(a, [c] + b, c);
    assert (a + ([c] + b))[|a|..] == [c] + b;
    assert Find([c] + b, c) == 0;
    assert (a + ([c] + b))[..|a|] == a && (a + ([c] + b))[|a| + 1..] == b;
  }

  lemma {:induction false} Behind(a: string, b: string)
    ensures a <= a + b && (a + b)[|a|..] == b
  {
  }

  lemma {:induction false} PrefixFirst(a: string, d: string)
    requires a != "" && a <= d
    ensures d != "" && d[0] == a[0]
  {
  }

  /** The value of the first field that has the key. */
  ghost predicate FieldIs(fields: seq<J.Field>, key: string, v: J.Json) {
    exists i | 0 <= i < |fields| :: FieldAt(fields, i, key, v)
  }

  ghost predicate FieldAt(fields: seq<J.Field>, i: nat, key: string, v: J.Json) {
    i < |fields| && fields[i] == J.Field(key, v) && forall k | 0 <= k < i :: fields[k].key != key
  }

  lemma {:induction false} GetFieldIs(fields: seq<J.Field>, key: string, v: J.Json)
    ensures GetField(fields, key) == Some(v) <==> FieldIs(fields, key, v)
  {
    if fields != [] {
      var rest := fields[1..];
      GetFieldIs(rest, key, v);
      if fields[0].key == key {
        if fields[0].value == v {
          assert FieldAt(fields, 0, key, v);
        }
      } else {
        if i :| 0 <= i < |rest| && FieldAt(rest, i, key, v) {
          assert FieldAt(fields, i + 1, key, v);
        }
        if i :| 0 <= i < |fields| && FieldAt(fields, i, key, v) {
          assert FieldAt(rest, i - 1, key, v);
        }
      }
    }
  }

  ghost predicate AreStrings(v: J.Json, ss: seq<string>) {
    v.Arr? && |v.items| == |ss| && forall i | 0 <= i < |ss| :: v.items[i] == J.Str(ss[i])
  }

  lemma {:induction false} StringsAre(items: seq<J.Json>, ss: seq<string>)
    ensures Strings(items) == Some(ss) <==> AreStrings(J.Arr(items), ss)
  {
    if items != [] && ss != [] {
      StringsAre(items[1..], ss[1..]);
      assert ss == [ss[0]] + ss[1..];
      if Strings(items) == Some(ss) {
        forall i | 0 <= i < |ss|
          ensures items[i] == J.Str(ss[i])
        {
          assert i > 0 ==> items[i] == items[1..][i - 1] && ss[i] == ss[1..][i - 1];
        }
      }
    }
  }

  /** `d` with its two signs, and the three texts they part. */
  ghost predicate LocalParts(d: string, a: string, b: string, c: string) {
    d == "local " + (a + (['='] + (b + ([':'] + c)))) && '=' !in a && ':' !in b
  }

  /** White space may stand around the name, the count and the function. */
  ghost predicate Declares(d: string, sel: string, count: string) {
    exists a, b, c :: LocalParts(d, a, b, c)
      && Trim(a) == sel && IsIdent(sel) && Trim(b) == count && IsIdent(count) && Trim(c) == "plural"
  }

  lemma {:induction false} SplitOnceIs(s: string, c: char)
    ensures match SplitOnce(s, c)
            case None => c !in s
            case Some((a, b)) => s == a + ([c] + b) && c !in a
  {
  }

  lemma {:induction false} LocalSplit(a: string, b: string, c: string)
    requires '=' !in a && ':' !in b
    ensures var d := "local " + (a + (['='] + (b + ([':'] + c))));
            "local " <= d && SplitOnce(d[6..], '=') == Some((a, b + ([':'] + c)))
    ensures SplitOnce(b + ([':'] + c), ':') == Some((b, c))
  {
    Behind("local ", a + (['='] + (b + ([':'] + c))));
    SplitsAt(a, '=', b + ([':'] + c));
    SplitsAt(b, ':', c);
  }

  lemma {:induction false} Prefixed(a: string, d: string)
    requires a <= d
    ensures d == a + d[|a|..]
  {
  }

  lemma {:induction false} LocalIsDeclared(d: string)
    requires ParseLocal(d).Some?
    ensures Declares(d, ParseLocal(d).value.0, ParseLocal(d).value.1)
  {
    var (a, call) := SplitOnce(d[6..], '=').value;
    var (b, c) := SplitOnce(call, ':').value;
    SplitOnceIs(d[6..], '=');
    SplitOnceIs(call, ':');
    Prefixed("local ", d);
    assert LocalParts(d, a, b, c);
  }

  lemma {:induction false} ParseLocalIs(d: string, sel: string, count: string)
    ensures ParseLocal(d) == Some((sel, count)) <==> Declares(d, sel, count)
  {
    if ParseLocal(d) == Some((sel, count)) {
      LocalIsDeclared(d);
    }
    if Declares(d, sel, count) {
      var a, b, c :| LocalParts(d, a, b, c)
        && Trim(a) == sel && IsIdent(sel) && Trim(b) == count && IsIdent(count) && Trim(c) == "plural";
      LocalSplit(a, b, c);
    }
  }

  lemma {:induction false} LocalIsNoInput(d: string)
    requires ParseLocal(d).Some?
    ensures !IsInput(d)
  {
    PrefixFirst("local ", d);
    if IsInput(d) {
      PrefixFirst("input ", d);
    }
  }

  /** One declaration is the local, every other an input. */
  ghost predicate OneLocal(decls: seq<string>, i: nat, l: (string, string)) {
    && i < |decls| && ParseLocal(decls[i]) == Some(l)
    && forall k | 0 <= k < |decls| && k != i :: IsInput(decls[k])
  }

  lemma {:induction false} OnlyInputs(decls: seq<string>, l: (string, string))
    ensures ReadLocal(decls, Some(l)).Ok? <==> forall d <- decls :: IsInput(d)
    ensures ReadLocal(decls, Some(l)).Ok? ==> ReadLocal(decls, Some(l)) == Ok(Some(l))
  {
    if decls != [] {
      OnlyInputs(decls[1..], l);
      assert forall d <- decls :: d == decls[0] || d in decls[1..];
      assert decls[0] in decls;
    }
  }

  lemma {:induction false} ReadLocalIs(decls: seq<string>, l: (string, string))
    ensures ReadLocal(decls, None) == Ok(Some(l)) <==> exists i: nat :: OneLocal(decls, i, l)
  {
    if decls != [] {
      var rest := decls[1..];
      if IsInput(decls[0]) {
        ReadLocalIs(rest, l);
        if i: nat :| OneLocal(rest, i, l) {
          LocalShifts(decls, i, l);
        }
        if i: nat :| OneLocal(decls, i, l) {
          LocalIsNoInput(decls[i]);
          LocalShifts(decls, i - 1, l);
        }
      } else if ParseLocal(decls[0]).Some? {
        OnlyInputs(rest, ParseLocal(decls[0]).value);
        FirstIsLocal(decls, l);
      }
    }
  }

  lemma {:induction false} LocalShifts(decls: seq<string>, i: nat, l: (string, string))
    requires decls != [] && IsInput(decls[0])
    ensures OneLocal(decls[1..], i, l) <==> OneLocal(decls, i + 1, l)
  {
    if OneLocal(decls[1..], i, l) {
      assert forall k | 0 < k < |decls| :: decls[k] == decls[1..][k - 1];
    }
  }

  lemma {:induction false} FirstIsLocal(decls: seq<string>, l: (string, string))
    requires decls != [] && !IsInput(decls[0]) && ParseLocal(decls[0]).Some?
    ensures (exists i: nat :: OneLocal(decls, i, l))
       <==> ParseLocal(decls[0]) == Some(l) && forall d <- decls[1..] :: IsInput(d)
  {
    var rest := decls[1..];
    if i: nat :| OneLocal(decls, i, l) {
      assert i == 0;
      assert forall k | 0 <= k < |rest| :: rest[k] == decls[k + 1];
    }
    if ParseLocal(decls[0]) == Some(l) && forall d <- rest :: IsInput(d) {
      assert forall k | 0 < k < |decls| :: decls[k] == rest[k - 1] && rest[k - 1] in rest;
      assert OneLocal(decls, 0, l);
    }
  }

  /** A variant's key: the selector, a sign and what names the category, white space around either. */
  ghost predicate NamesCategory(key: string, sel: string, c: Category) {
    exists a, b :: key == a + (['='] + b) && '=' !in a && Trim(a) == sel && CategoryWord(Trim(b), c)
  }

  ghost predicate CategoryWord(w: string, c: Category) {
    match c
    case Zero => w == "zero"
    case One => w == "one"
    case Two => w == "two"
    case Few => w == "few"
    case Many => w == "many"
    case Other => w == "other" || w == "*"
  }

  lemma {:induction false} CategoryWordIs(w: string, c: Category)
    ensures (if w == "*" then Some(Other) else FromName(w)) == Some(c) <==> CategoryWord(w, c)
  {
  }

  lemma {:induction false} VariantCategoryIs(key: string, sel: string, c: Category)
    ensures VariantCategory(key, sel) == Some(c) <==> NamesCategory(key, sel, c)
  {
    SplitOnceIs(key, '=');
    if SplitOnce(key, '=').Some? {
      var (a, b) := SplitOnce(key, '=').value;
      CategoryWordIs(Trim(b), c);
    }
    if NamesCategory(key, sel, c) {
      var a, b :| key == a + (['='] + b) && '=' !in a && Trim(a) == sel && CategoryWord(Trim(b), c);
      SplitsAt(a, '=', b);
    }
  }

  /** A variant: its category, and a pattern that does not show the selector. */
  ghost predicate ArmIs(arm: J.Field, sel: string, x: (Category, Pattern)) {
    && NamesCategory(arm.key, sel, x.0)
    && arm.value.Str? && Parse(arm.value.s) == Ok(x.1) && sel !in NameSet(x.1)
  }

  lemma {:induction false} ReadVariantIs(arm: J.Field, sel: string, cases: seq<(Category, Pattern)>, x: (Category, Pattern))
    ensures ReadVariant(arm, sel, cases) == Ok(x) <==> ArmIs(arm, sel, x) && !HasCategory(cases, x.0)
  {
    VariantCategoryIs(arm.key, sel, x.0);
  }

  /** A variant for each arm, in order. */
  ghost predicate ArmsMatch(arms: seq<J.Field>, sel: string, cases: seq<(Category, Pattern)>) {
    |arms| == |cases| && forall i | 0 <= i < |arms| :: ArmIs(arms[i], sel, cases[i])
  }

  ghost predicate CasesApart(cases: seq<(Category, Pattern)>, from: nat) {
    forall i, j | 0 <= i < j < |cases| && from <= j :: cases[i].0 != cases[j].0
  }

  lemma {:induction false} MatchCons(arms: seq<J.Field>, sel: string, cases: seq<(Category, Pattern)>)
    requires arms != [] && cases != []
    ensures ArmsMatch(arms, sel, cases) <==> ArmIs(arms[0], sel, cases[0]) && ArmsMatch(arms[1..], sel, cases[1..])
  {
    if ArmsMatch(arms, sel, cases) {
      forall i | 0 <= i < |arms[1..]|
        ensures ArmIs(arms[1..][i], sel, cases[1..][i])
      {
        assert arms[1..][i] == arms[i + 1] && cases[1..][i] == cases[i + 1];
      }
    }
    if ArmIs(arms[0], sel, cases[0]) && ArmsMatch(arms[1..], sel, cases[1..]) {
      forall i | 0 <= i < |arms|
        ensures ArmIs(arms[i], sel, cases[i])
      {
        assert i > 0 ==> arms[i] == arms[1..][i - 1] && cases[i] == cases[1..][i - 1];
      }
    }
  }

  lemma {:induction false} ApartCons(before: seq<(Category, Pattern)>, x: (Category, Pattern),
                                     rest: seq<(Category, Pattern)>)
    ensures before + ([x] + rest) == before + [x] + rest
    ensures CasesApart(before + ([x] + rest), |before|)
       <==> !HasCategory(before, x.0) && CasesApart(before + [x] + rest, |before| + 1)
  {
    var all := before + ([x] + rest);
    assert all == before + [x] + rest;
    assert all[|before|] == x && forall i | 0 <= i < |before| :: all[i] == before[i];
  }

  lemma {:induction false} VariantsExtend(arms: seq<J.Field>, sel: string, cases: seq<(Category, Pattern)>)
    ensures ReadVariants(arms, sel, cases).Ok? ==>
              cases <= ReadVariants(arms, sel, cases).value
              && |ReadVariants(arms, sel, cases).value| == |cases| + |arms|
    decreases |arms|
  {
    if arms != [] && ReadVariant(arms[0], sel, cases).Ok? {
      VariantsExtend(arms[1..], sel, cases + [ReadVariant(arms[0], sel, cases).value]);
    }
  }

  lemma {:induction false} ReadVariantsMatch(arms: seq<J.Field>, sel: string, before: seq<(Category, Pattern)>,
                                             more: seq<(Category, Pattern)>)
    ensures ReadVariants(arms, sel, before) == Ok(before + more)
       <==> ArmsMatch(arms, sel, more) && CasesApart(before + more, |before|)
    decreases |arms|
  {
    VariantsExtend(arms, sel, before);
    if arms == [] {
      assert |before + more| == |before| ==> before + more == before;
    } else if more != [] {
      var x := more[0];
      assert more == [x] + more[1..];
      MatchCons(arms, sel, more);
      ApartCons(before, x, more[1..]);
      ReadVariantIs(arms[0], sel, before, x);
      ReadVariantsMatch(arms[1..], sel, before + [x], more[1..]);
      if ReadVariants(arms, sel, before) == Ok(before + more) {
        FirstRead(arms, sel, before, more);
      }
    }
  }

  /** The first variant read stands where the reader put it. */
  lemma {:induction false} FirstRead(arms: seq<J.Field>, sel: string, before: seq<(Category, Pattern)>,
                                     more: seq<(Category, Pattern)>)
    requires arms != [] && more != [] && ReadVariants(arms, sel, before) == Ok(before + more)
    ensures ReadVariant(arms[0], sel, before) == Ok(more[0])
  {
    var x := ReadVariant(arms[0], sel, before).value;
    VariantsExtend(arms[1..], sel, before + [x]);
    assert (before + [x])[|before|] == (before + more)[|before|];
  }

  /** The variants of the arms, no category twice. */
  ghost predicate ArmsAre(arms: seq<J.Field>, sel: string, cases: seq<(Category, Pattern)>) {
    ArmsMatch(arms, sel, cases) && forall i, j | 0 <= i < j < |cases| :: cases[i].0 != cases[j].0
  }

  lemma {:induction false} ReadVariantsAre(arms: seq<J.Field>, sel: string, cases: seq<(Category, Pattern)>)
    ensures ReadVariants(arms, sel, []) == Ok(cases) <==> ArmsAre(arms, sel, cases)
  {
    assert [] + cases == cases;
    ReadVariantsMatch(arms, sel, [], cases);
  }

  /** A plural as the files may write it: nothing but its three fields, one local among the inputs, the
      local alone as the selector, and a variant or more. */
  ghost predicate WritesPlural(fields: seq<J.Field>, sel: string, count: string, cases: seq<(Category, Pattern)>,
                               decls: seq<string>, i: nat, arms: seq<J.Field>)
  {
    && (forall f <- fields :: f.key in {"declarations", "selectors", "match"})
    && HasStrings(fields, "declarations", decls) && HasStrings(fields, "selectors", [sel])
    && i < |decls| && Declares(decls[i], sel, count)
    && (forall k | 0 <= k < |decls| && k != i :: IsInput(decls[k]))
    && Snake(count) && count !in RESERVED_WORDS
    && FieldIs(fields, "match", J.Obj(arms)) && arms != [] && ArmsAre(arms, sel, cases)
  }

  ghost predicate HasStrings(fields: seq<J.Field>, key: string, ss: seq<string>) {
    exists v :: FieldIs(fields, key, v) && AreStrings(v, ss)
  }

  lemma {:induction false} HasStringsIs(fields: seq<J.Field>, key: string, ss: seq<string>)
    ensures AsStrings(GetField(fields, key)) == Some(ss) <==> HasStrings(fields, key, ss)
  {
    if GetField(fields, key).Some? {
      var v := GetField(fields, key).value;
      GetFieldIs(fields, key, v);
      if v.Arr? {
        StringsAre(v.items, ss);
      }
    }
    if v :| FieldIs(fields, key, v) && AreStrings(v, ss) {
      GetFieldIs(fields, key, v);
      StringsAre(v.items, ss);
    }
  }

  lemma {:induction false} UnexpectedIs(fields: seq<J.Field>)
    ensures Unexpected(fields) == None <==> forall f <- fields :: f.key in {"declarations", "selectors", "match"}
  {
    if fields != [] {
      UnexpectedIs(fields[1..]);
      assert forall f <- fields :: f == fields[0] || f in fields[1..];
      assert fields[0] in fields;
    }
  }

  /** A plural is read exactly when it is so written, and then as what is written. */
  lemma {:induction false} PluralIsRead(fields: seq<J.Field>, count: string, cases: seq<(Category, Pattern)>)
    ensures ReadPlural(fields) == Ok(Plural(count, cases))
       <==> exists sel, decls, i: nat, arms :: WritesPlural(fields, sel, count, cases, decls, i, arms)
  {
    if ReadPlural(fields) == Ok(Plural(count, cases)) {
      var sel, decls, i, arms := ReadIsWritten(fields, count, cases);
    }
    if sel, decls, i: nat, arms :| WritesPlural(fields, sel, count, cases, decls, i, arms) {
      WrittenIsRead(fields, sel, count, cases, decls, i, arms);
    }
  }

  lemma {:induction false} ReadIsWritten(fields: seq<J.Field>, count: string, cases: seq<(Category, Pattern)>)
    returns (sel: string, decls: seq<string>, i: nat, arms: seq<J.Field>)
    requires ReadPlural(fields) == Ok(Plural(count, cases))
    ensures WritesPlural(fields, sel, count, cases, decls, i, arms)
  {
    UnexpectedIs(fields);
    decls := AsStrings(GetField(fields, "declarations")).value;
    HasStringsIs(fields, "declarations", decls);
    var l := ReadLocal(decls, None).value.value;
    sel := l.0;
    ReadLocalIs(decls, l);
    i :| OneLocal(decls, i, l);
    ParseLocalIs(decls[i], sel, count);
    NameAllowedIff(count);
    HasStringsIs(fields, "selectors", [sel]);
    arms := GetField(fields, "match").value.fields;
    GetFieldIs(fields, "match", J.Obj(arms));
    ReadVariantsAre(arms, sel, cases);
  }

  lemma {:induction false} WrittenIsRead(fields: seq<J.Field>, sel: string, count: string,
                                         cases: seq<(Category, Pattern)>, decls: seq<string>, i: nat, arms: seq<J.Field>)
    requires WritesPlural(fields, sel, count, cases, decls, i, arms)
    ensures ReadPlural(fields) == Ok(Plural(count, cases))
  {
    UnexpectedIs(fields);
    HasStringsIs(fields, "declarations", decls);
    ParseLocalIs(decls[i], sel, count);
    assert OneLocal(decls, i, (sel, count));
    ReadLocalIs(decls, (sel, count));
    NameAllowedIff(count);
    HasStringsIs(fields, "selectors", [sel]);
    GetFieldIs(fields, "match", J.Obj(arms));
    ReadVariantsAre(arms, sel, cases);
    PluralGives(fields, sel, count, cases, decls, arms);
  }

  lemma {:induction false} PluralGives(fields: seq<J.Field>, sel: string, count: string,
                                       cases: seq<(Category, Pattern)>, decls: seq<string>, arms: seq<J.Field>)
    requires Unexpected(fields) == None && AsStrings(GetField(fields, "declarations")) == Some(decls)
    requires ReadLocal(decls, None) == Ok(Some((sel, count))) && CheckPlaceholder(count) == None
    requires AsStrings(GetField(fields, "selectors")) == Some([sel])
    requires GetField(fields, "match") == Some(J.Obj(arms)) && arms != [] && ReadVariants(arms, sel, []) == Ok(cases)
    ensures ReadPlural(fields) == Ok(Plural(count, cases))
  {
  }

  /** So is any message: a string whose pattern it is, or a list of one object that writes a plural. */
  lemma {:induction false} MessageIsRead(v: J.Json, m: Message)
    ensures ReadMessage(v) == Ok(m)
       <==> match m
            case Plain(p) => v.Str? && Parse(v.s) == Ok(p)
            case Plural(count, cases) =>
              exists fields, sel, decls, i: nat, arms ::
                v == J.Arr([J.Obj(fields)]) && WritesPlural(fields, sel, count, cases, decls, i, arms)
  {
    if m.Plural? && v.Arr? && |v.items| == 1 && v.items[0].Obj? {
      assert v.items == [J.Obj(v.items[0].fields)];
      PluralIsRead(v.items[0].fields, m.count, m.cases);
    } else if ReadMessage(v) == Ok(m) && m.Plain? && !v.Str? {
      PluralsOnly(v.items[0].fields);
    }
  }

  lemma {:induction false} PluralsOnly(fields: seq<J.Field>)
    ensures ReadPlural(fields).Ok? ==> ReadPlural(fields).value.Plural?
  {
  }

  // ---- Keys and language tags

  function Joined(parts: seq<string>, c: char): string
    requires parts != []
  {
    if |parts| == 1 then parts[0] else parts[0] + ([c] + Joined(parts[1..], c))
  }

  ghost predicate SplitsInto(s: string, c: char, parts: seq<string>) {
    parts != [] && Joined(parts, c) == s && forall w <- parts :: c !in w
  }

  /** There is one way to split a text. */
  lemma {:induction false} SplitIs(s: string, c: char, parts: seq<string>)
    ensures Split(s, c) == parts <==> SplitsInto(s, c, parts)
    decreases |s|
  {
    SplitJoins(s, c);
    if SplitsInto(s, c, parts) {
      SplitOfJoined(parts, c);
    }
  }

  lemma {:induction false} SplitJoins(s: string, c: char)
    ensures SplitsInto(s, c, Split(s, c))
    decreases |s|
  {
    var i := Find(s, c);
    if i < |s| {
      SplitJoins(s[i + 1..], c);
      OneMorePart(s[..i], c, Split(s[i + 1..], c));
      assert s == s[..i] + ([c] + s[i + 1..]);
    }
  }

  lemma {:induction false} OneMorePart(first: string, c: char, rest: seq<string>)
    requires c !in first && rest != [] && forall w <- rest :: c !in w
    ensures SplitsInto(first + ([c] + Joined(rest, c)), c, [first] + rest)
  {
    assert ([first] + rest)[1..] == rest;
  }

  lemma {:induction false} SplitOfJoined(parts: seq<string>, c: char)
    requires parts != [] && forall w <- parts :: c !in w
    ensures Split(Joined(parts, c), c) == parts
  {
    assert parts[0] in parts;
    if |parts| == 1 {
      NoSplit(parts[0], c);
      assert parts == [parts[0]];
    } else {
      var rest := parts[1..];
      assert Joined(parts, c) == parts[0] + ([c] + Joined(rest, c));
      SplitOfJoined(rest, c);
      SplitFirst(parts[0], c, Joined(rest, c));
      assert parts == [parts[0]] + rest;
    }
  }

  lemma {:induction false} NoSplit(s: string, c: char)
    requires c !in s
    ensures Split(s, c) == [s]
  {
  }

  lemma {:induction false} SplitFirst(a: string, c: char, rest: string)
    requires c !in a
    ensures Split(a + ([c] + rest), c) == [a] + Split(rest, c)
  {
    SplitsAt(a, c, rest);
  }

  /** A key is two words or more of small letters and digits, with underscores between them and a
      letter first. */
  lemma {:induction false} ValidKeyIs(key: string)
    ensures ValidKey(key)
       <==> && key != "" && 'a' <= key[0] <= 'z'
            && exists words | SplitsInto(key, '_', words) ::
                 |words| >= 2 && forall w <- words :: w != "" && forall c <- w :: 'a' <= c <= 'z' || '0' <= c <= '9'
  {
    SplitIs(key, '_', Split(key, '_'));
    assert |Split(key, '_')| >= 2 <==> '_' in key;
    forall words | SplitsInto(key, '_', words)
      ensures words == Split(key, '_')
    {
      SplitIs(key, '_', words);
    }
  }

  /** A tag is two or three small letters, then subtags of one to eight letters and digits. */
  lemma {:induction false} ValidLangIs(tag: string)
    ensures ValidLang(tag)
       <==> exists subtags | SplitsInto(tag, '-', subtags) ::
              && 2 <= |subtags[0]| <= 3 && (forall c <- subtags[0] :: 'a' <= c <= 'z')
              && forall w <- subtags[1..] ::
                   1 <= |w| <= 8 && forall c <- w :: 'a' <= c <= 'z' || 'A' <= c <= 'Z' || '0' <= c <= '9'
  {
    SplitIs(tag, '-', Split(tag, '-'));
    forall subtags | SplitsInto(tag, '-', subtags)
      ensures subtags == Split(tag, '-')
    {
      SplitIs(tag, '-', subtags);
    }
  }

  // ---- A whole file

  datatype FileProblem =
    | NotATag
    | NotJson(error: J.JsonError)
    | NotAnObject
    | NotAKey(key: string)
    | BadMessage(key: string, cause: MessageError)

  function ReadField(f: J.Field): (seq<Entry>, seq<FileProblem>) {
    if f.key == "$schema" then ([], [])
    else if !ValidKey(f.key) then ([], [NotAKey(f.key)])
    else
      match ReadMessage(f.value)
      case Ok(msg) => ([Entry(f.key, msg)], [])
      case Err(e) => ([], [BadMessage(f.key, e)])
  }

  function ReadFields(fields: seq<J.Field>): (seq<Entry>, seq<FileProblem>) {
    if fields == [] then ([], [])
    else
      var before, last := ReadFields(fields[..|fields| - 1]), ReadField(fields[|fields| - 1]);
      (before.0 + last.0, before.1 + last.1)
  }

  /** The file a text reads as, with what is wrong in it. */
  function FileOf(lang: string, src: string): (File, seq<FileProblem>) {
    if !ValidLang(lang) then (File(lang, []), [NotATag])
    else
      match J.Parse(src)
      case Err(e) => (File(lang, []), [NotJson(e)])
      case Ok(v) =>
        if !v.Obj? then (File(lang, []), [NotAnObject])
        else (File(lang, ReadFields(v.fields).0), ReadFields(v.fields).1)
  }

  /** A field that stands for a message. */
  ghost predicate FieldGives(f: J.Field, e: Entry) {
    f.key != "$schema" && f.key == e.key && ValidKey(f.key) && ReadMessage(f.value) == Ok(e.msg)
  }

  ghost predicate FieldFails(f: J.Field, p: FileProblem) {
    && f.key != "$schema"
    && match p
       case NotAKey(key) => f.key == key && !ValidKey(key)
       case BadMessage(key, cause) => f.key == key && ValidKey(key) && ReadMessage(f.value) == Err(cause)
       case _ => false
  }

  /** Entries and problems are those of the fields, "$schema" left out: none is made up, and none is
      dropped without a problem. */
  lemma {:induction false} NoneIsDropped(fields: seq<J.Field>)
    ensures forall e :: e in ReadFields(fields).0 <==> exists f <- fields :: FieldGives(f, e)
    ensures forall p :: p in ReadFields(fields).1 <==> exists f <- fields :: FieldFails(f, p)
    ensures ReadFields(fields).1 == []
       <==> forall f <- fields :: f.key == "$schema" || (ValidKey(f.key) && ReadMessage(f.value).Ok?)
  {
    if fields != [] {
      var last := |fields| - 1;
      var f, front := fields[last], fields[..last];
      NoneIsDropped(front);
      FieldReadIs(f);
      assert fields == front + [f];
      assert forall g :: g in fields <==> g in front || g == f;
    }
  }

  lemma {:induction false} FieldReadIs(f: J.Field)
    ensures forall e :: e in ReadField(f).0 <==> FieldGives(f, e)
    ensures forall p :: p in ReadField(f).1 <==> FieldFails(f, p)
    ensures ReadField(f).1 == [] <==> f.key == "$schema" || (ValidKey(f.key) && ReadMessage(f.value).Ok?)
  {
  }

  method LoadEntry(key: string, value: J.Json) returns (entries: seq<Entry>, problems: seq<FileProblem>)
    ensures (entries, problems) == ReadField(J.Field(key, value))
  {
    if key == "$schema" {
      return [], [];
    }
    if !ValidKey(key) {
      return [], [NotAKey(key)];
    }
    var msg := ParseMessage(value);
    if msg.Ok? {
      return [Entry(key, msg.value)], [];
    }
    return [], [BadMessage(key, msg.error)];
  }

  method LoadEntries(fields: seq<J.Field>) returns (entries: seq<Entry>, problems: seq<FileProblem>)
    ensures (entries, problems) == ReadFields(fields)
  {
    entries, problems := [], [];
    for i := 0 to |fields|
      invariant (entries, problems) == ReadFields(fields[..i])
    {
      assert fields[..i + 1][..i] == fields[..i] && fields[..i + 1][i] == fields[i];
      var more, wrong := LoadEntry(fields[i].key, fields[i].value);
      entries, problems := entries + more, problems + wrong;
    }
    assert fields[..|fields|] == fields;
  }

  method LoadFile(lang: string, src: string) returns (file: File, problems: seq<FileProblem>)
    ensures (file, problems) == FileOf(lang, src)
  {
    if !ValidLang(lang) {
      return File(lang, []), [NotATag];
    }
    var v := J.ParseText(src);
    if v.Err? {
      return File(lang, []), [NotJson(v.error)];
    }
    if !v.value.Obj? {
      return File(lang, []), [NotAnObject];
    }
    var entries, wrong := LoadEntries(v.value.fields);
    file, problems := File(lang, entries), wrong;
  }

  /** A file read from any text is well formed: the JSON reader refuses a repeated key, so no two
      entries have one. */
  lemma {:induction false} FileIsWellFormed(lang: string, src: string)
    ensures FileWellFormed(FileOf(lang, src).0) && FileOf(lang, src).0.lang == lang
    ensures forall e | e in FileOf(lang, src).0.entries :: ValidKey(e.key)
  {
    if ValidLang(lang) && J.Parse(src).Ok? && J.Parse(src).value.Obj? {
      ParsedKeysDistinct(src);
      EntriesWellFormed(J.Parse(src).value.fields);
    }
  }

  ghost predicate EntriesOf(fields: seq<J.Field>, entries: seq<Entry>) {
    && (forall e | e in entries :: WellFormed(e.msg) && ValidKey(e.key) && J.HasKey(fields, e.key))
    && forall i, j | 0 <= i < j < |entries| :: entries[i].key != entries[j].key
  }

  lemma {:induction false} EntriesWellFormed(fields: seq<J.Field>)
    requires DistinctKeys(fields)
    ensures EntriesOf(fields, ReadFields(fields).0)
  {
    if fields != [] {
      var last := |fields| - 1;
      var f, front := fields[last], fields[..last];
      EntriesWellFormed(front);
      if ReadMessage(f.value).Ok? {
        MessageIsWellFormed(f.value);
      }
      forall e | e in ReadFields(front).0
        ensures J.HasKey(fields, e.key) && e.key != f.key
      {
        var i :| 0 <= i < |front| && front[i].key == e.key;
        assert fields[i].key == e.key;
      }
      assert J.HasKey(fields, f.key);
    }
  }

  // ---- Objects keep their keys apart

  predicate DistinctKeys(fields: seq<J.Field>) {
    forall i, j | 0 <= i < j < |fields| :: fields[i].key != fields[j].key
  }

  lemma {:induction false} FieldIsNew(s: string, out: seq<J.Field>)
    requires J.ParseField(s, out).Ok?
    ensures !J.HasKey(out, J.ParseField(s, out).value.0.key)
  {
    var at := J.Ws(s);
    assert J.ParseField(s, out) == J.ParseFieldAt(at, out);
    var (key, after) := J.StringRest(at[1..], "").value;
    assert J.ParseFieldAt(at, out).value.0.key == key;
  }

  lemma {:induction false} FieldsDistinct(s: string, out: seq<J.Field>)
    requires DistinctKeys(out) && J.ParseFields(s, out).Ok?
    ensures J.ParseFields(s, out).value.0.Obj? && DistinctKeys(J.ParseFields(s, out).value.0.fields)
    decreases |s|
  {
    var (field, rest) := J.ParseField(s, out).value;
    FieldIsNew(s, out);
    assert DistinctKeys(out + [field]);
    if J.Starts(rest, ',') && !J.Starts(rest, '}') {
      FieldsDistinct(rest[1..], out + [field]);
    }
  }

  lemma {:induction false} ItemsAreArray(s: string, out: seq<J.Json>)
    requires J.ParseItems(s, out).Ok?
    ensures J.ParseItems(s, out).value.0.Arr?
    decreases |s|
  {
    var (v, rest) := J.ParseItem(s).value;
    if J.Starts(rest, ',') && !J.Starts(rest, ']') {
      ItemsAreArray(rest[1..], out + [v]);
    }
  }

  lemma {:induction false} ObjectBegins(s: string)
    requires J.ParseValue(s).Ok? && J.ParseValue(s).value.0.Obj?
    ensures J.Starts(s, '{')
  {
    if J.Starts(s, '[') && !J.Starts(J.Ws(s[1..]), ']') {
      ItemsAreArray(s[1..], []);
    }
  }

  /** A parsed object has no key twice. */
  lemma {:induction false} ParsedKeysDistinct(src: string)
    requires J.Parse(src).Ok? && J.Parse(src).value.Obj?
    ensures DistinctKeys(J.Parse(src).value.fields)
  {
    var s := J.Ws(src);
    var fields := J.Parse(src).value.fields;
    ObjectBegins(s);
    if fields != [] {
      FieldsDistinct(s[1..], []);
    }
  }
}
