/** The run-time half of the compiler: finding a body in a language's pack, the variant of a
    plural, and filling its placeholders. `None` stands for a Rust panic. */
module Reader {
  import opened Wrappers
  import opened Text
  import opened Plural
  import opened Packing
  import opened Digits

  /** One language's messages: body `i` is `text[ends[i - 1]..ends[i]]`. */
  datatype Pack = Pack(lang: string, text: string, ends: seq<nat>) {
    ghost predicate Valid() {
      && (forall i | 0 <= i < |ends| :: ends[i] <= |text|)
      && forall i | 0 < i < |ends| :: ends[i - 1] <= ends[i]
    }

    function Start(ix: nat): nat
      requires ix <= |ends|
    {
      if ix == 0 then 0 else ends[ix - 1]
    }

    function Body(ix: nat): string
      requires Valid() && ix < |ends|
    {
      text[Start(ix)..ends[ix]]
    }
  }

  /** A generated reference: the key, the arguments, which of them counts, and the index in each pack. */
  datatype MessageRef = MessageRef(key: string, args: seq<string>, count: Option<nat>, ix: nat)

  /** The first piece of `cases`, cut at `CASE`, that begins with `tag`, without the tag. */
  function FindCase(cases: string, tag: char): Option<string>
    decreases |cases|
  {
    var cut := Find(cases, CASE);
    if cut > 0 && cases[0] == tag then Some(cases[1..cut])
    else if cut == |cases| then None
    else FindCase(cases[cut + 1..], tag)
  }

  /** The text one pack has for message `ix` and `count`. */
  function ReadPack(pack: Pack, ix: nat, count: Option<nat>): Option<string>
    requires pack.Valid() && ix < |pack.ends|
  {
    var body := pack.Body(ix);
    if body == "" then None
    else if body[0] != CASE then Some(body)
    else
      var want := if count.Some? then CategoryOf(pack.lang, count.value) else Other;
      var found := FindCase(body[1..], Tag(want));
      if found.Some? then found else FindCase(body[1..], Tag(Other))
  }

  ghost predicate ValidFor(m: MessageRef, packs: seq<Pack>) {
    forall l | 0 <= l < |packs| :: packs[l].Valid() && m.ix < |packs[l].ends|
  }

  function ReadLang(m: MessageRef, packs: seq<Pack>, lang: nat, count: Option<nat>): Option<string>
    requires ValidFor(m, packs)
  {
    if lang < |packs| then ReadPack(packs[lang], m.ix, count) else None
  }

  /** The text `m` reads in `lang`: that language's, else English, else nothing. */
  function Variant(m: MessageRef, packs: seq<Pack>, lang: nat, count: Option<nat>): string
    requires ValidFor(m, packs)
  {
    var own := ReadLang(m, packs, lang, count);
    var english := ReadLang(m, packs, 0, count);
    if own.Some? then own.value else if english.Some? then english.value else ""
  }

  /** A placeholder as it shows: its value, or `{name}` without one. */
  function Show(name: string, value: Option<string>): string {
    match value
    case Some(v) => v
    case None => "{" + name + "}"
  }

  function Prepend(out: string, r: Option<string>): Option<string> {
    match r
    case None => None
    case Some(s) => Some(out + s)
  }

  /** `body` with its placeholders filled. */
  function Render(body: string, names: seq<string>, arg: nat -> Option<string>): Option<string>
    decreases |body|, 1
  {
    var at := Find(body, ARG);
    if at == |body| then Some(body)
    else Prepend(body[..at], RenderPlaceholder(body[at..], names, arg))
  }

  /** The same for text that begins with a placeholder. */
  function RenderPlaceholder(s: string, names: seq<string>, arg: nat -> Option<string>): Option<string>
    requires s != ""
    decreases |s|, 0
  {
    if |s| == 1 || s[1] < '0' then None
    else
      var i := s[1] as int - '0' as int;
      if arg(i) == None && i >= |names| then None
      else Prepend(Show(if i < |names| then names[i] else "", arg(i)), Render(s[2..], names, arg))
  }

  lemma {:induction false} PrependTwice(a: string, b: string, r: Option<string>)
    ensures Prepend(a, Prepend(b, r)) == Prepend(a + b, r)
    ensures Prepend("", r) == r
  {
    if r.Some? {
      assert "" + r.value == r.value;
      assert a + (b + r.value) == a + b + r.value;
    }
  }

  /** The source's loop: `rest` shrinks past each placeholder while `out` grows. */
  method RenderBody(body: string, names: seq<string>, arg: nat -> Option<string>)
    returns (r: Option<string>)
    ensures r == Render(body, names, arg)
  {
    var out, rest := "", body;
    PrependTwice("", "", Render(body, names, arg));
    while true
      invariant Prepend(out, Render(rest, names, arg)) == Render(body, names, arg)
      decreases |rest|
    {
      var at := Find(rest, ARG);
      if at == |rest| {
        break;
      }
      PrependTwice(out, rest[..at], RenderPlaceholder(rest[at..], names, arg));
      out := out + rest[..at];
      if at + 1 == |rest| || rest[at + 1] < '0' {
        return None;
      }
      var i := rest[at + 1] as int - '0' as int;
      PrependTwice(out, Show(if i < |names| then names[i] else "", arg(i)),
                   Render(rest[at + 2..], names, arg));
      match arg(i) {
        case Some(v) =>
          out := out + v;
        case None =>
          if i >= |names| {
            return None;
          }
          out := out + ("{" + names[i] + "}");
      }
      assert rest[at..][2..] == rest[at + 2..];
      rest := rest[at + 2..];
    }
    r := Some(out + rest);
  }

  // ---- The functions callers use

  /** What a generated function without arguments returns. */
  function TextOf(m: MessageRef, packs: seq<Pack>, lang: nat): string
    requires ValidFor(m, packs)
  {
    var body := Variant(m, packs, lang, None);
    if ARG in body then "" else body
  }

  function ArgAt(args: seq<string>): nat -> Option<string> {
    (i: nat) => if i < |args| then Some(args[i]) else None
  }

  /** What a generated function with arguments returns. */
  function Format(m: MessageRef, packs: seq<Pack>, lang: nat, count: Option<nat>, args: seq<string>)
    : Option<string>
    requires ValidFor(m, packs)
  {
    Render(Variant(m, packs, lang, count), m.args, ArgAt(args))
  }

  function Named(args: seq<(string, string)>, name: string): Option<string> {
    if args == [] then None
    else if args[0].0 == name then Some(args[0].1)
    else Named(args[1..], name)
  }

  /** The first value of that name, when there is one. */
  lemma {:induction false} NamedIsFirst(args: seq<(string, string)>, name: string)
    ensures match Named(args, name)
            case None => forall i | 0 <= i < |args| :: args[i].0 != name
            case Some(v) =>
              exists i | 0 <= i < |args| :: args[i] == (name, v) && forall j | 0 <= j < i :: args[j].0 != name
  {
    if args != [] {
      NamedIsFirst(args[1..], name);
      if args[0].0 != name && Named(args, name).Some? {
        var v := Named(args, name).value;
        var i :| 0 <= i < |args[1..]| && args[1..][i] == (name, v) && forall j | 0 <= j < i :: args[1..][j].0 != name;
        assert args[i + 1] == (name, v);
        forall j | 0 <= j < i + 1
          ensures args[j].0 != name
        {
          if j > 0 {
            assert args[1..][j - 1] == args[j];
          }
        }
      } else if args[0].0 == name {
        assert args[0] == (name, args[0].1);
      }
    }
  }

  /** How `Msg::fill` finds a placeholder's value: by name, a count filling its own. The source
      panics at an index outside the arguments; none is asked for, as `FillMeans` shows. */
  function FillAt(m: MessageRef, count: Option<nat>, args: seq<(string, string)>): nat -> Option<string> {
    (i: nat) =>
      if i >= |m.args| then None
      else
        var named := Named(args, m.args[i]);
        if named.Some? then named
        else if count.Some? && m.count == Some(i) then Some(Decimal(count.value))
        else None
  }

  /** A message looked up by key, filled by name: `format` without a count, `format_count`. */
  function Fill(m: MessageRef, packs: seq<Pack>, lang: nat, count: Option<nat>, args: seq<(string, string)>)
    : Option<string>
    requires ValidFor(m, packs)
  {
    Render(Variant(m, packs, lang, count), m.args, FillAt(m, count, args))
  }
}
