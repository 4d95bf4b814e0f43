/** How a message body is stored: text as it is, a placeholder as `ARG` and an index character,
    each variant of a plural behind `CASE` and a category character. */
module Packing {
  import opened Wrappers
  import opened Text
  import opened Plural
  import opened Messages

  const ARG: char := '\U{1}'
  const CASE: char := '\U{2}'

  datatype PackError = ControlCharacter | TooManyPlaceholders

  function IndexChar(n: nat): (c: char)
    requires n < 64
    ensures c != ARG && c != CASE && c as int - '0' as int == n
  {
    ('0' as int + n) as char
  }

  function Tag(c: Category): (t: char)
    ensures t != ARG && t != CASE
  {
    ('0' as int + Number(c)) as char
  }

  function PackIx(ix: seq<Ix>): Result<string, PackError> {
    if ix == [] then Ok("")
    else
      var head :- match ix[0]
        case IxText(t) => if ARG in t || CASE in t then Err(ControlCharacter) else Ok(t)
        case IxArg(n) => if n < 64 then Ok([ARG, IndexChar(n)]) else Err(TooManyPlaceholders);
      var tail :- PackIx(ix[1..]);
      Ok(head + tail)
  }

  function PackCases(cases: seq<(Category, seq<Ix>)>): Result<string, PackError> {
    if cases == [] then Ok("")
    else
      var head :- PackIx(cases[0].1);
      var tail :- PackCases(cases[1..]);
      Ok([CASE, Tag(cases[0].0)] + head + tail)
  }

  /** The stored body. Text with a character the format reserves is refused. */
  function Packed(c: Compiled): Result<string, PackError> {
    match c
    case CPlain(ix) => PackIx(ix)
    case CPlural(cases) => PackCases(cases)
  }

  /** The closure that appends one variant to `out`. */
  method PackText(before: string, ix: seq<Ix>) returns (r: Result<string, PackError>)
    ensures r == Extend(before, PackIx(ix))
  {
    var out := before;
    for i := 0 to |ix|
      invariant Extend(out, PackIx(ix[i..])) == Extend(before, PackIx(ix))
    {
      ghost var rest := PackIx(ix[i + 1..]);
      assert ix[i..][0] == ix[i] && ix[i..][1..] == ix[i + 1..];
      match ix[i]
      case IxText(t) =>
        if ARG in t || CASE in t {
          return Err(ControlCharacter);
        }
        ExtendTwice(out, t, rest);
        out := out + t;
      case IxArg(n) =>
        if n >= 64 {
          return Err(TooManyPlaceholders);
        }
        ExtendTwice(out, [ARG, IndexChar(n)], rest);
        assert out + [ARG, IndexChar(n)] == out + [ARG] + [IndexChar(n)];
        out := out + [ARG];
        out := out + [IndexChar(n)];
    }
    ExtendTwice(out, "", PackIx([]));
    r := Ok(out);
  }

  method PackBody(c: Compiled) returns (r: Result<string, PackError>)
    ensures r == Packed(c)
  {
    match c
    case CPlain(ix) =>
      r := PackText("", ix);
      ExtendTwice("", "", PackIx(ix));
    case CPlural(cases) =>
      var out := "";
      ExtendTwice("", "", PackCases(cases));
      for i := 0 to |cases|
        invariant Extend(out, PackCases(cases[i..])) == PackCases(cases)
      {
        assert cases[i..][0] == cases[i] && cases[i..][1..] == cases[i + 1..];
        ghost var head, rest := PackIx(cases[i].1), PackCases(cases[i + 1..]);
        ghost var was, lead := out, [CASE, Tag(cases[i].0)];
        out := out + [CASE];
        out := out + [Tag(cases[i].0)];
        assert out == was + lead;
        var text := PackText(out, cases[i].1);
        if text.Err? {
          return text;
        }
        assert was + (lead + head.value) == was + lead + head.value;
        ExtendTwice(was, lead + head.value, rest);
        out := text.value;
      }
      ExtendTwice(out, "", PackCases([]));
      r := Ok(out);
  }

  /** What can be packed: no reserved character in a text, fewer than 64 placeholders. */
  ghost predicate Packable(ix: seq<Ix>) {
    forall i | 0 <= i < |ix| ::
      match ix[i]
      case IxText(t) => '\U{1}' !in t && '\U{2}' !in t
      case IxArg(n) => n < 64
  }

  lemma {:induction false} PackIxFacts(ix: seq<Ix>)
    ensures PackIx(ix).Ok? <==> Packable(ix)
    ensures PackIx(ix).Ok? ==> CASE !in PackIx(ix).value
    ensures PackIx(ix).Ok? && (forall i | 0 <= i < |ix| :: ix[i].IxText?) ==> ARG !in PackIx(ix).value
    ensures PackIx(ix).Ok? && (exists i | 0 <= i < |ix| :: ix[i].IxArg? || ix[i].text != "") ==>
              PackIx(ix).value != ""
  {
    if ix != [] {
      PackIxFacts(ix[1..]);
      assert Packable(ix) ==> Packable(ix[1..]);
    }
  }

  ghost function CategoryDigit(c: Category): char {
    match c
    case Zero => '0'
    case One => '1'
    case Two => '2'
    case Few => '3'
    case Many => '4'
    case Other => '5'
  }

  /** The bytes of one piece, and of one variant in front of its text. */
  lemma {:induction false} StoredBytes(t: string, n: nat, c: Category)
    requires '\U{1}' !in t && '\U{2}' !in t && n < 64
    ensures PackIx([IxText(t)]) == Ok(t)
    ensures PackIx([IxArg(n)]) == Ok(['\U{1}', ('0' as int + n) as char])
    ensures Packed(CPlural([(c, [IxText(t)])])) == Ok(['\U{2}', CategoryDigit(c)] + t)
  {
    assert [IxText(t)][1..] == [] && [IxArg(n)][1..] == [] && t + "" == t;
    assert [ARG, IndexChar(n)] + "" == [ARG, IndexChar(n)];
    var cases := [(c, [IxText(t)])];
    assert PackIx(cases[0].1) == Ok(t) && cases[1..] == [];
    assert PackCases(cases) == Ok([CASE, Tag(c)] + t + "");
    assert [CASE, Tag(c)] + t + "" == [CASE, Tag(c)] + t;
    assert Tag(c) == CategoryDigit(c);
  }

  /** Pieces, and variants, are stored one behind the other. */
  lemma {:induction false} PiecesInOrder(a: seq<Ix>, b: seq<Ix>)
    requires PackIx(a).Ok? && PackIx(b).Ok?
    ensures PackIx(a + b) == Ok(PackIx(a).value + PackIx(b).value)
  {
    if a == [] {
      assert a + b == b && "" + PackIx(b).value == PackIx(b).value;
    } else {
      PiecesInOrder(a[1..], b);
      assert (a + b)[1..] == a[1..] + b;
      var head := match a[0] case IxText(t) => t case IxArg(n) => if n < 64 then [ARG, IndexChar(n)] else "";
      Associative(head, PackIx(a[1..]).value, PackIx(b).value);
    }
  }

  lemma {:induction false} VariantsInOrder(a: seq<(Category, seq<Ix>)>, b: seq<(Category, seq<Ix>)>)
    requires PackCases(a).Ok? && PackCases(b).Ok?
    ensures PackCases(a + b) == Ok(PackCases(a).value + PackCases(b).value)
  {
    if a == [] {
      assert a + b == b && "" + PackCases(b).value == PackCases(b).value;
    } else {
      VariantsInOrder(a[1..], b);
      assert (a + b)[1..] == a[1..] + b;
      Associative([CASE, Tag(a[0].0)] + PackIx(a[0].1).value, PackCases(a[1..]).value, PackCases(b).value);
    }
  }
}
