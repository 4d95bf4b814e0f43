/** The Apple back end: string catalogue entries, what the system makes of them, and the Swift
    accessor that passes the arguments. */
module Apple {
  import opened Wrappers
  import opened Text
  import opened Digits
  import opened Plural
  import opened Messages

  // ---- Writing an entry

  function DoublePercent(t: string): string {
    if t == "" then "" else (if t[0] == '%' then "%%" else [t[0]]) + DoublePercent(t[1..])
  }

  function PieceFormat(i: Ix, count: Option<nat>, formatted: bool): string {
    match i
    case IxText(t) => if formatted then DoublePercent(t) else t
    case IxArg(n) => if count == Some(n) then "%arg" else "%" + Decimal(n + 1) + "$@"
  }

  /** Pieces in turn: a placeholder becomes a numbered `%N$@`, the count a bare `%arg`. */
  function FormatString(ix: seq<Ix>, count: Option<nat>, formatted: bool): string {
    if ix == [] then "" else PieceFormat(ix[0], count, formatted) + FormatString(ix[1..], count, formatted)
  }

  method WriteFormat(ix: seq<Ix>, count: Option<nat>, formatted: bool) returns (out: string)
    ensures out == FormatString(ix, count, formatted)
  {
    out := "";
    for i := 0 to |ix|
      invariant out + FormatString(ix[i..], count, formatted) == FormatString(ix, count, formatted)
    {
      assert ix[i..][0] == ix[i] && ix[i..][1..] == ix[i + 1..];
      Joined(out, PieceFormat(ix[i], count, formatted), FormatString(ix[i + 1..], count, formatted));
      out := out + PieceFormat(ix[i], count, formatted);
    }
    assert out + "" == out;
  }

  lemma {:induction false} Joined(a: string, b: string, c: string)
    ensures (a + b) + c == a + (b + c)
  {
  }

  /** One language's entry: a string unit, or the count's substitution with a form per variant. */
  datatype Unit =
    | StringUnit(value: string)
    | Substitution(argNum: nat, forms: seq<(Category, string)>)

  function Forms(cases: seq<(Category, seq<Ix>)>, count: Option<nat>): seq<(Category, string)> {
    seq(|cases|, i requires 0 <= i < |cases| => (cases[i].0, FormatString(cases[i].1, count, true)))
  }

  /** `None` is the source's unreachable arm: a plural without a count. */
  function UnitOf(c: Compiled, count: Option<nat>, formatted: bool): Option<Unit> {
    match (c, count)
    case (CPlain(ix), _) => Some(StringUnit(FormatString(ix, None, formatted)))
    case (CPlural(cases), Some(n)) => Some(Substitution(n + 1, Forms(SortCases(cases, Number), count)))
    case (CPlural(_), None) => None
  }

  // ---- What the system reads

  /** A format string with its arguments in: `%%`, `%N$@` with N from 1, and `%arg` for the
      number a substitution counts. */
  function FormatApple(s: string, args: seq<string>, number: Option<string>): Option<string>
    decreases |s|
  {
    if s == "" then Some("")
    else if s[0] != '%' then Before([s[0]], FormatApple(s[1..], args, number))
    else if |s| > 1 && s[1] == '%' then Before("%", FormatApple(s[2..], args, number))
    else if "%arg" <= s then
      if number == None then None else Before(number.value, FormatApple(s[4..], args, number))
    else
      var run := DigitRun(s[1..]);
      var rest := s[1 + run..];
      if run == 0 || |rest| < 2 || rest[0] != '$' || rest[1] != '@' then None
      else
        var n := Value(s[1..][..run]);
        if n == 0 || n > |args| then None
        else Before(args[n - 1], FormatApple(rest[2..], args, number))
  }

  /** The text of an entry for a category of the count. A catalogue string is formatted only when
      the accessor interpolates something into it. */
  function ReadUnit(unit: Unit, c: Category, args: seq<string>): Option<string> {
    match unit
    case StringUnit(value) => if args == [] then Some(value) else FormatApple(value, args, None)
    case Substitution(argNum, forms) =>
      if argNum == 0 || argNum > |args| then None
      else
        var own := CaseFor(forms, c);
        var form := if own.Some? then own else CaseFor(forms, Other);
        match form
        case None => None
        case Some(f) => FormatApple(f, args, Some(args[argNum - 1]))
  }

  // ---- Reading undoes writing

  lemma {:induction false} FormatText(t: string, rest: string, args: seq<string>, number: Option<string>)
    ensures FormatApple(DoublePercent(t) + rest, args, number) == Before(t, FormatApple(rest, args, number))
  {
    if t == "" {
      assert DoublePercent(t) + rest == rest;
      assert FormatApple(rest, args, number).Some? ==>
          "" + FormatApple(rest, args, number).value == FormatApple(rest, args, number).value;
    } else {
      var head := if t[0] == '%' then "%%" else [t[0]];
      assert DoublePercent(t) + rest == head + (DoublePercent(t[1..]) + rest);
      assert (head + (DoublePercent(t[1..]) + rest))[|head|..] == DoublePercent(t[1..]) + rest;
      FormatText(t[1..], rest, args, number);
      assert t == [t[0]] + t[1..];
      if FormatApple(rest, args, number).Some? {
        Joined([t[0]], t[1..], FormatApple(rest, args, number).value);
      }
    }
  }

  lemma {:induction false} FormatArg(n: nat, rest: string, args: seq<string>, number: Option<string>)
    ensures FormatApple("%" + Decimal(n + 1) + "$@" + rest, args, number)
         == if n < |args| then Before(args[n], FormatApple(rest, args, number)) else None
  {
    var digits, tail := Decimal(n + 1), "$@" + rest;
    var s := "%" + digits + "$@" + rest;
    assert s == ['%'] + (digits + tail);
    assert s[1..] == digits + tail;
    DigitRunOf(digits, tail);
    assert (digits + tail)[..|digits|] == digits;
    ValueOfDecimal(n + 1);
    assert s[1 + |digits|..] == tail && tail[2..] == rest;
    assert digits[0] in digits;
    assert s[1] == digits[0];
  }

  lemma {:induction false} FormatPiece(i: Ix, rest: string, count: Option<nat>, args: seq<string>,
                                       number: Option<string>)
    requires count.Some? ==> count.value < |args| && number == Some(args[count.value])
    ensures FormatApple(PieceFormat(i, count, true) + rest, args, number)
         == match i
            case IxText(t) => Before(t, FormatApple(rest, args, number))
            case IxArg(n) => if n < |args| then Before(args[n], FormatApple(rest, args, number)) else None
  {
    match i
    case IxText(t) =>
      FormatText(t, rest, args, number);
    case IxArg(n) =>
      if count == Some(n) {
        assert ("%arg" + rest)[4..] == rest;
      } else {
        FormatArg(n, rest, args, number);
      }
  }

  /** A formatted catalogue string reads as the pattern it was written from. */
  lemma {:induction false} FormatInterpolates(ix: seq<Ix>, count: Option<nat>, args: seq<string>, number: Option<string>)
    requires count.Some? ==> count.value < |args| && number == Some(args[count.value])
    ensures FormatApple(FormatString(ix, count, true), args, number) == Interpolate(ix, args)
  {
    if ix != [] {
      FormatInterpolates(ix[1..], count, args, number);
      FormatPiece(ix[0], FormatString(ix[1..], count, true), count, args, number);
    }
  }

  lemma {:induction false} UnformattedInterpolates(ix: seq<Ix>, args: seq<string>)
    requires forall i | 0 <= i < |ix| :: ix[i].IxText?
    ensures Interpolate(ix, args) == Some(FormatString(ix, None, false))
  {
    if ix != [] {
      UnformattedInterpolates(ix[1..], args);
    }
  }

  lemma {:induction false} FormsFor(cases: seq<(Category, seq<Ix>)>, count: Option<nat>, c: Category)
    ensures CaseFor(Forms(cases, count), c)
         == match CaseFor(cases, c)
            case None => None
            case Some(ix) => Some(FormatString(ix, count, true))
  {
    if cases != [] {
      FormsFor(cases[1..], count, c);
      assert Forms(cases, count)[1..] == Forms(cases[1..], count);
    }
  }

  // ---- The Swift accessor

  /** The accessor's default value: literal text, and parameters by position. */
  datatype Segment = Literal(text: string) | Parameter(n: nat)

  function Order(ix: seq<Ix>): seq<nat> {
    if ix == [] then [] else (if ix[0].IxArg? then [ix[0].n] else []) + Order(ix[1..])
  }

  function Segments(ix: seq<Ix>): seq<Segment> {
    seq(|ix|, i requires 0 <= i < |ix| => if ix[i].IxText? then Literal(ix[i].text) else Parameter(ix[i].n))
  }

  function UpTo(n: nat): seq<nat> {
    seq(n, i requires 0 <= i < n => i)
  }

  function Parameters(n: nat): seq<Segment> {
    seq(n, i requires 0 <= i < n => Parameter(i))
  }

  /** The English when it shows each argument once and in order, else the arguments alone. */
  function DefaultValue(ix: seq<Ix>, arity: nat): seq<Segment> {
    if Order(ix) != UpTo(arity) then Parameters(arity) else Segments(ix)
  }

  function Passed(segments: seq<Segment>): seq<nat> {
    if segments == [] then []
    else (if segments[0].Parameter? then [segments[0].n] else []) + Passed(segments[1..])
  }

  lemma {:induction false} PassedSegments(ix: seq<Ix>)
    ensures Passed(Segments(ix)) == Order(ix)
  {
    if ix != [] {
      PassedSegments(ix[1..]);
      assert Segments(ix)[1..] == Segments(ix[1..]);
    }
  }

  lemma {:induction false} PassedParameters(n: nat, arity: nat)
    requires n <= arity
    ensures Passed(Parameters(arity)[n..]) == UpTo(arity)[n..]
    decreases arity - n
  {
    if n < arity {
      PassedParameters(n + 1, arity);
      assert Parameters(arity)[n..][1..] == Parameters(arity)[n + 1..];
      assert UpTo(arity)[n..] == [n] + UpTo(arity)[n + 1..];
    }
  }

  /** In both branches the accessor interpolates every parameter, once and in index order, which
      is the numbering the catalogue's `%N$` relies on. */
  lemma {:induction false} AccessorPassesInOrder(ix: seq<Ix>, arity: nat)
    ensures Passed(DefaultValue(ix, arity)) == UpTo(arity)
  {
    PassedSegments(ix);
    PassedParameters(0, arity);
    assert Parameters(arity)[0..] == Parameters(arity) && UpTo(arity)[0..] == UpTo(arity);
  }

  /** What the accessor's default value is: the English itself when it shows the arguments once and in
      order, and no English at all when it does not. */
  lemma {:induction false} DefaultIsEnglish(ix: seq<Ix>, arity: nat)
    ensures if Order(ix) == UpTo(arity) then
              && |DefaultValue(ix, arity)| == |ix|
              && forall i | 0 <= i < |ix| ::
                   match ix[i]
                   case IxText(t) => DefaultValue(ix, arity)[i] == Literal(t)
                   case IxArg(n) => DefaultValue(ix, arity)[i] == Parameter(n)
            else |DefaultValue(ix, arity)| == arity && forall s <- DefaultValue(ix, arity) :: s.Parameter?
  {
  }
}
