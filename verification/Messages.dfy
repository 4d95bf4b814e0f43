/** Messages, their argument order, and the compiler from names to argument indices. */
module Messages {
  import opened Wrappers
  import opened Plural
  import opened Pattern

  datatype Message =
    | Plain(pattern: Pattern)
    | Plural(count: string, cases: seq<(Category, Pattern)>)

  /** What the readers of message files produce: patterns in normal form, at least one variant
      of a plural, no category twice. */
  ghost predicate WellFormed(m: Message) {
    match m
    case Plain(p) => p != [] && Normal(p)
    case Plural(count, cases) =>
      && CheckPlaceholder(count) == None
      && cases != []
      && (forall i | 0 <= i < |cases| :: cases[i].1 != [] && Normal(cases[i].1))
      && forall i, j | 0 <= i < j < |cases| :: cases[i].0 != cases[j].0
  }

  // ---- Variants

  /** The first variant for `c`. */
  function CaseFor<T>(cases: seq<(Category, T)>, c: Category): (r: Option<T>)
    ensures r == None <==> forall i | 0 <= i < |cases| :: cases[i].0 != c
  {
    if cases == [] then None
    else if cases[0].0 == c then Some(cases[0].1)
    else CaseFor(cases[1..], c)
  }

  /** Of distinct variants, the one for `c`. */
  lemma {:induction false} CaseForIs<T>(cases: seq<(Category, T)>, c: Category, x: T)
    requires forall i, j | 0 <= i < j < |cases| :: cases[i].0 != cases[j].0
    ensures CaseFor(cases, c) == Some(x) <==> exists i | 0 <= i < |cases| :: cases[i] == (c, x)
  {
    if cases != [] {
      CaseForIs(cases[1..], c, x);
      if i :| 0 <= i < |cases[1..]| && cases[1..][i] == (c, x) {
        assert cases[i + 1] == (c, x);
      }
      if i :| 0 <= i < |cases| && cases[i] == (c, x) {
        assert i > 0 ==> cases[1..][i - 1] == (c, x);
      }
      if cases[0].0 == c && CaseFor(cases, c) == Some(x) {
        assert cases[0] == (c, x);
      }
    }
  }

  function InsertCase<T>(x: (Category, T), cases: seq<(Category, T)>, rank: Category -> nat)
    : seq<(Category, T)>
  {
    if cases == [] || rank(x.0) <= rank(cases[0].0) then [x] + cases
    else [cases[0]] + InsertCase(x, cases[1..], rank)
  }

  /** The stable sort of variants by a rank of their categories. */
  function SortCases<T>(cases: seq<(Category, T)>, rank: Category -> nat): seq<(Category, T)> {
    if cases == [] then []
    else InsertCase(cases[0], SortCases(cases[1..], rank), rank)
  }

  ghost predicate Injective(rank: Category -> nat) {
    forall a, b | rank(a) == rank(b) :: a == b
  }

  lemma {:induction false} CaseForInsert<T>(x: (Category, T), cases: seq<(Category, T)>,
                                            rank: Category -> nat, c: Category)
    requires Injective(rank)
    ensures CaseFor(InsertCase(x, cases, rank), c) == CaseFor([x] + cases, c)
  {
    assert ([x] + cases)[1..] == cases;
    if cases != [] && rank(cases[0].0) < rank(x.0) {
      CaseForInsert(x, cases[1..], rank, c);
      assert ([x] + cases[1..])[1..] == cases[1..];
      var r := InsertCase(x, cases, rank);
      assert r[0] == cases[0] && r[1..] == InsertCase(x, cases[1..], rank);
    }
  }

  /** Sorting the variants never changes the one read for a category. */
  lemma {:induction false} CaseForSorted<T>(cases: seq<(Category, T)>, rank: Category -> nat, c: Category)
    requires Injective(rank)
    ensures CaseFor(SortCases(cases, rank), c) == CaseFor(cases, c)
  {
    if cases != [] {
      var rest := SortCases(cases[1..], rank);
      CaseForSorted(cases[1..], rank, c);
      CaseForInsert(cases[0], rest, rank, c);
      assert ([cases[0]] + rest)[1..] == rest;
    }
  }

  // ---- Placeholders and arguments

  function NameSet(p: Pattern): set<string> {
    if p == [] then {}
    else (if p[0].Arg? then {p[0].name} else {}) + NameSet(p[1..])
  }

  function CaseNames(cases: seq<(Category, Pattern)>): set<string> {
    if cases == [] then {} else NameSet(cases[0].1) + CaseNames(cases[1..])
  }

  /** The names a message shows or counts by. */
  function Placeholders(m: Message): set<string> {
    match m
    case Plain(p) => NameSet(p)
    case Plural(count, cases) => CaseNames(cases) + {count}
  }

  function PushNames(out: seq<string>, p: Pattern): seq<string>
    decreases |p|
  {
    if p == [] then out
    else if p[0].Arg? && p[0].name !in out then PushNames(out + [p[0].name], p[1..])
    else PushNames(out, p[1..])
  }

  function PushCases(out: seq<string>, cases: seq<(Category, Pattern)>): seq<string>
    decreases |cases|
  {
    if cases == [] then out else PushCases(PushNames(out, cases[0].1), cases[1..])
  }

  /** `other` first, then CLDR's order. */
  function ArgRank(c: Category): nat {
    if c == Other then 0 else 1 + Number(c)
  }

  /** The names in the order a generated function takes them. */
  function Args(m: Message): seq<string> {
    match m
    case Plain(p) => PushNames([], p)
    case Plural(count, cases) =>
      var out := PushCases([], SortCases(cases, ArgRank));
      if count in out then out else [count] + out
  }

  method PushNamesOf(before: seq<string>, p: Pattern) returns (out: seq<string>)
    ensures out == PushNames(before, p)
  {
    out := before;
    for i := 0 to |p|
      invariant PushNames(out, p[i..]) == PushNames(before, p)
    {
      assert p[i..][0] == p[i] && p[i..][1..] == p[i + 1..];
      if p[i].Arg? && p[i].name !in out {
        out := out + [p[i].name];
      }
    }
  }

  method ArgsOf(m: Message) returns (out: seq<string>)
    ensures out == Args(m)
  {
    match m
    case Plain(p) =>
      out := PushNamesOf([], p);
    case Plural(count, cases) =>
      var ordered := SortCases(cases, ArgRank);
      out := [];
      for i := 0 to |ordered|
        invariant PushCases(out, ordered[i..]) == PushCases([], ordered)
      {
        assert ordered[i..][0] == ordered[i] && ordered[i..][1..] == ordered[i + 1..];
        out := PushNamesOf(out, ordered[i].1);
      }
      if count !in out {
        out := [count] + out;
      }
  }

  /** Placeholder names as they are shown, repeats kept. */
  ghost function Shown(p: Pattern): seq<string> {
    if p == [] then [] else (if p[0].Arg? then [p[0].name] else []) + Shown(p[1..])
  }

  ghost function ShownIn(cases: seq<(Category, Pattern)>): seq<string> {
    if cases == [] then [] else Shown(cases[0].1) + ShownIn(cases[1..])
  }

  /** The names of `shown`, each where it first appears. */
  ghost function FirstShown(shown: seq<string>): seq<string> {
    if shown == [] then []
    else
      var before := FirstShown(shown[..|shown| - 1]);
      if shown[|shown| - 1] in before then before else before + [shown[|shown| - 1]]
  }

  lemma {:induction false} FirstShownHas(shown: seq<string>, n: string)
    ensures n in FirstShown(shown) <==> n in shown
  {
    if shown != [] {
      var last := |shown| - 1;
      FirstShownHas(shown[..last], n);
      assert shown == shown[..last] + [shown[last]];
    }
  }

  lemma {:induction false} FirstShownNext(shown: seq<string>, n: string)
    ensures FirstShown(shown + [n])
         == if n in FirstShown(shown) then FirstShown(shown) else FirstShown(shown) + [n]
  {
    assert (shown + [n])[..|shown|] == shown;
  }

  lemma {:induction false} InCons(n: string, shown: seq<string>, x: string)
    ensures x in [n] + shown <==> x == n || x in shown
  {
  }

  lemma {:induction false} FirstShownAfter(n: string, shown: seq<string>)
    requires n !in shown
    ensures FirstShown([n] + shown) == [n] + FirstShown(shown)
  {
    if shown == [] {
      assert [n] + shown == [n] && [n][..0] == [];
    } else {
      var front, x := shown[..|shown| - 1], shown[|shown| - 1];
      assert shown == front + [x];
      FirstShownAfter(n, front);
      assert [n] + shown == [n] + front + [x];
      FirstShownNext([n] + front, x);
      FirstShownNext(front, x);
      InCons(n, FirstShown(front), x);
      assert [n] + (FirstShown(front) + [x]) == [n] + FirstShown(front) + [x];
    }
  }

  lemma {:induction false} PositionAppend(a: seq<string>, n: string, x: string)
    ensures Position(a + [x], n)
         == if n in a then Position(a, n) else if n == x then Some(|a|) else None
  {
    if a == [] {
      assert a + [x] == [x];
    } else {
      assert (a + [x])[1..] == a[1..] + [x];
      PositionAppend(a[1..], n, x);
    }
  }

  /** No name twice, and the order is that of the first positions. */
  lemma {:induction false} FirstShownOrder(shown: seq<string>, i: nat, j: nat)
    requires i < j < |FirstShown(shown)|
    ensures FirstShown(shown)[i] in shown && FirstShown(shown)[j] in shown
    ensures Position(shown, FirstShown(shown)[i]).value < Position(shown, FirstShown(shown)[j]).value
  {
    var last := |shown| - 1;
    var before, x := FirstShown(shown[..last]), shown[last];
    assert shown == shown[..last] + [x];
    FirstShownHas(shown[..last], x);
    FirstShownHas(shown[..last], FirstShown(shown)[i]);
    FirstShownHas(shown[..last], FirstShown(shown)[j]);
    PositionAppend(shown[..last], FirstShown(shown)[i], x);
    PositionAppend(shown[..last], FirstShown(shown)[j], x);
    if j < |before| {
      FirstShownOrder(shown[..last], i, j);
    }
  }

  lemma {:induction false} ShownAssociative(a: seq<string>, b: seq<string>, c: seq<string>)
    ensures a + b + c == a + (b + c)
  {
  }

  lemma {:induction false} PushNamesFirst(shown: seq<string>, p: Pattern)
    ensures PushNames(FirstShown(shown), p) == FirstShown(shown + Shown(p))
    decreases |p|
  {
    if p == [] {
      assert shown + Shown(p) == shown;
    } else if p[0].Arg? {
      var n := p[0].name;
      FirstShownNext(shown, n);
      PushNamesFirst(shown + [n], p[1..]);
      ShownAssociative(shown, [n], Shown(p[1..]));
    } else {
      PushNamesFirst(shown, p[1..]);
      assert Shown(p) == Shown(p[1..]);
    }
  }

  lemma {:induction false} PushCasesFirst(shown: seq<string>, cases: seq<(Category, Pattern)>)
    ensures PushCases(FirstShown(shown), cases) == FirstShown(shown + ShownIn(cases))
    decreases |cases|
  {
    if cases == [] {
      assert shown + ShownIn(cases) == shown;
    } else {
      PushNamesFirst(shown, cases[0].1);
      PushCasesFirst(shown + Shown(cases[0].1), cases[1..]);
      ShownAssociative(shown, Shown(cases[0].1), ShownIn(cases[1..]));
    }
  }

  lemma {:induction false} ShownIsNameSet(p: Pattern, n: string)
    ensures n in Shown(p) <==> n in NameSet(p)
  {
    if p != [] {
      ShownIsNameSet(p[1..], n);
    }
  }

  lemma {:induction false} ShownInIsCaseNames(cases: seq<(Category, Pattern)>, n: string)
    ensures n in ShownIn(cases) <==> n in CaseNames(cases)
  {
    if cases != [] {
      ShownIsNameSet(cases[0].1, n);
      ShownInIsCaseNames(cases[1..], n);
    }
  }

  /** The text the argument order is read from: a plural's `other` variant first; a count no
      variant shows stands before everything. */
  ghost function ReadingOrder(m: Message): seq<string> {
    match m
    case Plain(p) => Shown(p)
    case Plural(count, cases) =>
      var shown := ShownIn(SortCases(cases, ArgRank));
      if count in shown then shown else [count] + shown
  }

  lemma {:induction false} ArgsAreFirstShown(m: Message)
    ensures Args(m) == FirstShown(ReadingOrder(m))
  {
    match m
    case Plain(p) =>
      PushNamesFirst([], p);
      assert [] + Shown(p) == Shown(p);
    case Plural(count, cases) =>
      var sorted := SortCases(cases, ArgRank);
      PushCasesFirst([], sorted);
      assert [] + ShownIn(sorted) == ShownIn(sorted);
      FirstShownHas(ShownIn(sorted), count);
      if count !in ShownIn(sorted) {
        FirstShownAfter(count, ShownIn(sorted));
      }
  }

  /** Arguments stand in the order their names first appear, each once. */
  lemma {:induction false} ArgsFollowReadingOrder(m: Message, i: nat, j: nat)
    requires i < j < |Args(m)|
    ensures Args(m)[i] != Args(m)[j]
    ensures Args(m)[i] in ReadingOrder(m) && Args(m)[j] in ReadingOrder(m)
    ensures Position(ReadingOrder(m), Args(m)[i]).value < Position(ReadingOrder(m), Args(m)[j]).value
  {
    ArgsAreFirstShown(m);
    FirstShownOrder(ReadingOrder(m), i, j);
  }

  // ---- The order written out

  ghost predicate Ascends<T>(cases: seq<(Category, T)>, rank: Category -> nat) {
    forall i, j | 0 <= i < j < |cases| :: rank(cases[i].0) <= rank(cases[j].0)
  }

  lemma {:induction false} InsertHas<T>(x: (Category, T), cases: seq<(Category, T)>, rank: Category -> nat,
                                        y: (Category, T))
    ensures y in InsertCase(x, cases, rank) <==> y == x || y in cases
  {
    if cases != [] {
      InsertHas(x, cases[1..], rank, y);
      assert y in cases <==> y == cases[0] || y in cases[1..];
    }
  }

  lemma {:induction false} InsertAscends<T>(x: (Category, T), cases: seq<(Category, T)>, rank: Category -> nat)
    requires Ascends(cases, rank)
    ensures Ascends(InsertCase(x, cases, rank), rank)
  {
    if cases != [] && rank(cases[0].0) < rank(x.0) {
      var rest := InsertCase(x, cases[1..], rank);
      InsertAscends(x, cases[1..], rank);
      forall j | 0 <= j < |rest|
        ensures rank(cases[0].0) <= rank(rest[j].0)
      {
        InsertHas(x, cases[1..], rank, rest[j]);
      }
    }
  }

  /** Sorting puts the variants in the order of the rank. */
  lemma {:induction false} SortAscends<T>(cases: seq<(Category, T)>, rank: Category -> nat)
    ensures Ascends(SortCases(cases, rank), rank) && |SortCases(cases, rank)| == |cases|
  {
    if cases != [] {
      SortAscends(cases[1..], rank);
      InsertAscends(cases[0], SortCases(cases[1..], rank), rank);
      InsertSize(cases[0], SortCases(cases[1..], rank), rank);
    }
  }

  lemma {:induction false} SortHas<T>(cases: seq<(Category, T)>, rank: Category -> nat, y: (Category, T))
    ensures y in SortCases(cases, rank) <==> y in cases
  {
    if cases != [] {
      SortHas(cases[1..], rank, y);
      InsertHas(cases[0], SortCases(cases[1..], rank), rank, y);
      assert y in cases <==> y == cases[0] || y in cases[1..];
    }
  }

  lemma {:induction false} InsertSize<T>(x: (Category, T), cases: seq<(Category, T)>, rank: Category -> nat)
    ensures |InsertCase(x, cases, rank)| == |cases| + 1
  {
    if cases != [] {
      InsertSize(x, cases[1..], rank);
    }
  }

  ghost predicate Apart<T>(cases: seq<(Category, T)>) {
    forall i, j | 0 <= i < j < |cases| :: cases[i].0 != cases[j].0
  }

  lemma {:induction false} InsertApart<T>(x: (Category, T), cases: seq<(Category, T)>, rank: Category -> nat)
    requires Apart(cases) && forall y | y in cases :: y.0 != x.0
    ensures Apart(InsertCase(x, cases, rank))
  {
    if cases != [] && rank(cases[0].0) < rank(x.0) {
      var rest := InsertCase(x, cases[1..], rank);
      InsertApart(x, cases[1..], rank);
      forall j | 0 <= j < |rest|
        ensures cases[0].0 != rest[j].0
      {
        InsertHas(x, cases[1..], rank, rest[j]);
        assert cases[0] in cases;
      }
    }
  }

  lemma {:induction false} SortApart<T>(cases: seq<(Category, T)>, rank: Category -> nat)
    requires Apart(cases)
    ensures Apart(SortCases(cases, rank))
  {
    if cases != [] {
      var rest := SortCases(cases[1..], rank);
      SortApart(cases[1..], rank);
      forall y | y in rest
        ensures y.0 != cases[0].0
      {
        SortHas(cases[1..], rank, y);
        var i :| 0 <= i < |cases[1..]| && cases[1..][i] == y;
        assert cases[i + 1] == y;
      }
      InsertApart(cases[0], SortCases(cases[1..], rank), rank);
    }
  }

  /** What the variant of `c` shows; nothing without one. */
  ghost function ShownOf(cases: seq<(Category, Pattern)>, c: Category): seq<string> {
    match CaseFor(cases, c)
    case None => []
    case Some(p) => Shown(p)
  }

  /** The names shown by the variants, `other` first, then in CLDR's order. */
  ghost function OtherFirst(cases: seq<(Category, Pattern)>): seq<string> {
    ShownOf(cases, Other) + (ShownOf(cases, Zero) + (ShownOf(cases, One) + (ShownOf(cases, Two)
    + (ShownOf(cases, Few) + (ShownOf(cases, Many) + [])))))
  }

  ghost function Ranked(r: nat): Category
    requires r < 6
  {
    [Other, Zero, One, Two, Few, Many][r]
  }

  ghost function ShownFrom(cases: seq<(Category, Pattern)>, r: nat): seq<string>
    requires r <= 6
    decreases 6 - r, |cases|
  {
    if r == 6 then [] else ShownOf(cases, Ranked(r)) + ShownFrom(cases, r + 1)
  }

  lemma {:induction false} RankedRank(c: Category)
    ensures ArgRank(c) < 6 && Ranked(ArgRank(c)) == c
    ensures forall r | 0 <= r < 6 :: ArgRank(Ranked(r)) == r
  {
  }

  lemma {:induction false} ShownFromTail(cases: seq<(Category, Pattern)>, r: nat)
    requires r <= 6 && cases != [] && ArgRank(cases[0].0) < r
    ensures ShownFrom(cases, r) == ShownFrom(cases[1..], r)
    decreases 6 - r
  {
    if r < 6 {
      RankedRank(cases[0].0);
      ShownFromTail(cases, r + 1);
    }
  }

  /** Sorted variants show their names rank by rank. */
  lemma {:induction false} SortedShows(cases: seq<(Category, Pattern)>, r: nat)
    requires r <= 6 && Apart(cases) && Ascends(cases, ArgRank)
    requires forall i | 0 <= i < |cases| :: ArgRank(cases[i].0) >= r
    ensures ShownIn(cases) == ShownFrom(cases, r)
    decreases 6 - r
  {
    if r == 6 {
      if cases != [] {
        RankedRank(cases[0].0);
      }
    } else if cases != [] && ArgRank(cases[0].0) == r {
      RankedRank(cases[0].0);
      AfterFirst(cases, r);
      SortedShows(cases[1..], r + 1);
      ShownFromTail(cases, r + 1);
    } else {
      RankedRank(Other);
      NoneOfRank(cases, r);
      SortedShows(cases, r + 1);
    }
  }

  lemma {:induction false} AfterFirst(cases: seq<(Category, Pattern)>, r: nat)
    requires cases != [] && Apart(cases) && Ascends(cases, ArgRank) && ArgRank(cases[0].0) == r
    ensures Apart(cases[1..]) && Ascends(cases[1..], ArgRank)
    ensures forall i | 0 <= i < |cases[1..]| :: ArgRank(cases[1..][i].0) >= r + 1
  {
    forall i | 0 <= i < |cases[1..]|
      ensures ArgRank(cases[1..][i].0) >= r + 1
    {
      RankedRank(cases[0].0);
      RankedRank(cases[i + 1].0);
    }
  }

  lemma {:induction false} NoneOfRank(cases: seq<(Category, Pattern)>, r: nat)
    requires r < 6 && Ascends(cases, ArgRank) && (cases != [] ==> ArgRank(cases[0].0) > r)
    ensures ShownOf(cases, Ranked(r)) == [] && forall i | 0 <= i < |cases| :: ArgRank(cases[i].0) >= r + 1
  {
    RankedRank(Other);
    forall i | 0 <= i < |cases|
      ensures ArgRank(cases[i].0) >= r + 1
    {
      if i > 0 {
        assert ArgRank(cases[0].0) <= ArgRank(cases[i].0);
      }
    }
  }

  lemma {:induction false} ShownSorted(cases: seq<(Category, Pattern)>, r: nat)
    requires r <= 6
    ensures ShownFrom(SortCases(cases, ArgRank), r) == ShownFrom(cases, r)
    decreases 6 - r
  {
    if r < 6 {
      CaseForSorted(cases, ArgRank, Ranked(r));
      ShownSorted(cases, r + 1);
    }
  }

  lemma {:induction false} ShownFromIs(cases: seq<(Category, Pattern)>)
    ensures ShownFrom(cases, 0) == OtherFirst(cases)
  {
    assert ShownFrom(cases, 6) == [];
    assert ShownFrom(cases, 5) == ShownOf(cases, Many) + [];
    assert ShownFrom(cases, 4) == ShownOf(cases, Few) + ShownFrom(cases, 5);
    assert ShownFrom(cases, 3) == ShownOf(cases, Two) + ShownFrom(cases, 4);
    assert ShownFrom(cases, 2) == ShownOf(cases, One) + ShownFrom(cases, 3);
    assert ShownFrom(cases, 1) == ShownOf(cases, Zero) + ShownFrom(cases, 2);
  }

  /** A plural's arguments are the names its variants show, each where it first appears, reading
      `other` first and the rest in CLDR's order; the count stands in front exactly when no variant
      shows it. */
  lemma {:induction false} ArgsReadOtherFirst(m: Message)
    requires m.Plural? && WellFormed(m)
    ensures var shown := OtherFirst(m.cases);
            Args(m) == FirstShown(if m.count in shown then shown else [m.count] + shown)
  {
    ArgsAreFirstShown(m);
    SortApart(m.cases, ArgRank);
    SortAscends(m.cases, ArgRank);
    SortedShows(SortCases(m.cases, ArgRank), 0);
    ShownSorted(m.cases, 0);
    ShownFromIs(m.cases);
  }

  lemma {:induction false} CaseNamesInsert(x: (Category, Pattern), cases: seq<(Category, Pattern)>,
                                           rank: Category -> nat)
    ensures CaseNames(InsertCase(x, cases, rank)) == NameSet(x.1) + CaseNames(cases)
  {
    var r := InsertCase(x, cases, rank);
    if cases == [] || rank(x.0) <= rank(cases[0].0) {
      assert r[1..] == cases;
    } else {
      CaseNamesInsert(x, cases[1..], rank);
      assert r[1..] == InsertCase(x, cases[1..], rank);
    }
  }

  lemma {:induction false} CaseNamesSorted(cases: seq<(Category, Pattern)>, rank: Category -> nat)
    ensures CaseNames(SortCases(cases, rank)) == CaseNames(cases)
  {
    if cases != [] {
      CaseNamesSorted(cases[1..], rank);
      CaseNamesInsert(cases[0], SortCases(cases[1..], rank), rank);
    }
  }

  /** The argument list names exactly the message's placeholders. */
  lemma {:induction false} ArgsListPlaceholders(m: Message, n: string)
    ensures n in Args(m) <==> n in Placeholders(m)
  {
    ArgsAreFirstShown(m);
    FirstShownHas(ReadingOrder(m), n);
    match m
    case Plain(p) =>
      ShownIsNameSet(p, n);
    case Plural(count, cases) =>
      ShownInIsCaseNames(SortCases(cases, ArgRank), n);
      CaseNamesSorted(cases, ArgRank);
  }

  // ---- Compilation

  /** A piece with its placeholder resolved to an argument index. */
  datatype Ix = IxText(text: string) | IxArg(n: nat)

  datatype Compiled =
    | CPlain(ix: seq<Ix>)
    | CPlural(cases: seq<(Category, seq<Ix>)>)

  datatype CompileError =
    | NotInEnglish(name: string)
    | MustBePlural(count: string)
    | MustBePlain

  function Position(args: seq<string>, n: string): (r: Option<nat>)
    ensures r.Some? ==> r.value < |args| && args[r.value] == n
    ensures r == None <==> n !in args
  {
    if args == [] then None
    else if args[0] == n then Some(0)
    else
      match Position(args[1..], n)
      case None => None
      case Some(i) => Some(i + 1)
  }

  function IndexPattern(p: Pattern, args: seq<string>): Result<seq<Ix>, CompileError> {
    if p == [] then Ok([])
    else
      var head :- match p[0]
        case Text(t) => Ok(IxText(t))
        case Arg(n) =>
          (match Position(args, n)
           case None => Err(NotInEnglish(n))
           case Some(i) => Ok(IxArg(i)));
      var tail :- IndexPattern(p[1..], args);
      Ok([head] + tail)
  }

  function IndexCases(cases: seq<(Category, Pattern)>, args: seq<string>)
    : Result<seq<(Category, seq<Ix>)>, CompileError>
  {
    if cases == [] then Ok([])
    else
      var head :- IndexPattern(cases[0].1, args);
      var tail :- IndexCases(cases[1..], args);
      Ok([(cases[0].0, head)] + tail)
  }

  predicate SameShape(en: Message, msg: Message) {
    en.Plain? == msg.Plain? && (en.Plural? ==> en.count == msg.count)
  }

  /** `msg` with each placeholder replaced by its index among English's arguments. */
  function Compile(en: Message, msg: Message): Result<Compiled, CompileError> {
    var args := Args(en);
    if en.Plain? && msg.Plain? then
      var ix :- IndexPattern(msg.pattern, args);
      Ok(CPlain(ix))
    else if en.Plural? && msg.Plural? && en.count == msg.count then
      var cases :- IndexCases(msg.cases, args);
      Ok(CPlural(cases))
    else if en.Plural? then Err(MustBePlural(en.count))
    else Err(MustBePlain)
  }

  lemma {:induction false} IndexPatternWorks(p: Pattern, args: seq<string>)
    ensures IndexPattern(p, args).Ok? <==> forall n | n in NameSet(p) :: n in args
  {
    if p != [] {
      IndexPatternWorks(p[1..], args);
    }
  }

  lemma {:induction false} IndexCasesWorks(cases: seq<(Category, Pattern)>, args: seq<string>)
    ensures IndexCases(cases, args).Ok? <==> forall n | n in CaseNames(cases) :: n in args
  {
    if cases != [] {
      IndexPatternWorks(cases[0].1, args);
      IndexCasesWorks(cases[1..], args);
    }
  }

  /** A translation compiles exactly when it keeps the English shape and brings no placeholder
      of its own. */
  lemma {:induction false} CompilesIff(en: Message, msg: Message)
    ensures Compile(en, msg).Ok? <==> SameShape(en, msg) && Placeholders(msg) <= Placeholders(en)
  {
    forall n {
      ArgsListPlaceholders(en, n);
    }
    if en.Plain? && msg.Plain? {
      IndexPatternWorks(msg.pattern, Args(en));
    } else if en.Plural? && msg.Plural? {
      IndexCasesWorks(msg.cases, Args(en));
    }
  }

  lemma {:induction false} IndexCasesFor(cases: seq<(Category, Pattern)>, args: seq<string>, c: Category)
    requires IndexCases(cases, args).Ok?
    ensures CaseFor(cases, c) == None ==> CaseFor(IndexCases(cases, args).value, c) == None
    ensures CaseFor(cases, c).Some? ==>
              && CaseFor(IndexCases(cases, args).value, c).Some?
              && IndexPattern(CaseFor(cases, c).value, args)
                 == Ok(CaseFor(IndexCases(cases, args).value, c).value)
  {
    if cases != [] {
      IndexCasesFor(cases[1..], args, c);
      var r := IndexCases(cases, args).value;
      assert r[1..] == IndexCases(cases[1..], args).value;
    }
  }

  /** Every index is inside the argument list. */
  ghost predicate Within(ix: seq<Ix>, arity: nat) {
    forall i | 0 <= i < |ix| :: ix[i].IxArg? ==> ix[i].n < arity
  }

  lemma {:induction false} IndexWithin(p: Pattern, args: seq<string>)
    requires IndexPattern(p, args).Ok?
    ensures Within(IndexPattern(p, args).value, |args|)
    ensures |IndexPattern(p, args).value| == |p|
    ensures forall i | 0 <= i < |p| :: p[i].Text? == IndexPattern(p, args).value[i].IxText?
                                    && (p[i].Text? ==> IndexPattern(p, args).value[i].text == p[i].text)
  {
    if p != [] {
      IndexWithin(p[1..], args);
    }
  }

  // ---- The text of a compiled pattern

  function Before(s: string, rest: Option<string>): Option<string> {
    match rest
    case None => None
    case Some(r) => Some(s + r)
  }

  /** Each argument by its index; `None` when one is missing. */
  function Interpolate(ix: seq<Ix>, args: seq<string>): Option<string> {
    if ix == [] then Some("")
    else
      match ix[0]
      case IxText(t) => Before(t, Interpolate(ix[1..], args))
      case IxArg(n) => if n < |args| then Before(args[n], Interpolate(ix[1..], args)) else None
  }

  lemma {:induction false} InterpolateWithin(ix: seq<Ix>, args: seq<string>)
    ensures Interpolate(ix, args).Some? <==> Within(ix, |args|)
  {
    if ix != [] {
      InterpolateWithin(ix[1..], args);
    }
  }

  /** The variant a compiled message reads for a category, else `other`. */
  function ChosenIx(c: Compiled, cat: Category): Option<seq<Ix>> {
    match c
    case CPlain(ix) => Some(ix)
    case CPlural(cases) =>
      var own := CaseFor(cases, cat);
      if own.Some? then own else CaseFor(cases, Other)
  }
}
