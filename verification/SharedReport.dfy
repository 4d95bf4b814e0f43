/** The two-session report: rates on a grid of whole seconds, the first stretch of ten good seconds,
    and Jain's fairness index. */
module SharedReport {
  import opened Wrappers

  /** One window of a client: when it ended, and its rate. */
  datatype Window = Window(absMs: int, rate: nat)

  type Grid = seq<Option<nat>>

  const HELD := 10

  // ---- The grid

  /** Whole seconds since `t0`, cut off towards zero. */
  function Second(absMs: int, t0: int): int {
    if absMs >= t0 then (absMs - t0) / 1000 else -((t0 - absMs) / 1000)
  }

  /** Whole seconds: a thousand milliseconds each, what is left over dropped on either side of `t0`. */
  lemma {:induction false} SecondIs(absMs: int, t0: int)
    ensures absMs >= t0 ==> 1000 * Second(absMs, t0) <= absMs - t0 < 1000 * (Second(absMs, t0) + 1)
    ensures absMs <= t0 ==> 1000 * (Second(absMs, t0) - 1) < absMs - t0 <= 1000 * Second(absMs, t0)
  {
  }

  /** The rate of the last listed window in second `s`. */
  function RateIn(ws: seq<Window>, t0: int, s: int): Option<nat> {
    if ws == [] then None
    else
      var w := ws[|ws| - 1];
      if Second(w.absMs, t0) == s then Some(w.rate) else RateIn(ws[..|ws| - 1], t0, s)
  }

  /** The rate held in second `s`: that of the latest second up to `s` with a window. */
  function RateHeld(ws: seq<Window>, t0: int, s: int): Option<nat>
    decreases s
  {
    if s < 0 then None
    else
      var own := RateIn(ws, t0, s);
      if own.Some? then own else RateHeld(ws, t0, s - 1)
  }

  function RateAt(ws: seq<Window>, t0: int, s: nat): Option<nat> {
    if ws == [] || s > Second(ws[|ws| - 1].absMs, t0) + 1 then None else RateHeld(ws, t0, s)
  }

  method MakeGrid(ws: seq<Window>, t0: int, span: nat) returns (g: array<Option<nat>>)
    ensures fresh(g) && g.Length == span + 1
    ensures forall s | 0 <= s <= span :: g[s] == RateAt(ws, t0, s)
  {
    g := new Option<nat>[span + 1](_ => None);
    if ws == [] {
      return;
    }
    for k := 0 to |ws|
      invariant forall s | 0 <= s <= span :: g[s] == RateIn(ws[..k], t0, s)
    {
      var s := Second(ws[k].absMs, t0);
      assert ws[..k + 1][..k] == ws[..k];
      if 0 <= s <= span {
        g[s] := Some(ws[k].rate);
      }
    }
    assert ws[..|ws|] == ws;
    var end := Second(ws[|ws| - 1].absMs, t0) + 1;
    var last: Option<nat> := None;
    for i := 0 to span + 1
      invariant forall s | 0 <= s < i :: g[s] == RateAt(ws, t0, s)
      invariant forall s | i <= s <= span :: g[s] == RateIn(ws, t0, s)
      invariant i <= end + 1 ==> last == RateHeld(ws, t0, i - 1)
    {
      var v := g[i];
      if i > end {
        g[i] := None;
      } else if v == None {
        g[i] := last;
      } else {
        last := v;
      }
    }
  }

  predicate InOrder(ws: seq<Window>) {
    forall i, j | 0 <= i < j < |ws| :: ws[i].absMs <= ws[j].absMs
  }

  /** The window the grid shows in second `s`: the last one of a second from 0 to `s`. */
  ghost predicate Latest(ws: seq<Window>, t0: int, s: nat, k: nat) {
    && k < |ws| && 0 <= Second(ws[k].absMs, t0) <= s
    && forall j | k < j < |ws| :: Second(ws[j].absMs, t0) > s
  }

  lemma {:induction false} RateInIs(ws: seq<Window>, t0: int, s: int) returns (k: int)
    ensures -1 <= k < |ws| && (RateIn(ws, t0, s).Some? <==> k >= 0)
    ensures k >= 0 ==> Second(ws[k].absMs, t0) == s && RateIn(ws, t0, s) == Some(ws[k].rate)
    ensures forall j | k < j < |ws| && j >= 0 :: Second(ws[j].absMs, t0) != s
  {
    k := -1;
    if ws != [] {
      var last := |ws| - 1;
      if Second(ws[last].absMs, t0) == s {
        k := last;
      } else {
        k := RateInIs(ws[..last], t0, s);
        assert forall j | 0 <= j < last :: ws[..last][j] == ws[j];
      }
    }
  }

  lemma {:induction false} SecondOrdered(a: int, b: int, t0: int)
    requires a <= b
    ensures Second(a, t0) <= Second(b, t0)
  {
  }

  /** For windows in order of time, the grid shows the rate in force: in each second up to one past
      the last window, that of the latest window so far; after that, nothing. */
  lemma {:induction false} GridShowsLatest(ws: seq<Window>, t0: int, s: nat, k: nat)
    requires InOrder(ws) && Latest(ws, t0, s, k)
    ensures RateHeld(ws, t0, s) == Some(ws[k].rate)
    ensures RateAt(ws, t0, s) == if s > Second(ws[|ws| - 1].absMs, t0) + 1 then None else Some(ws[k].rate)
    decreases s
  {
    var sk := Second(ws[k].absMs, t0);
    var i := RateInIs(ws, t0, s);
    if 0 <= i < k {
      SecondOrdered(ws[i].absMs, ws[k].absMs, t0);
    }
    if sk < s {
      forall j | k < j < |ws|
        ensures Second(ws[j].absMs, t0) > s - 1
      {
      }
      GridShowsLatest(ws, t0, s - 1, k);
    }
  }

  // ---- Ten good seconds

  /** Seconds `s` up to nine later are all good. */
  predicate Run(good: seq<bool>, s: nat) {
    s + 10 <= |good| && forall k | s <= k < s + 10 :: good[k]
  }

  /** Both clients have a rate there, and the smaller is within a fifth of the larger. */
  predicate Close(g1: Grid, g2: Grid, s: nat)
    requires s < |g1| && s < |g2|
  {
    && g1[s].Some? && g2[s].Some?
    && Max(g1[s].value, g2[s].value) != 0
    && 5 * Min(g1[s].value, g2[s].value) >= 4 * Max(g1[s].value, g2[s].value)
  }

  function CloseSeconds(g1: Grid, g2: Grid): seq<bool>
    requires |g1| == |g2|
  {
    seq(|g1|, s requires 0 <= s < |g1| => Close(g1, g2, s))
  }

  /** The seconds in which the one that stayed is at or above the bar. */
  function HighSeconds(g1: Grid, bar: real): seq<bool> {
    seq(|g1|, s requires 0 <= s < |g1| => g1[s].Some? && g1[s].value as real >= bar)
  }

  function Max(a: nat, b: nat): nat {
    if a < b then b else a
  }

  function Min(a: nat, b: nat): nat {
    if a < b then a else b
  }

  /** Close: both have a rate, not both none, and the smaller over the larger is four fifths or more. */
  lemma {:induction false} CloseIs(g1: Grid, g2: Grid, s: nat)
    requires s < |g1| && s < |g2|
    ensures Close(g1, g2, s) <==> WithinFifth(g1[s], g2[s])
  {
    if g1[s].Some? && g2[s].Some? && (g1[s].value > 0 || g2[s].value > 0) {
      RatioIs(Min(g1[s].value, g2[s].value), Max(g1[s].value, g2[s].value));
    }
  }

  ghost predicate WithinFifth(x: Option<nat>, y: Option<nat>) {
    && x.Some? && y.Some? && (x.value > 0 || y.value > 0)
    && (x.value >= y.value ==> y.value as real / x.value as real >= 0.8)
    && (y.value > x.value ==> x.value as real / y.value as real >= 0.8)
  }

  /** Ten seconds in a row in which the two are close. */
  ghost predicate TenClose(g1: Grid, g2: Grid, s: nat) {
    s + 10 <= |g1| && |g1| <= |g2| && forall k | s <= k < s + 10 :: WithinFifth(g1[k], g2[k])
  }

  /** Ten seconds in a row in which the one that stayed is at or above the bar. */
  ghost predicate TenHigh(g1: Grid, bar: real, s: nat) {
    s + 10 <= |g1| && forall k | s <= k < s + 10 :: g1[k].Some? && g1[k].value as real >= bar
  }

  lemma {:induction false} RunIsClose(g1: Grid, g2: Grid, s: nat)
    requires |g1| == |g2|
    ensures Run(CloseSeconds(g1, g2), s) <==> TenClose(g1, g2, s)
  {
    if s + 10 <= |g1| {
      forall k | s <= k < s + 10
        ensures CloseSeconds(g1, g2)[k] <==> WithinFifth(g1[k], g2[k])
      {
        CloseIs(g1, g2, k);
      }
    }
  }

  lemma {:induction false} RunIsHigh(g1: Grid, bar: real, s: nat)
    ensures Run(HighSeconds(g1, bar), s) <==> TenHigh(g1, bar, s)
  {
    if s + 10 <= |g1| {
      forall k | s <= k < s + 10
        ensures HighSeconds(g1, bar)[k] <==> g1[k].Some? && g1[k].value as real >= bar
      {
      }
    }
  }

  lemma {:induction false} Product(a: real, b: real)
    requires a >= 0.0 && b > 0.0
    ensures a * b >= 0.0 && (a > 0.0 ==> a * b > 0.0)
  {
  }

  lemma {:induction false} AtLeastIs(small: real, large: real, q: real)
    requires large > 0.0 && q * large == small
    ensures q >= 0.8 <==> 5.0 * small >= 4.0 * large
  {
    if q >= 0.8 {
      Product(q - 0.8, large);
      assert (q - 0.8) * large == q * large - 0.8 * large;
    } else {
      Product(0.8 - q, large);
      assert (0.8 - q) * large == 0.8 * large - q * large;
    }
  }

  lemma {:induction false} RatioIs(small: nat, large: nat)
    requires large > 0
    ensures small as real / large as real >= 0.8 <==> 5 * small >= 4 * large
  {
    var s, l := small as real, large as real;
    Quotient(s, l);
    AtLeastIs(s, l, s / l);
    assert (5 * small) as real == 5.0 * s && (4 * large) as real == 4.0 * l;
  }

  /** The convergence loop: the least second from `join` on that starts ten seconds in a row in which
      the two are close, or none when there is no such second. */
  method Converge(g1: Grid, g2: Grid, join: nat) returns (r: Option<nat>)
    requires |g1| == |g2|
    ensures r.Some? ==> join <= r.value && TenClose(g1, g2, r.value)
    ensures forall s | join <= s && (r == None || s < r.value) :: !TenClose(g1, g2, s)
  {
    ghost var good := CloseSeconds(g1, g2);
    forall s: nat {
      RunIsClose(g1, g2, s);
    }
    var hold: nat, first: Option<nat> := 0, None;
    var s := join;
    while s < |g1|
      invariant join <= s && (s <= |g1| || s == join)
      invariant Holding(good, join, s, hold, first)
      invariant hold < HELD
    {
      var x, y := g1[s], g2[s];
      if x == None || y == None || Max(x.value, y.value) == 0 {
        hold, first := 0, None;
      } else if 5 * Min(x.value, y.value) >= 4 * Max(x.value, y.value) {
        if first == None {
          first := Some(s);
        }
        hold := hold + 1;
        if hold >= HELD {
          return first;
        }
      } else {
        hold, first := 0, None;
      }
      s := s + 1;
    }
    r := None;
  }

  /** What the loop knows at second `s`: it holds the good seconds right before it, and no stretch of
      ten began earlier. */
  ghost predicate Holding(good: seq<bool>, join: nat, s: nat, hold: nat, first: Option<nat>) {
    && hold <= s - join && (first.Some? <==> hold > 0) && (first.Some? ==> first.value == s - hold)
    && (forall k | s - hold <= k < s && k < |good| :: good[k])
    && (s - hold > join ==> s - hold - 1 < |good| && !good[s - hold - 1])
    && (forall k | join <= k < s - hold :: !Run(good, k))
  }

  /** The leaver loop: the least second from `left` on that starts ten seconds in a row in which the
      one that stayed is at or above the bar, or none when there is no such second. */
  method Recover(g1: Grid, left: nat, bar: real) returns (r: Option<nat>)
    ensures r.Some? ==> left <= r.value && TenHigh(g1, bar, r.value)
    ensures forall s | left <= s && (r == None || s < r.value) :: !TenHigh(g1, bar, s)
  {
    ghost var good := HighSeconds(g1, bar);
    forall s: nat {
      RunIsHigh(g1, bar, s);
    }
    var hold: nat, first: Option<nat> := 0, None;
    var s := left;
    while s < |g1|
      invariant left <= s && (s <= |g1| || s == left)
      invariant Holding(good, left, s, hold, first)
      invariant hold < HELD
    {
      if g1[s].Some? && g1[s].value as real >= bar {
        if first == None {
          first := Some(s);
        }
        hold := hold + 1;
        if hold >= HELD {
          return first;
        }
      } else {
        hold, first := 0, None;
      }
      s := s + 1;
    }
    r := None;
  }

  // ---- Jain's fairness index

  function Present(vals: seq<Option<real>>): seq<real> {
    if vals == [] then []
    else (if vals[0].Some? then [vals[0].value] else []) + Present(vals[1..])
  }

  function Times(a: real, b: real): real {
    a * b
  }

  lemma {:induction false} TimesSum(a: real, b: real, c: real)
    ensures Times(a, b + c) == Times(a, b) + Times(a, c)
    ensures Times(b + c, a) == Times(b, a) + Times(c, a)
  {
  }

  lemma {:induction false} TimesTwice(a: real, b: real, c: real)
    ensures Times(Times(a, b), c) == Times(a, Times(b, c))
  {
  }

  lemma {:induction false} TimesSwap(a: real, b: real)
    ensures Times(a, b) == Times(b, a)
  {
  }

  lemma {:induction false} TimesSign(a: real, b: real)
    requires a >= 0.0 && b >= 0.0
    ensures Times(a, b) >= 0.0
    ensures Times(a, b) > 0.0 <==> a > 0.0 && b > 0.0
  {
  }

  lemma {:induction false} TimesUnits(a: real)
    ensures Times(0.0, a) == 0.0 == Times(a, 0.0) && Times(1.0, a) == a == Times(a, 1.0)
  {
  }

  function Square(x: real): real {
    Times(x, x)
  }

  lemma {:induction false} SquareSign(x: real)
    ensures Square(x) >= 0.0
    ensures Square(x) > 0.0 <==> x != 0.0
  {
    if x >= 0.0 {
      TimesSign(x, x);
    } else {
      TimesSign(-x, -x);
      TimesSum(x, x, -x);
      TimesSum(-x, x, -x);
      TimesUnits(x);
      TimesUnits(-x);
    }
  }

  function Sum(vals: seq<real>): real {
    if vals == [] then 0.0 else vals[0] + Sum(vals[1..])
  }

  function Squares(vals: seq<real>): real {
    if vals == [] then 0.0 else Square(vals[0]) + Squares(vals[1..])
  }

  /** Jain's index: the square of the sum over the count times the sum of the squares; none without
      values or when they add up to nothing. */
  function Jain(vals: seq<Option<real>>): Option<real> {
    var vs := Present(vals);
    if vs == [] || Sum(vs) == 0.0 then None
    else
      SquaresSign(vs);
      TimesSign(|vs| as real, Squares(vs));
      Some(Square(Sum(vs)) / Times(|vs| as real, Squares(vs)))
  }

  predicate AllAre(vals: seq<real>, v: real) {
    forall i | 0 <= i < |vals| :: vals[i] == v
  }

  lemma {:induction false} AllAreCons(vals: seq<real>, v: real)
    requires vals != []
    ensures AllAre(vals, v) <==> vals[0] == v && AllAre(vals[1..], v)
  {
    assert forall i | 0 < i < |vals| :: vals[i] == vals[1..][i - 1];
  }

  lemma {:induction false} SumOfZeros(vals: seq<real>)
    requires AllAre(vals, 0.0)
    ensures Sum(vals) == 0.0
  {
    if vals != [] {
      AllAreCons(vals, 0.0);
      SumOfZeros(vals[1..]);
    }
  }

  lemma {:induction false} SquaresSign(vals: seq<real>)
    ensures Squares(vals) >= 0.0
    ensures Squares(vals) == 0.0 <==> AllAre(vals, 0.0)
    ensures Sum(vals) != 0.0 ==> Squares(vals) > 0.0
  {
    if vals != [] {
      SquaresSign(vals[1..]);
      SquareSign(vals[0]);
      AllAreCons(vals, 0.0);
    }
    if AllAre(vals, 0.0) {
      SumOfZeros(vals);
    }
  }

  /** How far the values are from `v`, squared and summed. */
  function Spread(vals: seq<real>, v: real): real {
    if vals == [] then 0.0 else Square(vals[0] - v) + Spread(vals[1..], v)
  }

  lemma {:induction false} SquareOfDifference(a: real, v: real)
    ensures Square(a - v) == Square(a) - 2.0 * Times(v, a) + Square(v)
  {
    TimesSum(a - v, a, -v);
    TimesSum(a, a, -v);
    TimesSum(-v, a, -v);
    TimesSwap(a, -v);
    TimesSum(a, v, -v);
    TimesSum(-v, v, -v);
    TimesUnits(a);
    TimesUnits(-v);
    TimesSwap(a, v);
  }

  lemma {:induction false} SpreadIs(vals: seq<real>, v: real)
    ensures Spread(vals, v) == Squares(vals) - 2.0 * Times(v, Sum(vals)) + Times(|vals| as real, Square(v))
    decreases |vals|
  {
    if vals == [] {
      TimesUnits(v);
      TimesUnits(Square(v));
    } else {
      SpreadIs(vals[1..], v);
      SquareOfDifference(vals[0], v);
      TimesSum(v, vals[0], Sum(vals[1..]));
      TimesSum(Square(v), 1.0, |vals[1..]| as real);
      TimesUnits(Square(v));
      assert |vals| as real == 1.0 + |vals[1..]| as real;
    }
  }

  lemma {:induction false} SpreadSign(vals: seq<real>, v: real)
    ensures Spread(vals, v) >= 0.0
    ensures Spread(vals, v) == 0.0 <==> AllAre(vals, v)
    decreases |vals|
  {
    if vals != [] {
      SpreadSign(vals[1..], v);
      SquareSign(vals[0] - v);
      AllAreCons(vals, v);
    }
  }

  lemma {:induction false} Mean(n: real, s: real)
    requires n > 0.0
    ensures Times(n, s / n) == s
  {
  }

  lemma {:induction false} MeanSpread(n: real, s: real, q: real, v: real)
    requires Times(n, v) == s
    ensures Times(n, q - 2.0 * Times(v, s) + Times(n, Square(v))) == Times(n, q) - Square(s)
  {
    var a, b := Times(v, s), Times(n, Square(v));
    TimesSum(n, q - 2.0 * a, b);
    TimesSum(n, q, -2.0 * a);
    TimesSum(n, -a, -a);
    TimesSum(n, a, -a);
    TimesUnits(n);
    TimesTwice(n, v, s);
    TimesTwice(n, v, v);
    TimesSwap(s, v);
  }

  /** Cauchy and Schwarz: the square of the sum is at most the count times the sum of the squares,
      and equal exactly when all values are the same. */
  lemma {:induction false} CauchySchwarz(vals: seq<real>)
    requires vals != []
    ensures Square(Sum(vals)) <= Times(|vals| as real, Squares(vals))
    ensures Square(Sum(vals)) == Times(|vals| as real, Squares(vals)) <==> AllAre(vals, Sum(vals) / |vals| as real)
  {
    var n, s := |vals| as real, Sum(vals);
    var v := s / n;
    Mean(n, s);
    SpreadIs(vals, v);
    SpreadSign(vals, v);
    MeanSpread(n, s, Squares(vals), v);
    TimesSign(n, Spread(vals, v));
  }

  predicate NoneNegative(vals: seq<real>) {
    forall i | 0 <= i < |vals| :: vals[i] >= 0.0
  }

  /** At most one value is not zero. */
  predicate OnlyOne(vals: seq<real>) {
    forall i, j | 0 <= i < j < |vals| :: vals[i] == 0.0 || vals[j] == 0.0
  }

  lemma {:induction false} NoneNegativeCons(vals: seq<real>)
    requires vals != [] && NoneNegative(vals)
    ensures vals[0] >= 0.0 && NoneNegative(vals[1..])
  {
  }

  lemma {:induction false} SumSign(vals: seq<real>)
    requires NoneNegative(vals)
    ensures Sum(vals) >= 0.0
    ensures Sum(vals) == 0.0 <==> AllAre(vals, 0.0)
    decreases |vals|
  {
    if vals != [] {
      NoneNegativeCons(vals);
      SumSign(vals[1..]);
      AllAreCons(vals, 0.0);
    }
  }

  lemma {:induction false} OnlyOneCons(vals: seq<real>)
    requires vals != []
    ensures OnlyOne(vals) <==> OnlyOne(vals[1..]) && (vals[0] == 0.0 || AllAre(vals[1..], 0.0))
  {
    var rest := vals[1..];
    assert forall i | 0 <= i < |rest| :: rest[i] == vals[i + 1];
    if OnlyOne(rest) && (vals[0] == 0.0 || AllAre(rest, 0.0)) {
      forall i, j | 0 <= i < j < |vals|
        ensures vals[i] == 0.0 || vals[j] == 0.0
      {
        assert vals[j] == rest[j - 1] && (i > 0 ==> vals[i] == rest[i - 1]);
      }
    }
    if OnlyOne(vals) && vals[0] != 0.0 {
      forall j | 0 <= j < |rest|
        ensures rest[j] == 0.0
      {
        assert vals[0] == 0.0 || vals[j + 1] == 0.0;
      }
    }
    if OnlyOne(vals) {
      forall i, j | 0 <= i < j < |rest|
        ensures rest[i] == 0.0 || rest[j] == 0.0
      {
        assert vals[i + 1] == 0.0 || vals[j + 1] == 0.0;
      }
    }
  }

  lemma {:induction false} SquareOfSum(a: real, s: real)
    ensures Square(a + s) == Square(a) + 2.0 * Times(a, s) + Square(s)
  {
    TimesSum(a + s, a, s);
    TimesSum(a, a, s);
    TimesSum(s, a, s);
    TimesSwap(a, s);
  }

  /** For values that are not negative the sum of the squares is at most the square of the sum, and
      equal exactly when at most one value is not zero. */
  lemma {:induction false} SquaresAtMost(vals: seq<real>)
    requires NoneNegative(vals)
    ensures Squares(vals) <= Square(Sum(vals))
    ensures Squares(vals) == Square(Sum(vals)) <==> OnlyOne(vals)
    decreases |vals|
  {
    if vals == [] {
      TimesUnits(0.0);
    } else {
      NoneNegativeCons(vals);
      SquaresAtMost(vals[1..]);
      SumSign(vals[1..]);
      SquareOfSum(vals[0], Sum(vals[1..]));
      TimesSign(vals[0], Sum(vals[1..]));
      OnlyOneCons(vals);
    }
  }

  lemma {:induction false} Ratio(n: real, q: real, nq: real, s2: real)
    requires n >= 1.0 && q > 0.0 && nq == n * q && q <= s2 <= nq && nq > 0.0
    ensures 1.0 / n <= s2 / nq <= 1.0
    ensures s2 / nq == 1.0 <==> s2 == nq
    ensures s2 / nq == 1.0 / n <==> s2 == q
  {
    assert q / nq == 1.0 / n;
  }

  /** Jain's index of rates that are not negative lies between one over their number and one: it is
      one exactly when all are the same, and one over their number exactly when one has it all. */
  lemma {:induction false} JainIsFair(vals: seq<Option<real>>)
    requires NoneNegative(Present(vals)) && Jain(vals).Some?
    ensures var vs, r := Present(vals), Jain(vals).value;
            && 1.0 / |vs| as real <= r <= 1.0
            && (r == 1.0 <==> AllAre(vs, Sum(vs) / |vs| as real))
            && (r == 1.0 / |vs| as real <==> OnlyOne(vs))
  {
    var vs := Present(vals);
    SquaresSign(vs);
    TimesSign(|vs| as real, Squares(vs));
    Bounds(vs, |vs| as real, Times(|vs| as real, Squares(vs)), Square(Sum(vs)));
  }

  lemma {:induction false} Bounds(vs: seq<real>, n: real, nq: real, s2: real)
    requires vs != [] && NoneNegative(vs) && Sum(vs) != 0.0
    requires n == |vs| as real && nq == Times(n, Squares(vs)) && nq > 0.0 && s2 == Square(Sum(vs))
    ensures 1.0 / n <= s2 / nq <= 1.0
    ensures s2 / nq == 1.0 <==> AllAre(vs, Sum(vs) / n)
    ensures s2 / nq == 1.0 / n <==> OnlyOne(vs)
  {
    SquaresSign(vs);
    CauchySchwarz(vs);
    SquaresAtMost(vs);
    Ratio(n, Squares(vs), nq, s2);
  }

  /** The index is what makes it times the count and the sum of the squares the square of the sum. */
  lemma {:induction false} JainIs(vals: seq<Option<real>>)
    requires Jain(vals).Some?
    ensures var vs := Present(vals);
            Jain(vals).value * (|vs| as real * Squares(vs)) == Sum(vs) * Sum(vs)
  {
    var vs := Present(vals);
    SquaresSign(vs);
    TimesSign(|vs| as real, Squares(vs));
    Quotient(Square(Sum(vs)), Times(|vs| as real, Squares(vs)));
  }

  lemma {:induction false} Quotient(a: real, b: real)
    requires b > 0.0
    ensures a / b * b == a
  {
  }

  /** It is undefined exactly when there is no rate or all are zero. */
  lemma {:induction false} JainIsDefined(vals: seq<Option<real>>)
    requires NoneNegative(Present(vals))
    ensures Jain(vals) == None <==> AllAre(Present(vals), 0.0)
  {
    SumSign(Present(vals));
  }
}
