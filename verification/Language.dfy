/** Choosing a language: the source's loop of truncations against a search of one flat list. */
module Language {
  import opened Wrappers
  import opened Text

  /** The first language equal to `t` but for case. */
  function FindTag(langs: seq<string>, t: string): (r: Option<nat>)
    ensures r.Some? ==> r.value < |langs| && EqIgnoreCase(langs[r.value], t)
    ensures r.Some? ==> forall i :: 0 <= i < r.value ==> !EqIgnoreCase(langs[i], t)
    ensures r == None ==> forall i :: 0 <= i < |langs| ==> !EqIgnoreCase(langs[i], t)
  {
    if langs == [] then None
    else if EqIgnoreCase(langs[0], t) then Some(0)
    else
      match FindTag(langs[1..], t)
      case None => None
      case Some(i) => Some(i + 1)
  }

  /** Where the first entry for `t` in the fallback table leads. */
  function Via(fallback: seq<(string, string)>, t: string): Option<string> {
    if fallback == [] then None
    else if EqIgnoreCase(fallback[0].0, t) then Some(fallback[0].1)
    else Via(fallback[1..], t)
  }

  /** The language a tag names: itself, else through the fallback table. */
  function Match(langs: seq<string>, fallback: seq<(string, string)>, t: string): Option<nat> {
    var own := FindTag(langs, t);
    if own.Some? then own
    else
      match Via(fallback, t)
      case None => None
      case Some(to) => FindTag(langs, to)
  }

  function Hyphens(s: string): string {
    seq(|s|, i requires 0 <= i < |s| => if s[i] == '_' then '-' else s[i])
  }

  function Normalised(tag: string): string {
    Hyphens(Trim(tag))
  }

  /** `t`, then itself without its last subtag, and so on. */
  function Truncations(t: string): seq<string>
    decreases |t|
  {
    var cut := FindLast(t, '-');
    [t] + if cut < 0 then [] else Truncations(t[..cut])
  }

  /** Everything to try, in order. */
  function Candidates(tags: seq<string>): seq<string> {
    if tags == [] then [] else Truncations(Normalised(tags[0])) + Candidates(tags[1..])
  }

  function FirstMatch(langs: seq<string>, fallback: seq<(string, string)>, candidates: seq<string>): Option<nat> {
    if candidates == [] then None
    else
      var here := Match(langs, fallback, candidates[0]);
      if here.Some? then here else FirstMatch(langs, fallback, candidates[1..])
  }

  lemma {:induction false} FirstMatchConcat(langs: seq<string>, fallback: seq<(string, string)>, a: seq<string>,
                                            b: seq<string>)
    ensures FirstMatch(langs, fallback, a + b)
         == if FirstMatch(langs, fallback, a).Some? then FirstMatch(langs, fallback, a)
            else FirstMatch(langs, fallback, b)
  {
    if a == [] {
      assert a + b == b;
    } else {
      assert (a + b)[1..] == a[1..] + b;
      FirstMatchConcat(langs, fallback, a[1..], b);
    }
  }

  /** The inner loop: a tag is tried, cut at its last hyphen, and tried again. */
  method PickTag(tag: string, langs: seq<string>, fallback: seq<(string, string)>) returns (r: Option<nat>)
    ensures r == FirstMatch(langs, fallback, Truncations(tag))
  {
    var t := tag;
    while true
      invariant FirstMatch(langs, fallback, Truncations(t)) == FirstMatch(langs, fallback, Truncations(tag))
      decreases |t|
    {
      var cut := FindLast(t, '-');
      assert Truncations(t)[1..] == if cut < 0 then [] else Truncations(t[..cut]);
      var found := Match(langs, fallback, t);
      if found.Some? {
        return found;
      }
      if cut < 0 {
        return None;
      }
      t := t[..cut];
    }
  }

  /** The source's loop over the preferred tags. */
  method Pick(tags: seq<string>, langs: seq<string>, fallback: seq<(string, string)>) returns (r: nat)
    ensures var first := FirstMatch(langs, fallback, Candidates(tags));
            r == if first.Some? then first.value else 0
  {
    for k := 0 to |tags|
      invariant FirstMatch(langs, fallback, Candidates(tags[k..])) == FirstMatch(langs, fallback, Candidates(tags))
    {
      assert tags[k..][0] == tags[k] && tags[k..][1..] == tags[k + 1..];
      FirstMatchConcat(langs, fallback, Truncations(Normalised(tags[k])), Candidates(tags[k + 1..]));
      var found := PickTag(Normalised(tags[k]), langs, fallback);
      if found.Some? {
        return found.value;
      }
    }
    r := 0;
  }

  /** A prefix of `t` that ends where a subtag does. */
  predicate Truncates(c: string, t: string) {
    c <= t && (|c| < |t| ==> t[|c|] == '-')
  }

  /** The truncations are exactly the prefixes cut at a hyphen, the longest first. */
  lemma {:induction false} TruncationsAre(t: string, c: string)
    ensures c in Truncations(t) <==> Truncates(c, t)
    ensures forall i, j | 0 <= i < j < |Truncations(t)| :: |Truncations(t)[j]| < |Truncations(t)[i]|
    decreases |t|
  {
    TruncationsShrink(t);
    var cut := FindLast(t, '-');
    if cut >= 0 {
      TruncationsAre(t[..cut], c);
      TruncatesAbove(t, cut, c);
      assert c in Truncations(t) <==> c == t || c in Truncations(t[..cut]);
    } else if c <= t && |c| == |t| {
      assert c == t;
    }
  }

  lemma {:induction false} TruncatesAbove(t: string, cut: nat, c: string)
    requires cut == FindLast(t, '-')
    ensures Truncates(c, t) <==> c == t || Truncates(c, t[..cut])
  {
    if |c| <= cut {
      assert t[..cut][..|c|] == t[..|c|];
    }
  }

  lemma {:induction false} TruncationsShrink(t: string)
    ensures forall i, j | 0 <= i < j < |Truncations(t)| :: |Truncations(t)[j]| < |Truncations(t)[i]|
    ensures forall i | 0 <= i < |Truncations(t)| :: |Truncations(t)[i]| <= |t|
    decreases |t|
  {
    var cut := FindLast(t, '-');
    if cut >= 0 {
      TruncationsShrink(t[..cut]);
    }
  }

  /** Language choice: a valid index; the first candidate with any match decides, in the order of
      preference and then of length, an exact match before the fallback table; the source when
      nothing matches. */
  lemma {:induction false} FirstMatchDecides(langs: seq<string>, fallback: seq<(string, string)>, candidates: seq<string>)
    ensures match FirstMatch(langs, fallback, candidates)
            case None => forall k | 0 <= k < |candidates| :: Match(langs, fallback, candidates[k]) == None
            case Some(i) =>
              && i < |langs|
              && exists k | 0 <= k < |candidates| ::
                   && Match(langs, fallback, candidates[k]) == Some(i)
                   && forall h | 0 <= h < k :: Match(langs, fallback, candidates[h]) == None
  {
    if candidates != [] {
      FirstMatchDecides(langs, fallback, candidates[1..]);
      var here := Match(langs, fallback, candidates[0]);
      if here == None && FirstMatch(langs, fallback, candidates).Some? {
        var k :| 0 <= k < |candidates[1..]|
          && Match(langs, fallback, candidates[1..][k]) == FirstMatch(langs, fallback, candidates)
          && forall h | 0 <= h < k :: Match(langs, fallback, candidates[1..][h]) == None;
        assert Match(langs, fallback, candidates[k + 1]) == FirstMatch(langs, fallback, candidates);
        forall h | 0 <= h < k + 1
          ensures Match(langs, fallback, candidates[h]) == None
        {
          if h > 0 {
            assert candidates[1..][h - 1] == candidates[h];
          }
        }
      }
    }
  }

  // ---- What is picked, from the lists alone

  /** The first language that is `t` but for case. */
  ghost predicate Own(langs: seq<string>, t: string, i: nat) {
    i < |langs| && EqIgnoreCase(langs[i], t) && forall j | 0 <= j < i :: !EqIgnoreCase(langs[j], t)
  }

  ghost predicate NoOwn(langs: seq<string>, t: string) {
    forall j | 0 <= j < |langs| :: !EqIgnoreCase(langs[j], t)
  }

  /** The first entry of the fallback table for `t`. */
  ghost predicate Entry(fallback: seq<(string, string)>, t: string, f: nat) {
    f < |fallback| && EqIgnoreCase(fallback[f].0, t) && forall g | 0 <= g < f :: !EqIgnoreCase(fallback[g].0, t)
  }

  /** What `t` stands for: its own language, and only where it has none the one its fallback names. */
  ghost predicate Means(langs: seq<string>, fallback: seq<(string, string)>, t: string, i: nat) {
    || Own(langs, t, i)
    || (NoOwn(langs, t) && exists f: nat :: Entry(fallback, t, f) && Own(langs, fallback[f].1, i))
  }

  lemma {:induction false} ViaIsEntry(fallback: seq<(string, string)>, t: string) returns (f: nat)
    ensures Via(fallback, t).Some? ==> Entry(fallback, t, f) && Via(fallback, t) == Some(fallback[f].1)
    ensures Via(fallback, t) == None ==> forall g | 0 <= g < |fallback| :: !EqIgnoreCase(fallback[g].0, t)
  {
    f := 0;
    if fallback != [] && !EqIgnoreCase(fallback[0].0, t) {
      f := ViaIsEntry(fallback[1..], t);
      f := f + 1;
      assert forall g | 0 < g < |fallback| :: fallback[g] == fallback[1..][g - 1];
    }
  }

  lemma {:induction false} MatchIs(langs: seq<string>, fallback: seq<(string, string)>, t: string, i: nat)
    ensures Match(langs, fallback, t) == Some(i) <==> Means(langs, fallback, t, i)
  {
    var f := ViaIsEntry(fallback, t);
    if g: nat :| Entry(fallback, t, g) && Own(langs, fallback[g].1, i) {
      assert g == f;
    }
  }

  ghost predicate MeansNothing(langs: seq<string>, fallback: seq<(string, string)>, t: string) {
    forall i :: !Means(langs, fallback, t, i)
  }

  lemma {:induction false} NoMatchIs(langs: seq<string>, fallback: seq<(string, string)>, t: string)
    ensures Match(langs, fallback, t) == None <==> MeansNothing(langs, fallback, t)
  {
    forall i {
      MatchIs(langs, fallback, t, i);
    }
  }

  lemma {:induction false} TruncatesStep(c: string, t: string)
    ensures Truncates(c, t) <==> c == t || (FindLast(t, '-') >= 0 && Truncates(c, t[..FindLast(t, '-')]))
  {
    var cut := FindLast(t, '-');
    if c <= t && c != t && t[|c|] == '-' {
      assert |c| <= cut;
      assert t[..cut][..|c|] == c;
    }
    if c <= t && |c| == |t| {
      assert c == t;
    }
  }

  /** The longest truncation that stands for a language decides a tag. */
  ghost predicate TagMeans(langs: seq<string>, fallback: seq<(string, string)>, t: string, i: nat) {
    exists c :: Truncates(c, t) && Means(langs, fallback, c, i)
                && forall d | Truncates(d, t) && |d| > |c| :: MeansNothing(langs, fallback, d)
  }

  ghost predicate TagMeansNothing(langs: seq<string>, fallback: seq<(string, string)>, t: string) {
    forall c | Truncates(c, t) :: MeansNothing(langs, fallback, c)
  }

  lemma {:induction false} TagIs(langs: seq<string>, fallback: seq<(string, string)>, t: string)
    ensures match FirstMatch(langs, fallback, Truncations(t))
            case None => TagMeansNothing(langs, fallback, t)
            case Some(i) => TagMeans(langs, fallback, t, i)
    decreases |t|
  {
    var cut, here := FindLast(t, '-'), Match(langs, fallback, t);
    assert Truncations(t)[1..] == if cut < 0 then [] else Truncations(t[..cut]);
    NoMatchIs(langs, fallback, t);
    if here.Some? {
      MatchIs(langs, fallback, t, here.value);
      assert Truncates(t, t);
    } else if cut < 0 {
      forall c | Truncates(c, t)
        ensures c == t
      {
        TruncatesStep(c, t);
      }
    } else {
      TagIs(langs, fallback, t[..cut]);
      forall c
        ensures Truncates(c, t) <==> c == t || Truncates(c, t[..cut])
      {
        TruncatesStep(c, t);
      }
      TagShorter(langs, fallback, t, cut);
    }
  }

  lemma {:induction false} TagShorter(langs: seq<string>, fallback: seq<(string, string)>, t: string, cut: nat)
    requires cut < |t| && MeansNothing(langs, fallback, t)
    requires forall c :: Truncates(c, t) <==> c == t || Truncates(c, t[..cut])
    ensures TagMeansNothing(langs, fallback, t[..cut]) ==> TagMeansNothing(langs, fallback, t)
    ensures forall i | TagMeans(langs, fallback, t[..cut], i) :: TagMeans(langs, fallback, t, i)
  {
    forall i: nat | TagMeans(langs, fallback, t[..cut], i)
      ensures TagMeans(langs, fallback, t, i)
    {
      var c :| Truncates(c, t[..cut]) && Means(langs, fallback, c, i)
               && forall d | Truncates(d, t[..cut]) && |d| > |c| :: MeansNothing(langs, fallback, d);
      assert Truncates(c, t);
    }
  }

  /** `c` is `tag` from `i` to `j`, with hyphens for underscores, and only white space is around it. */
  ghost predicate CleanedAt(tag: string, c: string, i: nat, j: nat) {
    && i <= j <= |tag|
    && |c| == j - i && (forall k | 0 <= k < |c| :: c[k] == if tag[i + k] == '_' then '-' else tag[i + k])
    && (forall k | 0 <= k < i || j <= k < |tag| :: tag[k] in {' ', '\t', '\n', '\U{b}', '\U{c}', '\r'})
    && (i < j ==> tag[i] !in {' ', '\t', '\n', '\U{b}', '\U{c}', '\r'})
    && (i < j ==> tag[j - 1] !in {' ', '\t', '\n', '\U{b}', '\U{c}', '\r'})
  }

  ghost predicate Cleaned(tag: string, c: string) {
    exists i: nat, j: nat :: CleanedAt(tag, c, i, j)
  }

  lemma {:induction false} NormalisedIs(tag: string)
    ensures Cleaned(tag, Normalised(tag))
  {
    var i, j := TrimIs(tag);
    assert forall k | 0 <= k < j - i :: Normalised(tag)[k] == if tag[i + k] == '_' then '-' else tag[i + k];
    assert CleanedAt(tag, Normalised(tag), i, j);
  }

  /** The language picked is that of the first preferred tag with any: by its longest truncation that
      stands for one. There is none, and the source is taken, exactly when no truncation of any tag
      does. */
  lemma {:induction false} PickIs(tags: seq<string>, langs: seq<string>, fallback: seq<(string, string)>)
    ensures match FirstMatch(langs, fallback, Candidates(tags))
            case None => forall k | 0 <= k < |tags| :: TagMeansNothing(langs, fallback, Normalised(tags[k]))
            case Some(i) =>
              && i < |langs|
              && exists k | 0 <= k < |tags| ::
                   && TagMeans(langs, fallback, Normalised(tags[k]), i)
                   && forall h | 0 <= h < k :: TagMeansNothing(langs, fallback, Normalised(tags[h]))
  {
    if tags != [] {
      var first, rest := Normalised(tags[0]), Candidates(tags[1..]);
      PickIs(tags[1..], langs, fallback);
      FirstMatchConcat(langs, fallback, Truncations(first), rest);
      TagIs(langs, fallback, first);
      var r := FirstMatch(langs, fallback, Truncations(first));
      if r.Some? {
        assert TagMeans(langs, fallback, Normalised(tags[0]), r.value);
        MeansIsIndex(langs, fallback, first, r.value);
      } else {
        PickLater(tags, langs, fallback, FirstMatch(langs, fallback, rest));
      }
    }
  }

  lemma {:induction false} MeansIsIndex(langs: seq<string>, fallback: seq<(string, string)>, t: string, i: nat)
    requires TagMeans(langs, fallback, t, i)
    ensures i < |langs|
  {
  }

  lemma {:induction false} PickLater(tags: seq<string>, langs: seq<string>, fallback: seq<(string, string)>,
                                     r: Option<nat>)
    requires tags != [] && TagMeansNothing(langs, fallback, Normalised(tags[0]))
    requires match r
             case None => forall k | 0 <= k < |tags[1..]| :: TagMeansNothing(langs, fallback, Normalised(tags[1..][k]))
             case Some(i) =>
               exists k | 0 <= k < |tags[1..]| ::
                 && TagMeans(langs, fallback, Normalised(tags[1..][k]), i)
                 && forall h | 0 <= h < k :: TagMeansNothing(langs, fallback, Normalised(tags[1..][h]))
    ensures match r
            case None => forall k | 0 <= k < |tags| :: TagMeansNothing(langs, fallback, Normalised(tags[k]))
            case Some(i) =>
              exists k | 0 <= k < |tags| ::
                && TagMeans(langs, fallback, Normalised(tags[k]), i)
                && forall h | 0 <= h < k :: TagMeansNothing(langs, fallback, Normalised(tags[h]))
  {
    assert forall k | 0 < k < |tags| :: tags[k] == tags[1..][k - 1];
    if r.Some? {
      var k :| 0 <= k < |tags[1..]| && TagMeans(langs, fallback, Normalised(tags[1..][k]), r.value)
               && forall h | 0 <= h < k :: TagMeansNothing(langs, fallback, Normalised(tags[1..][h]));
      assert TagMeans(langs, fallback, Normalised(tags[k + 1]), r.value);
    }
  }
}
