/** The upsert of one entry into a Steam controller configset, a text of quoted keys and nested
    braces edited in place. */
module ConfigSet {
  import opened Wrappers
  import opened Text

  const NAME := "controller_config"
  const CONFIG := "\"controller_config\""

  // ---- Searching, as Python's str methods do

  predicate StandsAt(s: string, sub: string, i: nat) {
    sub == "" || (i < |s| && s[i] == sub[0] && StandsAt(s, sub[1..], i + 1))
  }

  lemma {:induction false} StandsAtIs(s: string, sub: string, i: nat)
    ensures StandsAt(s, sub, i) ==> i + |sub| <= |s| || sub == ""
    ensures StandsAt(s, sub, i) && sub != "" ==> forall k | 0 <= k < |sub| :: sub[k] == s[i + k]
    ensures i + |sub| <= |s| && (forall k | 0 <= k < |sub| :: sub[k] == s[i + k]) ==> StandsAt(s, sub, i)
  {
    if sub != "" && i < |s| {
      StandsAtIs(s, sub[1..], i + 1);
      if StandsAt(s, sub, i) {
        assert forall k | 1 <= k < |sub| :: sub[k] == sub[1..][k - 1];
      }
    }
  }

  /** The first index from `from` on where `sub` stands in `s`, or -1. */
  function FindFrom(s: string, sub: string, from: nat): (i: int)
    ensures i == -1 || (from <= i <= |s| - |sub| && StandsAt(s, sub, i))
    ensures forall j | from <= j <= |s| - |sub| && (i == -1 || j < i) :: !StandsAt(s, sub, j)
    decreases |s| - from
  {
    if from + |sub| > |s| then -1
    else if StandsAt(s, sub, from) then from
    else FindFrom(s, sub, from + 1)
  }

  predicate PySpace(c: char) {
    c == ' ' || '\t' <= c <= '\r' || '\U{1c}' <= c <= '\U{1f}'
  }

  predicate Blank(s: string) {
    forall c <- s :: PySpace(c)
  }

  function RStrip(s: string): (r: string)
    ensures r <= s && (r != "" ==> !PySpace(r[|r| - 1]))
    ensures forall i | |r| <= i < |s| :: PySpace(s[i])
  {
    if s != "" && PySpace(s[|s| - 1]) then RStrip(s[..|s| - 1]) else s
  }

  // ---- The upsert

  function Block(key: string, sourceType: string, val: string): string {
    "\t\"" + key + "\"\n\t{\n\t\t\"" + sourceType + "\"\t\t\"" + val + "\"\n\t}\n"
  }

  function Needle(key: string): string {
    "\"" + ToLower(key) + "\""
  }

  function LineStart(text: string, i: nat): (n: nat)
    requires i <= |text|
    ensures n <= i
  {
    if i == 0 || text[i - 1] == '\n' then i else LineStart(text, i - 1)
  }

  function NextBrace(text: string, i: nat): (n: nat)
    requires i <= |text|
    ensures i <= n <= |text|
    ensures (n < |text| ==> text[n] == '{') && forall k | i <= k < n :: text[k] != '{'
    decreases |text| - i
  {
    if i == |text| || text[i] == '{' then i else NextBrace(text, i + 1)
  }

  /** Nothing but white space stands before `i` on its line. */
  predicate BeginsLine(text: string, i: nat)
    requires i <= |text|
  {
    i == 0 || text[i - 1] == '\n' || (PySpace(text[i - 1]) && BeginsLine(text, i - 1))
  }

  /** The first key token from `from` on that begins its line, as the search skips over others. */
  function Scan(text: string, key: string, from: nat): (r: Option<nat>)
    ensures r.Some? ==> r.value + |key| + 2 <= |text|
    decreases |text| - from
  {
    var i := FindFrom(ToLower(text), Needle(key), from);
    if i == -1 then None
    else if !BeginsLine(text, i) then Scan(text, key, i + |Needle(key)|)
    else Some(i)
  }

  /** Where the braces opened since `depth` was 0 are closed; the length when they never are. */
  function Close(text: string, i: nat, depth: int): (n: nat)
    requires i <= |text|
    ensures i <= n <= |text|
    decreases |text| - i
  {
    if i == |text| then i
    else if text[i] == '{' then Close(text, i + 1, depth + 1)
    else if text[i] == '}' then if depth == 1 then i else Close(text, i + 1, depth - 1)
    else Close(text, i + 1, depth)
  }

  /** Behind the block, and the line break after it. */
  function BlockEnd(text: string, close: nat): (end: nat)
    requires close <= |text|
    ensures end <= |text| || end == close + 1
  {
    if close + 1 < |text| && text[close + 1] == '\n' then close + 2 else close + 1
  }

  /** From where to where the upsert replaces: the line of the key token up to its block's end. A
      block that is never closed goes to the end of the text. */
  function Extent(text: string, key: string): (r: Option<(nat, nat)>)
    ensures r.Some? ==> r.value.0 <= r.value.1 <= |text|
  {
    match Scan(text, key, 0)
    case None => None
    case Some(i) =>
      var brace := NextBrace(text, i);
      if brace == |text| then None
      else
        var end := BlockEnd(text, Close(text, brace, 0));
        Some((LineStart(text, i), if end <= |text| then end else |text|))
  }

  function Upsert(text: string, key: string, sourceType: string, val: string): string {
    var block := Block(key, sourceType, val);
    if FindFrom(text, CONFIG, 0) == -1 then CONFIG + "\n{\n" + block + "}\n"
    else
      match Extent(text, key)
      case Some((a, end)) => text[..a] + block + text[end..]
      case None =>
        var close := FindLast(RStrip(text), '}');
        if close == -1 then RStrip(text) + "\n" + block
        else text[..close] + block + text[close..]
  }

  lemma {:induction false} LineStartIs(text: string, i: nat)
    requires i <= |text|
    ensures LineStart(text, i) == FindLast(text[..i], '\n') + 1
    ensures BeginsLine(text, i) <==> Blank(text[LineStart(text, i)..i])
    decreases i
  {
    if i > 0 && text[i - 1] != '\n' {
      LineStartIs(text, i - 1);
      assert text[..i][..i - 1] == text[..i - 1];
      assert text[LineStart(text, i)..i] == text[LineStart(text, i)..i - 1] + [text[i - 1]];
    }
  }

  method MatchBrace(text: string, brace: nat) returns (i: nat)
    requires brace <= |text|
    ensures i == Close(text, brace, 0)
  {
    var depth := 0;
    i := brace;
    while i < |text|
      invariant brace <= i <= |text|
      invariant Close(text, i, depth) == Close(text, brace, 0)
    {
      if text[i] == '{' {
        depth := depth + 1;
      } else if text[i] == '}' {
        depth := depth - 1;
        if depth == 0 {
          break;
        }
      }
      i := i + 1;
    }
  }

  /** The code's test, on the stretch from behind the last line break. */
  lemma {:induction false} BeginsLineIs(text: string, i: nat)
    requires i <= |text|
    ensures 0 <= FindLast(text[..i], '\n') + 1 <= i
    ensures BeginsLine(text, i) <==> Blank(text[FindLast(text[..i], '\n') + 1..i])
  {
    LineStartIs(text, i);
  }

  lemma {:induction false} ScanStep(text: string, key: string, from: nat)
    ensures var i := FindFrom(ToLower(text), Needle(key), from);
            && (i == -1 ==> Scan(text, key, from) == None)
            && (i >= 0 ==> i + |Needle(key)| <= |text|)
            && (i >= 0 && BeginsLine(text, i) ==> Scan(text, key, from) == Some(i))
            && (i >= 0 && !BeginsLine(text, i) ==> Scan(text, key, from) == Scan(text, key, i + |Needle(key)|))
  {
  }

  lemma {:induction false} TokenStep(text: string, key: string, from: nat, i: int)
    requires i == FindFrom(ToLower(text), Needle(key), from)
    ensures i == -1 ==> Scan(text, key, from) == None
    ensures i != -1 ==> from <= i && i + |key| + 2 <= |text|
    ensures i != -1 && BeginsLine(text, i) ==> Scan(text, key, from) == Some(i)
    ensures i != -1 && !BeginsLine(text, i) ==> Scan(text, key, from) == Scan(text, key, i + |key| + 2)
  {
    ScanStep(text, key, from);
  }

  /** One turn of the search: the next occurrence, and whether it begins its line. */
  method NextToken(text: string, key: string, from: nat) returns (idx: int, begins: bool)
    ensures idx == -1 ==> Scan(text, key, from) == None
    ensures idx != -1 ==> from <= idx && idx + |key| + 2 <= |text|
    ensures idx != -1 && begins ==> Scan(text, key, from) == Some(idx)
    ensures idx != -1 && !begins ==> Scan(text, key, from) == Scan(text, key, idx + |key| + 2)
  {
    idx, begins := FindFrom(ToLower(text), Needle(key), from), false;
    TokenStep(text, key, from, idx);
    if idx != -1 {
      var lineStart := FindLast(text[..idx], '\n') + 1;
      BeginsLineIs(text, idx);
      begins := Blank(text[lineStart..idx]);
    }
  }

  method FindToken(text: string, key: string) returns (r: Option<nat>)
    ensures r == Scan(text, key, 0)
  {
    var searchFrom := 0;
    ghost var want := Scan(text, key, 0);
    while true
      invariant Scan(text, key, searchFrom) == want
      decreases |text| - searchFrom
    {
      var idx, begins := NextToken(text, key, searchFrom);
      if idx == -1 {
        return None;
      }
      if begins {
        return Some(idx);
      }
      searchFrom := idx + |key| + 2;
    }
  }

  method FindEntry(text: string, key: string) returns (r: Option<(nat, nat)>)
    ensures r == Extent(text, key)
  {
    var token := FindToken(text, key);
    if token == None {
      return None;
    }
    var brace := NextBrace(text, token.value);
    if brace == |text| {
      return None;
    }
    LineStartIs(text, token.value);
    var lineStart := FindLast(text[..token.value], '\n') + 1;
    var close := MatchBrace(text, brace);
    var end := close + 1;
    if end < |text| && text[end] == '\n' {
      end := end + 1;
    }
    r := Some((lineStart, if end <= |text| then end else |text|));
  }

  method UpsertEntry(text: string, key: string, sourceType: string, val: string) returns (r: string)
    ensures r == Upsert(text, key, sourceType, val)
  {
    var block := Block(key, sourceType, val);
    if FindFrom(text, CONFIG, 0) == -1 {
      return CONFIG + "\n{\n" + block + "}\n";
    }
    var extent := FindEntry(text, key);
    if extent.Some? {
      var (lineStart, end) := extent.value;
      return text[..lineStart] + block + text[end..];
    }
    var lastClose := FindLast(RStrip(text), '}');
    if lastClose == -1 {
      return RStrip(text) + "\n" + block;
    }
    r := text[..lastClose] + block + text[lastClose..];
  }

  // ---- What is replaced

  function Depth(s: string): int {
    if s == "" then 0
    else
      Depth(s[..|s| - 1]) + if s[|s| - 1] == '{' then 1 else if s[|s| - 1] == '}' then -1 else 0
  }

  lemma {:induction false} DepthNext(text: string, brace: nat, i: nat)
    requires brace <= i < |text|
    ensures Depth(text[brace..i + 1])
         == Depth(text[brace..i]) + if text[i] == '{' then 1 else if text[i] == '}' then -1 else 0
  {
    assert text[brace..i + 1][..i - brace] == text[brace..i];
  }

  /** `Close` stops at the first place where as many braces are closed as were opened. */
  lemma {:induction false} CloseBalances(text: string, brace: nat, i: nat)
    requires brace < i <= |text| && text[brace] == '{'
    requires forall k | brace < k <= i :: Depth(text[brace..k]) > 0
    ensures var c := Close(text, i, Depth(text[brace..i]));
            && (forall k | brace < k <= c :: Depth(text[brace..k]) > 0)
            && (c < |text| ==> Depth(text[brace..c + 1]) == 0)
    decreases |text| - i
  {
    if i < |text| {
      DepthNext(text, brace, i);
      if Depth(text[brace..i + 1]) > 0 {
        CloseBalances(text, brace, i + 1);
      }
    }
  }

  /** `key`, quoted, stands at `i` in any case of letters. */
  ghost predicate Occurs(text: string, key: string, i: nat) {
    && i + |key| + 2 <= |text|
    && forall k | 0 <= k < |Needle(key)| :: Needle(key)[k] == Lower(text[i + k])
  }

  ghost predicate Standalone(text: string, key: string, i: nat) {
    Occurs(text, key, i) && BeginsLine(text, i)
  }

  /** A token, character by character: quotes around the key, in any case of its letters, and nothing
      but white space in front of it back to where the line or the text begins. */
  lemma {:induction false} StandaloneIs(text: string, key: string, i: nat)
    ensures Standalone(text, key, i)
       <==> && i + |key| + 2 <= |text| && text[i] == '"' && text[i + |key| + 1] == '"'
            && (forall k | 0 <= k < |key| :: SameLetter(key[k], text[i + 1 + k]))
            && exists n | 0 <= n <= i :: LineAt(text, n) && IndentTo(text, n, i)
  {
    if i + |key| + 2 <= |text| {
      NeedleIs(text, key, i);
      IndentIs(text, i);
    }
  }

  ghost predicate LineAt(text: string, n: nat) {
    n <= |text| && (n == 0 || text[n - 1] == '\n')
  }

  /** White space from `n` to `i`, as Python strips it from ASCII text. */
  ghost predicate IndentTo(text: string, n: nat, i: nat) {
    && n <= i <= |text|
    && forall k | n <= k < i ::
         text[k] in {' ', '\t', '\n', '\U{b}', '\U{c}', '\r', '\U{1c}', '\U{1d}', '\U{1e}', '\U{1f}'}
  }

  lemma {:induction false} NeedleIs(text: string, key: string, i: nat)
    requires i + |key| + 2 <= |text|
    ensures Occurs(text, key, i)
       <==> && text[i] == '"' && text[i + |key| + 1] == '"'
            && forall k | 0 <= k < |key| :: SameLetter(key[k], text[i + 1 + k])
  {
    var needle := Needle(key);
    assert needle[0] == '"' && needle[|key| + 1] == '"';
    assert forall k | 0 <= k < |key| :: needle[k + 1] == Lower(key[k]);
    if Occurs(text, key, i) {
      assert needle[0] == Lower(text[i + 0]) && needle[|key| + 1] == Lower(text[i + (|key| + 1)]);
      forall k | 0 <= k < |key|
        ensures SameLetter(key[k], text[i + 1 + k])
      {
        assert needle[k + 1] == Lower(text[i + (k + 1)]);
      }
    } else if text[i] == '"' && text[i + |key| + 1] == '"' {
      var k :| 0 <= k < |needle| && needle[k] != Lower(text[i + k]);
      assert 0 < k < |key| + 1 && !SameLetter(key[k - 1], text[i + 1 + (k - 1)]);
    }
  }

  lemma {:induction false} IndentIs(text: string, i: nat)
    requires i <= |text|
    ensures BeginsLine(text, i) <==> exists n | 0 <= n <= i :: LineAt(text, n) && IndentTo(text, n, i)
    decreases i
  {
    if i == 0 || text[i - 1] == '\n' {
      assert LineAt(text, i) && IndentTo(text, i, i);
    } else {
      IndentIs(text, i - 1);
      if BeginsLine(text, i) {
        var n :| 0 <= n <= i - 1 && LineAt(text, n) && IndentTo(text, n, i - 1);
        assert IndentTo(text, n, i);
      }
      if n :| 0 <= n <= i && LineAt(text, n) && IndentTo(text, n, i) {
        assert n < i && IndentTo(text, n, i - 1) && PySpace(text[i - 1]);
      }
    }
  }

  lemma {:induction false} OccursIs(text: string, key: string, i: nat)
    ensures Occurs(text, key, i)
       <==> i <= |text| - |Needle(key)| && StandsAt(ToLower(text), Needle(key), i)
  {
    StandsAtIs(ToLower(text), Needle(key), i);
  }

  /** No quote, brace or control character: what the game keys and template names are made of. */
  predicate Plain(s: string) {
    forall c <- s :: c >= ' ' && c !in {'"', '{', '}'}
  }

  lemma {:induction false} NeedleChars(key: string, k: nat)
    requires Plain(key) && k < |Needle(key)|
    ensures Needle(key)[k] >= ' ' && Needle(key)[k] !in {'{', '}'}
    ensures Needle(key)[k] == '"' <==> k == 0 || k == |key| + 1
  {
    if 0 < k < |key| + 1 {
      assert Needle(key)[k] == Lower(key[k - 1]) && key[k - 1] in key;
    }
  }

  /** An occurrence covers no line break, tab or brace. */
  lemma {:induction false} OccursCovers(text: string, key: string, i: nat, x: nat)
    requires Plain(key) && Occurs(text, key, i) && i <= x < i + |key| + 2
    ensures text[x] >= ' ' && text[x] !in {'{', '}'}
    ensures text[x] == '"' <==> x == i || x == i + |key| + 1
  {
    NeedleChars(key, x - i);
    assert Needle(key)[x - i] == Lower(text[i + (x - i)]);
  }

  lemma {:induction false} QuoteBefore(text: string, q: nat, i: nat)
    requires q < i <= |text| && text[q] == '"' && forall k | q <= k < i :: text[k] != '\n'
    ensures !BeginsLine(text, i)
    decreases i
  {
    if q < i - 1 {
      QuoteBefore(text, q, i - 1);
    }
  }

  /** A token skipped over hides none that begins its line. */
  lemma {:induction false} SkipHidesNone(text: string, key: string, i: nat, j: nat)
    requires Plain(key) && Occurs(text, key, i) && i < j < i + |key| + 2
    ensures !Standalone(text, key, j)
  {
    if Occurs(text, key, j) {
      forall k | i <= k < j
        ensures text[k] != '\n'
      {
        OccursCovers(text, key, i, k);
      }
      OccursCovers(text, key, i, i);
      QuoteBefore(text, i, j);
    }
  }

  ghost predicate NoneBefore(text: string, key: string, n: nat) {
    forall j | 0 <= j < n :: !Standalone(text, key, j)
  }

  lemma {:induction false} NoneFound(text: string, key: string, from: nat)
    requires NoneBefore(text, key, from)
    ensures var i := FindFrom(ToLower(text), Needle(key), from);
            NoneBefore(text, key, if i == -1 then |text| else i)
  {
    forall j | 0 <= j < |text|
      ensures Occurs(text, key, j) <==> j <= |text| - |Needle(key)| && StandsAt(ToLower(text), Needle(key), j)
    {
      OccursIs(text, key, j);
    }
  }

  lemma {:induction false} NoneSkipped(text: string, key: string, i: nat)
    requires Plain(key) && NoneBefore(text, key, i) && Occurs(text, key, i) && !BeginsLine(text, i)
    ensures NoneBefore(text, key, i + |key| + 2)
  {
    forall j | i < j < i + |key| + 2
      ensures !Standalone(text, key, j)
    {
      SkipHidesNone(text, key, i, j);
    }
  }

  /** The search finds the very first key token that begins its line. */
  lemma {:induction false} ScanIsFirst(text: string, key: string, from: nat)
    requires Plain(key) && NoneBefore(text, key, from)
    ensures match Scan(text, key, from)
            case None => NoneBefore(text, key, |text|)
            case Some(i) => Standalone(text, key, i) && NoneBefore(text, key, i)
    decreases |text| - from
  {
    NoneFound(text, key, from);
    var i := FindFrom(ToLower(text), Needle(key), from);
    if i != -1 {
      OccursIs(text, key, i);
      if !BeginsLine(text, i) {
        NoneSkipped(text, key, i);
        ScanIsFirst(text, key, i + |key| + 2);
      }
    }
  }

  // ---- Looking up what was written

  /** The two texts agree before `a`, and no token can reach over `a` in either. */
  ghost predicate SameBefore(text: string, r: string, key: string, a: nat) {
    && a <= |text| && a <= |r| && text[..a] == r[..a]
    && forall i | 0 <= i < a :: i + |key| + 2 > a ==> !Occurs(text, key, i) && !Occurs(r, key, i)
  }

  lemma {:induction false} BeginsLineSame(text: string, r: string, i: nat)
    requires i <= |text| && i <= |r| && text[..i] == r[..i]
    ensures BeginsLine(text, i) == BeginsLine(r, i)
    decreases i
  {
    if i > 0 {
      assert text[i - 1] == text[..i][i - 1] && r[i - 1] == r[..i][i - 1];
      assert text[..i - 1] == text[..i][..i - 1] && r[..i - 1] == r[..i][..i - 1];
      BeginsLineSame(text, r, i - 1);
    }
  }

  lemma {:induction false} StandaloneSame(text: string, r: string, key: string, a: nat, i: nat)
    requires SameBefore(text, r, key, a) && i < a
    ensures Standalone(text, key, i) == Standalone(r, key, i)
  {
    forall k | 0 <= k < a
      ensures text[k] == r[k]
    {
      assert text[k] == text[..a][k] && r[k] == r[..a][k];
    }
    assert text[..i] == text[..a][..i] && r[..i] == r[..a][..i];
    BeginsLineSame(text, r, i);
  }

  lemma {:induction false} NoneSame(text: string, r: string, key: string, a: nat)
    requires SameBefore(text, r, key, a)
    ensures NoneBefore(text, key, a) <==> NoneBefore(r, key, a)
  {
    forall i | 0 <= i < a
      ensures Standalone(text, key, i) == Standalone(r, key, i)
    {
      StandaloneSame(text, r, key, a, i);
    }
  }

  /** A line break, a tab or a brace in front of `a`, or at it, keeps a token from reaching over. */
  predicate Wall(text: string, a: nat)
    requires a <= |text|
  {
    a == 0 || a == |text| || text[a - 1] == '\n' || text[a] < ' ' || text[a] in {'{', '}'}
  }

  lemma {:induction false} WallStops(text: string, key: string, a: nat, i: nat)
    requires Plain(key) && a <= |text| && Wall(text, a) && i < a < i + |key| + 2
    ensures !Occurs(text, key, i)
  {
    if Occurs(text, key, i) {
      OccursCovers(text, key, i, a - 1);
      OccursCovers(text, key, i, a);
    }
  }

  /** Where `block`'s parts are. */
  lemma {:induction false} BlockChars(key: string, sourceType: string, val: string)
    requires Plain(key) && Plain(sourceType) && Plain(val)
    ensures var b := Block(key, sourceType, val);
            && |b| == |key| + |sourceType| + |val| + 19
            && b[0] == '\t' && b[1] == '"' && b[2..|key| + 2] == key && b[|key| + 2] == '"'
            && b[|key| + 5] == '{' && b[|b| - 2] == '}' && b[|b| - 1] == '\n'
            && (forall k | 0 <= k < |b| && k != |key| + 5 :: b[k] != '{')
            && (forall k | 0 <= k < |b| - 2 :: b[k] != '}')
            && b[|key| + 8] == '\t'
            && (forall k | 0 <= k < |b| && b[k] == '\n' :: k in {|key| + 3, |key| + 6, |b| - 4, |b| - 1})
  {
    var b := Block(key, sourceType, val);
    var t, v := |key| + 10, |key| + |sourceType| + 14;
    forall k | 0 <= k < |b| && k != |key| + 5
      ensures b[k] != '{' && (k < |b| - 2 ==> b[k] != '}')
      ensures b[k] == '\n' ==> k in {|key| + 3, |key| + 6, |b| - 4, |b| - 1}
    {
      if 2 <= k < |key| + 2 {
        assert b[k] == key[k - 2] && key[k - 2] in key;
      } else if t <= k < t + |sourceType| {
        assert b[k] == sourceType[k - t] && sourceType[k - t] in sourceType;
      } else if v <= k < v + |val| {
        assert b[k] == val[k - v] && val[k - v] in val;
      }
    }
  }

  lemma {:induction false} CloseSkips(text: string, i: nat, j: nat, depth: int)
    requires i <= j <= |text|
    requires forall k | i <= k < j :: text[k] != '{' && text[k] != '}'
    ensures Close(text, i, depth) == Close(text, j, depth)
    decreases j - i
  {
    if i < j {
      CloseSkips(text, i + 1, j, depth);
    }
  }

  ghost predicate HasBlock(r: string, a: nat, key: string, sourceType: string, val: string) {
    var b := Block(key, sourceType, val);
    a + |b| <= |r| && forall k | 0 <= k < |b| :: b[k] == r[a + k]
  }

  lemma {:induction false} BlockHere(p: string, tail: string, key: string, sourceType: string, val: string)
    ensures HasBlock(p + Block(key, sourceType, val) + tail, |p|, key, sourceType, val)
  {
  }

  lemma {:induction false} TokenHere(r: string, a: nat, key: string, sourceType: string, val: string)
    requires Plain(key) && Plain(sourceType) && Plain(val) && HasBlock(r, a, key, sourceType, val)
    ensures Occurs(r, key, a + 1)
    ensures a == 0 || r[a - 1] == '\n' ==> BeginsLine(r, a + 1) && LineStart(r, a + 1) == a
    ensures BeginsLine(r, a + 1) == BeginsLine(r, a)
    ensures LineStart(r, a + 1) == LineStart(r, a)
  {
    var b := Block(key, sourceType, val);
    BlockChars(key, sourceType, val);
    assert b[0] == r[a + 0] && b[1] == r[a + 1] && b[|key| + 2] == r[a + (|key| + 2)];
    forall k | 0 <= k < |Needle(key)|
      ensures Needle(key)[k] == Lower(r[a + 1 + k])
    {
      assert r[a + (1 + k)] == b[1 + k];
      if 0 < k < |key| + 1 {
        assert b[2..|key| + 2][k - 1] == key[k - 1];
      }
    }
  }

  lemma {:induction false} BlockCloses(r: string, a: nat, i: nat, key: string, sourceType: string, val: string)
    requires Plain(key) && Plain(sourceType) && Plain(val) && HasBlock(r, a, key, sourceType, val)
    requires i <= a + 1 && forall k | i <= k < a :: r[k] != '{'
    ensures NextBrace(r, i) == a + |key| + 5
    ensures BlockEnd(r, Close(r, a + |key| + 5, 0)) == a + |Block(key, sourceType, val)|
  {
    var b := Block(key, sourceType, val);
    BlockChars(key, sourceType, val);
    var brace, close := a + |key| + 5, a + |b| - 2;
    forall k | a <= k < a + |b|
      ensures r[k] == b[k - a]
    {
      assert b[k - a] == r[a + (k - a)];
    }
    CloseSkips(r, brace + 1, close, 1);
  }

  /** The first token that begins its line, known otherwise. */
  lemma {:induction false} ScanIs(text: string, key: string, i: nat)
    requires Plain(key) && Standalone(text, key, i) && NoneBefore(text, key, i)
    ensures Scan(text, key, 0) == Some(i)
  {
    ScanIsFirst(text, key, 0);
  }

  lemma {:induction false} TokenFirst(r: string, a: nat, key: string, sourceType: string, val: string)
    requires Plain(key) && Plain(sourceType) && Plain(val) && HasBlock(r, a, key, sourceType, val)
    requires NoneBefore(r, key, a) && BeginsLine(r, a)
    ensures Scan(r, key, 0) == Some(a + 1) && LineStart(r, a + 1) == LineStart(r, a)
  {
    TokenHere(r, a, key, sourceType, val);
    FirstChar(r, a, key, sourceType, val);
    ScanIs(r, key, a + 1);
  }

  /** Looking the key up gives a block that begins its line when no earlier token does. */
  lemma {:induction false} LookupAt(r: string, a: nat, key: string, sourceType: string, val: string)
    requires Plain(key) && Plain(sourceType) && Plain(val) && HasBlock(r, a, key, sourceType, val)
    requires NoneBefore(r, key, a) && BeginsLine(r, a)
    ensures Extent(r, key) == Some((LineStart(r, a), a + |Block(key, sourceType, val)|))
  {
    TokenFirst(r, a, key, sourceType, val);
    BlockCloses(r, a, a + 1, key, sourceType, val);
    ExtentOf(r, key, a + 1, a + |key| + 5, a + |Block(key, sourceType, val)|);
  }

  lemma {:induction false} ExtentOf(r: string, key: string, i: nat, brace: nat, end: nat)
    requires Scan(r, key, 0) == Some(i) && NextBrace(r, i) == brace && brace < |r|
    requires BlockEnd(r, Close(r, brace, 0)) == end && end <= |r|
    ensures Extent(r, key) == Some((LineStart(r, i), end))
  {
  }

  lemma {:induction false} FirstChar(r: string, a: nat, key: string, sourceType: string, val: string)
    requires Plain(key) && HasBlock(r, a, key, sourceType, val)
    ensures r[a] == '\t' && !Occurs(r, key, a)
  {
    var b := Block(key, sourceType, val);
    assert b[0] == r[a + 0];
    assert Needle(key)[0] == '"';
  }

  /** Looking the key up gives too much when an earlier token has no brace of its own. */
  lemma {:induction false} LookupAbove(r: string, a: nat, i: nat, key: string, sourceType: string, val: string)
    requires Plain(key) && Plain(sourceType) && Plain(val) && HasBlock(r, a, key, sourceType, val)
    requires i < a && Standalone(r, key, i) && NoneBefore(r, key, i) && forall k | i <= k < a :: r[k] != '{'
    ensures Extent(r, key) == Some((LineStart(r, i), a + |Block(key, sourceType, val)|))
  {
    BlockCloses(r, a, i, key, sourceType, val);
    ScanIs(r, key, i);
    ExtentOf(r, key, i, a + |key| + 5, a + |Block(key, sourceType, val)|);
  }

  // ---- What a replacement keeps

  lemma {:induction false} LineStartWall(text: string, i: nat)
    requires i <= |text|
    ensures LineStart(text, i) == 0 || text[LineStart(text, i) - 1] == '\n'
    ensures BeginsLine(text, LineStart(text, i)) && LineStart(text, LineStart(text, i)) == LineStart(text, i)
    decreases i
  {
    if i > 0 && text[i - 1] != '\n' {
      LineStartWall(text, i - 1);
    }
  }

  lemma {:induction false} WallsMakeSame(text: string, r: string, key: string, a: nat)
    requires Plain(key) && a <= |text| && a <= |r| && text[..a] == r[..a] && Wall(text, a) && Wall(r, a)
    ensures SameBefore(text, r, key, a)
  {
    forall i | 0 <= i < a && i + |key| + 2 > a
      ensures !Occurs(text, key, i) && !Occurs(r, key, i)
    {
      WallStops(text, key, a, i);
      WallStops(r, key, a, i);
    }
  }

  lemma {:induction false} Same(text: string, r: string, key: string, a: nat)
    requires Plain(key) && a <= |text| && a <= |r| && text[..a] == r[..a] && Wall(text, a) && Wall(r, a)
    requires NoneBefore(text, key, a)
    ensures NoneBefore(r, key, a)
  {
    WallsMakeSame(text, r, key, a);
    NoneSame(text, r, key, a);
  }

  predicate Has(text: string) {
    FindFrom(text, CONFIG, 0) != -1
  }

  /** `block` between the first `a` characters of a text and what is from `end` on. */
  ghost predicate Spliced(r: string, text: string, a: nat, end: nat, key: string, sourceType: string, val: string) {
    && a <= end <= |text| && a <= |r| && r[..a] == text[..a]
    && HasBlock(r, a, key, sourceType, val)
    && r[a + |Block(key, sourceType, val)|..] == text[end..]
  }

  lemma {:induction false} SpliceIs(text: string, a: nat, end: nat, key: string, sourceType: string, val: string)
    requires a <= end <= |text|
    ensures Spliced(text[..a] + Block(key, sourceType, val) + text[end..], text, a, end, key, sourceType, val)
  {
    var block, p, tail := Block(key, sourceType, val), text[..a], text[end..];
    BlockHere(p, tail, key, sourceType, val);
    Parts(p, block, tail);
  }

  lemma {:induction false} Parts(p: string, b: string, tail: string)
    ensures (p + b + tail)[..|p|] == p && (p + b + tail)[|p|..|p| + |b|] == b
    ensures (p + b + tail)[|p| + |b|..] == tail
  {
  }

  lemma {:induction false} UpsertReplaces(text: string, key: string, sourceType: string, val: string)
    requires Has(text) && Extent(text, key).Some?
    ensures var (a, end) := Extent(text, key).value;
            Spliced(Upsert(text, key, sourceType, val), text, a, end, key, sourceType, val)
  {
    var (a, end) := Extent(text, key).value;
    SpliceIs(text, a, end, key, sourceType, val);
  }

  /** A block spliced in at a line no token stands before: looking the key up gives it, from the
      start of that line. */
  lemma {:induction false} PlacedLooksUp(r: string, text: string, a: nat, end: nat, key: string, sourceType: string,
                                         val: string)
    requires Plain(key) && Plain(sourceType) && Plain(val) && Spliced(r, text, a, end, key, sourceType, val)
    requires Wall(text, a) && NoneBefore(text, key, a) && BeginsLine(text, a)
    ensures Extent(r, key) == Some((LineStart(text, a), a + |Block(key, sourceType, val)|))
  {
    FirstChar(r, a, key, sourceType, val);
    LineBegins(text, r, a);
    Same(text, r, key, a);
    LookupAt(r, a, key, sourceType, val);
  }

  lemma {:induction false} ExtentBegins(text: string, key: string)
    requires Plain(key) && Extent(text, key).Some?
    ensures var a := Extent(text, key).value.0;
            && NoneBefore(text, key, a) && BeginsLine(text, a) && LineStart(text, a) == a
            && (a == 0 || text[a - 1] == '\n')
  {
    ScanIsFirst(text, key, 0);
    LineStartWall(text, Scan(text, key, 0).value);
  }

  lemma {:induction false} LineBegins(text: string, r: string, a: nat)
    requires a <= |text| && a <= |r| && text[..a] == r[..a]
    ensures a > 0 ==> text[a - 1] == r[a - 1]
    ensures BeginsLine(r, a) == BeginsLine(text, a) && LineStart(r, a) == LineStart(text, a)
    decreases a
  {
    BeginsLineSame(text, r, a);
    if a > 0 {
      assert text[a - 1] == text[..a][a - 1] && r[a - 1] == r[..a][a - 1];
      assert text[..a - 1] == text[..a][..a - 1] && r[..a - 1] == r[..a][..a - 1];
      LineBegins(text, r, a - 1);
    }
  }

  // ---- What an insertion keeps

  /** Where the upsert inserts: the last closing brace of the stripped text, or -1. */
  function LastClose(text: string): (c: int)
    ensures -1 <= c < |text| && (c >= 0 ==> text[c] == '}')
  {
    FindLast(RStrip(text), '}')
  }

  lemma {:induction false} UpsertInserts(text: string, key: string, sourceType: string, val: string)
    requires Has(text) && Extent(text, key) == None && LastClose(text) >= 0
    ensures Spliced(Upsert(text, key, sourceType, val), text, LastClose(text), LastClose(text), key, sourceType, val)
  {
    SpliceIs(text, LastClose(text), LastClose(text), key, sourceType, val);
  }

  lemma {:induction false} UpsertAppends(text: string, key: string, sourceType: string, val: string)
    requires Has(text) && Extent(text, key) == None && LastClose(text) == -1
    ensures var r, p := Upsert(text, key, sourceType, val), RStrip(text) + "\n";
            Spliced(r, p, |p|, |p|, key, sourceType, val)
  {
    var p := RStrip(text) + "\n";
    SpliceIs(p, |p|, |p|, key, sourceType, val);
    assert p[..|p|] == p && p[|p|..] == "";
    assert p + Block(key, sourceType, val) + "" == p + Block(key, sourceType, val);
  }

  /** A token ends in a quote, so none reaches into the white space at the end of the text. */
  lemma {:induction false} StripKeepsNone(text: string, key: string, n: nat)
    requires Plain(key) && n <= |RStrip(text)|
    ensures NoneBefore(text, key, n) <==> NoneBefore(RStrip(text) + "\n", key, n)
  {
    var s := RStrip(text);
    var p := s + "\n";
    forall i | 0 <= i < |s| && i + |key| + 2 > |s|
      ensures !Occurs(text, key, i) && !Occurs(p, key, i)
    {
      WallStops(p, key, |s|, i);
      if Occurs(text, key, i) {
        OccursCovers(text, key, i, i + |key| + 1);
      }
    }
    assert text[..|s|] == s && p[..|s|] == s;
    forall i | 0 <= i < |s|
      ensures Standalone(text, key, i) == Standalone(p, key, i)
    {
      StandaloneSame(text, p, key, |s|, i);
    }
  }

  // ---- The config's own name

  lemma {:induction false} NameChars(k: nat)
    requires k < |CONFIG|
    ensures |NAME| == 17 && |CONFIG| == 19 && CONFIG[k] > ' '
    ensures CONFIG[k] == '"' <==> k == 0 || k == 18
    ensures 0 < k < 18 ==> CONFIG[k] == NAME[k - 1]
  {
  }

  ghost predicate NamedAt(s: string, j: nat) {
    j + |CONFIG| <= |s| && forall k | 0 <= k < |CONFIG| :: CONFIG[k] == s[j + k]
  }

  lemma {:induction false} HasIsNamed(s: string)
    ensures Has(s) <==> exists j: nat :: NamedAt(s, j)
  {
    var i := FindFrom(s, CONFIG, 0);
    if i != -1 {
      StandsAtIs(s, CONFIG, i);
      assert NamedAt(s, i);
    }
    forall j: nat | NamedAt(s, j)
      ensures Has(s)
    {
      StandsAtIs(s, CONFIG, j);
    }
  }

  lemma {:induction false} NamedInPart(s: string, part: string, from: nat, j: nat)
    requires from + |part| <= |s| && s[from..from + |part|] == part
    requires from <= j && j + |CONFIG| <= from + |part|
    ensures NamedAt(s, j) <==> NamedAt(part, j - from)
  {
    forall x | from <= x < from + |part|
      ensures s[x] == part[x - from]
    {
      assert s[from..from + |part|][x - from] == s[x];
    }
  }

  lemma {:induction false} NamedAvoids(s: string, j: nat, x: nat)
    requires NamedAt(s, j) && x < |s| && s[x] <= ' '
    ensures x < j || j + |CONFIG| <= x
  {
    if j <= x < j + |CONFIG| {
      assert CONFIG[x - j] == s[j + (x - j)];
      NameChars(x - j);
    }
  }

  lemma {:induction false} NamedJoined(p: string, b: string, tail: string, j: nat)
    requires b != "" && b[0] <= ' ' && b[|b| - 1] <= ' ' && NamedAt(p + b + tail, j)
    ensures Has(p) || Has(b) || Has(tail)
  {
    var s, n := p + b + tail, |p| + |b|;
    Parts(p, b, tail);
    NamedAvoids(s, j, |p|);
    NamedAvoids(s, j, n - 1);
    if j < |p| {
      NamedInPart(s, p, 0, j);
      HasIsNamed(p);
    } else if j < n {
      NamedInPart(s, b, |p|, j);
      HasIsNamed(b);
    } else {
      NamedInPart(s, tail, n, j);
      HasIsNamed(tail);
    }
  }

  lemma {:induction false} HasWhole(s: string, part: string, from: nat)
    requires from + |part| <= |s| && s[from..from + |part|] == part && Has(part)
    ensures Has(s)
  {
    HasIsNamed(part);
    var j: nat :| NamedAt(part, j);
    NamedInPart(s, part, from, from + j);
    HasIsNamed(s);
  }

  /** White space at either end of the middle keeps the name from reaching over. */
  lemma {:induction false} HasJoined(p: string, b: string, tail: string)
    requires b != "" && b[0] <= ' ' && b[|b| - 1] <= ' '
    ensures Has(p + b + tail) <==> Has(p) || Has(b) || Has(tail)
  {
    var s := p + b + tail;
    Parts(p, b, tail);
    if Has(p) {
      HasWhole(s, p, 0);
    } else if Has(b) {
      HasWhole(s, b, |p|);
    } else if Has(tail) {
      HasWhole(s, tail, |p| + |b|);
    } else if Has(s) {
      HasIsNamed(s);
      var j: nat :| NamedAt(s, j);
      NamedJoined(p, b, tail, j);
    }
  }

  /** The quoted strings of `block` and what stands behind each of its quotes. */
  lemma {:induction false} BlockQuotes(key: string, sourceType: string, val: string)
    requires Plain(key) && Plain(sourceType) && Plain(val)
    ensures var b, t, v := Block(key, sourceType, val), |key| + 10, |key| + |sourceType| + 14;
            && |b| == v + |val| + 5
            && b[2..2 + |key|] == key && b[t..t + |sourceType|] == sourceType && b[v..v + |val|] == val
            && b[|key| + 3] == '\n' && b[t + |sourceType| + 1] == '\t' && b[v + |val| + 1] == '\n'
            && forall k | 0 <= k < |b| ::
                 b[k] == '"' <==> k in {1, |key| + 2, t - 1, t + |sourceType|, v - 1, v + |val|}
  {
    var b, t, v := Block(key, sourceType, val), |key| + 10, |key| + |sourceType| + 14;
    forall k | 0 <= k < |b|
      ensures b[k] == '"' <==> k in {1, |key| + 2, t - 1, t + |sourceType|, v - 1, v + |val|}
    {
      if 2 <= k < |key| + 2 {
        assert b[k] == key[k - 2] && key[k - 2] in key;
      } else if t <= k < t + |sourceType| {
        assert b[k] == sourceType[k - t] && sourceType[k - t] in sourceType;
      } else if v <= k < v + |val| {
        assert b[k] == val[k - v] && val[k - v] in val;
      }
    }
  }

  /** A quoted string between two quotes, none inside, is named exactly when it is the name. */
  lemma {:induction false} QuotedIsNamed(b: string, q: nat, word: string)
    requires q + |word| + 2 <= |b| && b[q + 1..q + 1 + |word|] == word
    requires b[q] == '"' && b[q + 1 + |word|] == '"' && forall k | q < k < q + 1 + |word| :: b[k] != '"'
    ensures NamedAt(b, q) <==> word == NAME
  {
    NameChars(0);
    forall k | 0 <= k < |word|
      ensures b[q + 1 + k] == word[k]
    {
      assert b[q + 1..q + 1 + |word|][k] == b[q + 1 + k];
    }
    if NamedAt(b, q) {
      assert CONFIG[18] == b[q + 18];
      if |word| < 17 {
        assert CONFIG[|word| + 1] == b[q + (|word| + 1)];
        NameChars(|word| + 1);
      }
      forall k | 0 <= k < |word|
        ensures word[k] == NAME[k]
      {
        NameChars(k + 1);
        assert CONFIG[k + 1] == b[q + (k + 1)];
      }
    } else if word == NAME {
      forall k | 0 <= k < |CONFIG|
        ensures CONFIG[k] == b[q + k]
      {
        NameChars(k);
        assert 0 < k < 18 ==> b[q + 1 + (k - 1)] == word[k - 1];
      }
    }
  }

  /** A name in the block begins at an opening quote. */
  lemma {:induction false} NameOpens(key: string, sourceType: string, val: string, j: nat)
    requires Plain(key) && Plain(sourceType) && Plain(val)
    requires NamedAt(Block(key, sourceType, val), j)
    ensures j in {1, |key| + 9, |key| + |sourceType| + 13}
  {
    var b := Block(key, sourceType, val);
    BlockQuotes(key, sourceType, val);
    NameChars(0);
    NameChars(1);
    assert CONFIG[0] == b[j + 0] && CONFIG[1] == b[j + 1];
  }

  lemma {:induction false} BlockNamedAt(key: string, sourceType: string, val: string, j: nat)
    requires Plain(key) && Plain(sourceType) && Plain(val)
    requires NamedAt(Block(key, sourceType, val), j)
    ensures key == NAME || sourceType == NAME || val == NAME
  {
    var b, t, v := Block(key, sourceType, val), |key| + 10, |key| + |sourceType| + 14;
    NameOpens(key, sourceType, val, j);
    BlockQuotes(key, sourceType, val);
    if j == 1 {
      QuotedIsNamed(b, 1, key);
    } else if j == t - 1 {
      QuotedIsNamed(b, t - 1, sourceType);
    } else {
      QuotedIsNamed(b, v - 1, val);
    }
  }

  lemma {:induction false} BlockNames(key: string, sourceType: string, val: string)
    requires Plain(key) && Plain(sourceType) && Plain(val) && (key == NAME || sourceType == NAME || val == NAME)
    ensures exists j: nat :: NamedAt(Block(key, sourceType, val), j)
  {
    var b, t, v := Block(key, sourceType, val), |key| + 10, |key| + |sourceType| + 14;
    BlockQuotes(key, sourceType, val);
    if key == NAME {
      QuotedIsNamed(b, 1, key);
    } else if sourceType == NAME {
      QuotedIsNamed(b, t - 1, sourceType);
    } else {
      QuotedIsNamed(b, v - 1, val);
    }
  }

  lemma {:induction false} BlockHas(key: string, sourceType: string, val: string)
    requires Plain(key) && Plain(sourceType) && Plain(val)
    ensures Has(Block(key, sourceType, val)) <==> key == NAME || sourceType == NAME || val == NAME
  {
    var b := Block(key, sourceType, val);
    HasIsNamed(b);
    if key == NAME || sourceType == NAME || val == NAME {
      BlockNames(key, sourceType, val);
    } else if j: nat :| NamedAt(b, j) {
      BlockNamedAt(key, sourceType, val, j);
    }
  }

  /** The config is named in what a replacement keeps, or in what it writes. */
  predicate StaysNamed(text: string, a: nat, end: nat, key: string, sourceType: string, val: string)
    requires a <= end <= |text|
  {
    Has(text[..a]) || Has(text[end..]) || key == NAME || sourceType == NAME || val == NAME
  }

  lemma {:induction false} ReplacedHas(text: string, a: nat, end: nat, key: string, sourceType: string, val: string)
    requires Plain(key) && Plain(sourceType) && Plain(val) && a <= end <= |text|
    ensures Has(text[..a] + Block(key, sourceType, val) + text[end..])
       <==> StaysNamed(text, a, end, key, sourceType, val)
  {
    BlockChars(key, sourceType, val);
    HasJoined(text[..a], Block(key, sourceType, val), text[end..]);
    BlockHas(key, sourceType, val);
  }

  // ---- Doing it twice

  ghost predicate Settles(text: string, key: string, sourceType: string, val: string) {
    var r := Upsert(text, key, sourceType, val);
    Upsert(r, key, sourceType, val) == r
  }

  /** A text whose key is looked up as exactly its block is left alone. */
  lemma {:induction false} FoundSettles(r: string, a: nat, key: string, sourceType: string, val: string)
    requires Has(r) && HasBlock(r, a, key, sourceType, val)
    requires Extent(r, key) == Some((a, a + |Block(key, sourceType, val)|))
    ensures Upsert(r, key, sourceType, val) == r
  {
    var b := Block(key, sourceType, val);
    assert r[a..a + |b|] == b;
    Rejoin(r, a, a + |b|);
  }

  lemma {:induction false} Rejoin(r: string, a: nat, e: nat)
    requires a <= e <= |r|
    ensures r[..a] + r[a..e] + r[e..] == r
  {
  }

  /** A text whose key is looked up as more than a block gets shorter. */
  lemma {:induction false} LongerShrinks(r: string, key: string, sourceType: string, val: string)
    requires Has(r) && Extent(r, key).Some?
    requires var (a, end) := Extent(r, key).value; a + |Block(key, sourceType, val)| < end
    ensures Upsert(r, key, sourceType, val) != r
  {
    UpsertReplaces(r, key, sourceType, val);
    var (a, end) := Extent(r, key).value;
    var t := Upsert(r, key, sourceType, val);
    assert |t[a + |Block(key, sourceType, val)|..]| == |r[end..]|;
  }

  lemma {:induction false} LostConfig(r: string, key: string, sourceType: string, val: string)
    requires !Has(r)
    ensures Has(Upsert(r, key, sourceType, val)) && Upsert(r, key, sourceType, val) != r
  {
    var rest := "\n{\n" + Block(key, sourceType, val) + "}\n";
    var t := Upsert(r, key, sourceType, val);
    assert t == CONFIG + rest;
    ConfigFront(rest);
  }

  lemma {:induction false} ConfigFront(rest: string)
    ensures StandsAt(CONFIG + rest, CONFIG, 0) && Has(CONFIG + rest)
  {
    StandsAtIs(CONFIG + rest, CONFIG, 0);
  }

  lemma {:induction false} ReplacedSettles(r: string, text: string, a: nat, end: nat, key: string, sourceType: string,
                                           val: string)
    requires Plain(key) && Plain(sourceType) && Plain(val)
    requires Extent(text, key) == Some((a, end)) && Spliced(r, text, a, end, key, sourceType, val)
    ensures Upsert(r, key, sourceType, val) == r <==> Has(r)
  {
    if Has(r) {
      ExtentBegins(text, key);
      PlacedLooksUp(r, text, a, end, key, sourceType, val);
      FoundSettles(r, a, key, sourceType, val);
    } else {
      LostConfig(r, key, sourceType, val);
    }
  }

  /** A replacement settles exactly when the config is still named: outside what is replaced, or by
      the entry itself. */
  lemma {:induction false} ReplacingSettles(text: string, key: string, sourceType: string, val: string)
    requires Plain(key) && Plain(sourceType) && Plain(val)
    requires Has(text) && Extent(text, key).Some?
    ensures var (a, end) := Extent(text, key).value;
            Settles(text, key, sourceType, val) <==> StaysNamed(text, a, end, key, sourceType, val)
  {
    var (a, end) := Extent(text, key).value;
    UpsertReplaces(text, key, sourceType, val);
    ReplacedSettles(Upsert(text, key, sourceType, val), text, a, end, key, sourceType, val);
    ReplacedHas(text, a, end, key, sourceType, val);
  }

  // ---- Insertions, twice

  lemma {:induction false} ConfigChars(k: nat)
    requires k < |CONFIG|
    ensures CONFIG[k] != '}' && CONFIG[k] > ' '
  {
  }

  lemma {:induction false} SplitNames(text: string, c: nat, j: nat)
    requires NamedAt(text, j) && c <= |text| && (c == |text| || text[c] == '}')
    ensures Has(text[..c]) || Has(text[c..])
  {
    if j + |CONFIG| <= c {
      NamedInPart(text, text[..c], 0, j);
      HasIsNamed(text[..c]);
    } else if c <= j {
      NamedInPart(text, text[c..], c, j);
      HasIsNamed(text[c..]);
    } else {
      assert CONFIG[c - j] == text[j + (c - j)];
      ConfigChars(c - j);
    }
  }

  /** A splice at a brace, or at the end, breaks no mention of the config. */
  lemma {:induction false} SpliceKeepsConfig(r: string, text: string, c: nat, key: string, sourceType: string,
                                             val: string)
    requires Has(text) && Spliced(r, text, c, c, key, sourceType, val)
    requires c == |text| || text[c] == '}'
    ensures Has(r)
  {
    HasIsNamed(text);
    var j: nat :| NamedAt(text, j);
    SplitNames(text, c, j);
    if Has(text[..c]) {
      HasWhole(r, text[..c], 0);
    } else {
      HasWhole(r, text[c..], c + |Block(key, sourceType, val)|);
    }
  }

  lemma {:induction false} StripKeepsConfig(text: string)
    requires Has(text)
    ensures Has(RStrip(text) + "\n")
  {
    var j, s := FindFrom(text, CONFIG, 0), RStrip(text);
    StandsAtIs(text, CONFIG, j);
    assert CONFIG[18] == text[j + 18];
    forall k | 0 <= k < |CONFIG|
      ensures CONFIG[k] == (s + "\n")[j + k]
    {
      assert CONFIG[k] == text[j + k];
    }
    StandsAtIs(s + "\n", CONFIG, j);
  }

  /** A token above the block, with no brace of its own: the next upsert replaces from there on. */
  lemma {:induction false} AboveShrinks(r: string, text: string, c: nat, i: nat, key: string, sourceType: string,
                                        val: string)
    requires Plain(key) && Plain(sourceType) && Plain(val)
    requires Has(r) && Spliced(r, text, c, c, key, sourceType, val) && Wall(text, c)
    requires i < c && Standalone(text, key, i) && NoneBefore(text, key, i) && forall k | i <= k < c :: text[k] != '{'
    ensures Upsert(r, key, sourceType, val) != r
  {
    FirstChar(r, c, key, sourceType, val);
    WallsMakeSame(text, r, key, c);
    forall j | 0 <= j <= i
      ensures Standalone(text, key, j) == Standalone(r, key, j)
    {
      StandaloneSame(text, r, key, c, j);
    }
    forall k | i <= k < c
      ensures r[k] != '{'
    {
      assert r[..c][k] == text[..c][k];
    }
    LookupAbove(r, c, i, key, sourceType, val);
    LongerShrinks(r, key, sourceType, val);
  }

  /** Without a token above, what is inserted at a line's start stays, and what is inserted behind
      white space loses it. */
  lemma {:induction false} PlacedSettles(r: string, text: string, c: nat, key: string, sourceType: string, val: string)
    requires Plain(key) && Plain(sourceType) && Plain(val)
    requires Has(r) && Spliced(r, text, c, c, key, sourceType, val) && Wall(text, c)
    requires NoneBefore(text, key, c) && BeginsLine(text, c)
    ensures Upsert(r, key, sourceType, val) == r <==> LineStart(text, c) == c
  {
    PlacedLooksUp(r, text, c, c, key, sourceType, val);
    if LineStart(text, c) == c {
      FoundSettles(r, c, key, sourceType, val);
    } else {
      LongerShrinks(r, key, sourceType, val);
    }
  }

  /** The block's own lines: only its first begins with a tab and a quote. */
  lemma {:induction false} BlockLines(key: string, sourceType: string, val: string, k: nat)
    requires Plain(key) && Plain(sourceType) && Plain(val)
    requires k + 2 < |Block(key, sourceType, val)| && Block(key, sourceType, val)[k] == '\n'
    ensures Block(key, sourceType, val)[k + 2] != '"'
  {
    var b := Block(key, sourceType, val);
    BlockChars(key, sourceType, val);
  }

  /** What is behind the insertion begins its line as before: the brace in front saw to that. */
  lemma {:induction false} TailLines(r: string, text: string, c: nat, n: nat, x: nat)
    requires c < x <= |text| && text[c] == '}' && |r| == |text| + n
    requires forall k | c <= k < |text| :: r[k + n] == text[k]
    ensures BeginsLine(r, x + n) == BeginsLine(text, x)
    decreases x
  {
    assert r[x - 1 + n] == text[x - 1];
    if x - 1 > c {
      TailLines(r, text, c, n, x - 1);
    }
  }

  lemma {:induction false} TailShifts(r: string, text: string, c: nat, key: string, sourceType: string, val: string,
                                      k: nat)
    requires Spliced(r, text, c, c, key, sourceType, val) && c <= k < |text|
    ensures |r| == |text| + |Block(key, sourceType, val)|
    ensures r[k + |Block(key, sourceType, val)|] == text[k]
  {
    var n := |Block(key, sourceType, val)|;
    assert |r[c + n..]| == |text[c..]|;
    assert r[c + n..][k - c] == text[c..][k - c];
  }

  lemma {:induction false} TokenInTail(r: string, text: string, c: nat, a: nat, key: string, sourceType: string,
                                       val: string)
    requires Spliced(r, text, c, c, key, sourceType, val) && c < |text| && text[c] == '}'
    requires var n := |Block(key, sourceType, val)|; a >= c + n && Standalone(r, key, a + 1)
    ensures Standalone(text, key, a + 1 - |Block(key, sourceType, val)|) && |r| == |text| + |Block(key, sourceType, val)|
  {
    var n := |Block(key, sourceType, val)|;
    forall k | c <= k < |text|
      ensures |r| == |text| + n && r[k + n] == text[k]
    {
      TailShifts(r, text, c, key, sourceType, val, k);
    }
    TailLines(r, text, c, n, a + 1 - n);
    TailOccurs(r, text, c, n, key, a + 1 - n);
  }

  /** No copy of the block stands in the tail: its brace would have been found. */
  lemma {:induction false} NoneInTail(r: string, text: string, c: nat, a: nat, key: string, sourceType: string,
                                      val: string)
    requires Plain(key) && Plain(sourceType) && Plain(val)
    requires Spliced(r, text, c, c, key, sourceType, val) && c < |text| && text[c] == '}'
    requires Extent(text, key) == None
    requires a >= c + |Block(key, sourceType, val)| && HasBlock(r, a, key, sourceType, val)
    ensures !Standalone(r, key, a + 1)
  {
    var n, brace := |Block(key, sourceType, val)|, a + |key| + 5;
    if Standalone(r, key, a + 1) {
      TokenInTail(r, text, c, a, key, sourceType, val);
      BlockChars(key, sourceType, val);
      assert Block(key, sourceType, val)[|key| + 5] == r[a + (|key| + 5)];
      TailShifts(r, text, c, key, sourceType, val, brace - n);
      NoBraceAfter(text, key, a + 1 - n, brace - n);
    }
  }

  lemma {:induction false} TailOccurs(r: string, text: string, c: nat, n: nat, key: string, q: nat)
    requires c <= q <= |text| && |r| == |text| + n
    requires forall k | c <= k < |text| :: r[k + n] == text[k]
    requires Occurs(r, key, q + n)
    ensures Occurs(text, key, q)
  {
    forall k | 0 <= k < |Needle(key)|
      ensures Needle(key)[k] == Lower(text[q + k])
    {
      assert Needle(key)[k] == Lower(r[q + n + k]) && r[q + k + n] == text[q + k];
    }
  }

  /** A key without an entry: no brace opens behind its token. */
  lemma {:induction false} NoBraceAfter(text: string, key: string, q: nat, k: nat)
    requires Plain(key) && Extent(text, key) == None && Standalone(text, key, q) && q <= k < |text|
    ensures text[k] != '{'
  {
    ScanIsFirst(text, key, 0);
  }

  /** No copy of the block begins a line after it was put behind something on its own. */
  lemma {:induction false} NoCopy(r: string, text: string, c: nat, a: nat, key: string, sourceType: string, val: string)
    requires Plain(key) && Plain(sourceType) && Plain(val)
    requires Spliced(r, text, c, c, key, sourceType, val) && c < |text| && text[c] == '}'
    requires Extent(text, key) == None && NoneBefore(text, key, c) && !BeginsLine(text, c)
    requires HasBlock(r, a, key, sourceType, val)
    ensures a > 0 && r[a - 1] != '\n'
  {
    var b := Block(key, sourceType, val);
    TokenHere(r, a, key, sourceType, val);
    FirstChar(r, c, key, sourceType, val);
    Same(text, r, key, c);
    LineBegins(text, r, c);
    BlockChars(key, sourceType, val);
    assert b[1] == r[a + 1] && b[1] == '"';
    assert a + 1 < c ==> !Standalone(r, key, a + 1);
    if c < a < c + |b| {
      var k := a - 1 - c;
      assert b[k] == r[c + k];
      assert k + 2 < |b| ==> b[k + 2] == r[c + (k + 2)];
      if k + 2 < |b| && b[k] == '\n' {
        BlockLines(key, sourceType, val, k);
      }
    }
    if a >= c + |b| {
      NoneInTail(r, text, c, a, key, sourceType, val);
    }
  }

  /** An insertion behind something on its line is not found again, and so grows. */
  lemma {:induction false} UnfoundGrows(r: string, text: string, c: nat, key: string, sourceType: string, val: string)
    requires Plain(key) && Plain(sourceType) && Plain(val)
    requires Has(r) && Spliced(r, text, c, c, key, sourceType, val) && c < |text| && text[c] == '}'
    requires Extent(text, key) == None && NoneBefore(text, key, c) && !BeginsLine(text, c)
    ensures Upsert(r, key, sourceType, val) != r
  {
    if Extent(r, key).Some? {
      FoundIsOther(r, text, c, key, sourceType, val);
    } else {
      BraceInside(r, c, key, sourceType, val);
      UpsertInserts(r, key, sourceType, val);
      Grown(Upsert(r, key, sourceType, val), r, LastClose(r), key, sourceType, val);
    }
  }

  lemma {:induction false} FoundIsOther(r: string, text: string, c: nat, key: string, sourceType: string, val: string)
    requires Plain(key) && Plain(sourceType) && Plain(val)
    requires Has(r) && Spliced(r, text, c, c, key, sourceType, val) && c < |text| && text[c] == '}'
    requires Extent(text, key) == None && NoneBefore(text, key, c) && !BeginsLine(text, c)
    requires Extent(r, key).Some?
    ensures Upsert(r, key, sourceType, val) != r
  {
    var (a, end) := Extent(r, key).value;
    ExtentBegins(r, key);
    NoBlockHere(r, text, c, a, key, sourceType, val);
    UpsertReplaces(r, key, sourceType, val);
    SpliceDiffers(Upsert(r, key, sourceType, val), r, a, end, key, sourceType, val);
  }

  lemma {:induction false} NoBlockHere(r: string, text: string, c: nat, a: nat, key: string, sourceType: string,
                                       val: string)
    requires Plain(key) && Plain(sourceType) && Plain(val)
    requires Spliced(r, text, c, c, key, sourceType, val) && c < |text| && text[c] == '}'
    requires Extent(text, key) == None && NoneBefore(text, key, c) && !BeginsLine(text, c)
    requires a <= |r| && (a == 0 || r[a - 1] == '\n')
    ensures !HasBlock(r, a, key, sourceType, val)
  {
    if HasBlock(r, a, key, sourceType, val) {
      NoCopy(r, text, c, a, key, sourceType, val);
    }
  }

  lemma {:induction false} SpliceDiffers(t: string, r: string, a: nat, end: nat, key: string, sourceType: string,
                                         val: string)
    requires Spliced(t, r, a, end, key, sourceType, val) && !HasBlock(r, a, key, sourceType, val)
    ensures t != r
  {
  }

  lemma {:induction false} Grown(t: string, r: string, c: nat, key: string, sourceType: string, val: string)
    requires Spliced(t, r, c, c, key, sourceType, val)
    ensures t != r
  {
    assert |t[c + |Block(key, sourceType, val)|..]| == |r[c..]|;
  }

  lemma {:induction false} BraceInside(r: string, c: nat, key: string, sourceType: string, val: string)
    requires Plain(key) && Plain(sourceType) && Plain(val) && HasBlock(r, c, key, sourceType, val)
    ensures LastClose(r) >= 0
  {
    var b := Block(key, sourceType, val);
    BlockChars(key, sourceType, val);
    var k := c + (|b| - 2);
    assert b[|b| - 2] == r[k];
    assert k < |RStrip(r)| && RStrip(r)[k] == '}';
  }

  /** No token begins its line above `c`, as the search tells. */
  lemma {:induction false} FreeAbove(text: string, key: string, c: nat)
    requires Plain(key) && c < |text| && text[c] == '}'
    ensures NoneBefore(text, key, c) <==> match Scan(text, key, 0) case None => true case Some(i) => i > c
  {
    ScanIsFirst(text, key, 0);
    if Scan(text, key, 0) == Some(c) {
      OccursCovers(text, key, c, c);
    }
  }

  lemma {:induction false} InsertedSettles(r: string, text: string, c: nat, key: string, sourceType: string, val: string)
    requires Plain(key) && Plain(sourceType) && Plain(val)
    requires Has(r) && Spliced(r, text, c, c, key, sourceType, val) && c < |text| && text[c] == '}'
    requires Extent(text, key) == None
    ensures Upsert(r, key, sourceType, val) == r
       <==> (c == 0 || text[c - 1] == '\n') && match Scan(text, key, 0) case None => true case Some(i) => i > c
  {
    FreeAbove(text, key, c);
    if !NoneBefore(text, key, c) {
      ScanIsFirst(text, key, 0);
      AboveShrinks(r, text, c, Scan(text, key, 0).value, key, sourceType, val);
    } else if BeginsLine(text, c) {
      PlacedSettles(r, text, c, key, sourceType, val);
    } else {
      UnfoundGrows(r, text, c, key, sourceType, val);
    }
  }

  lemma {:induction false} InsertionSettles(r: string, text: string, c: nat, key: string, sourceType: string,
                                            val: string)
    requires Plain(key) && Plain(sourceType) && Plain(val)
    requires Has(text) && Spliced(r, text, c, c, key, sourceType, val) && c < |text| && text[c] == '}'
    requires Extent(text, key) == None
    ensures Upsert(r, key, sourceType, val) == r
       <==> (c == 0 || text[c - 1] == '\n') && match Scan(text, key, 0) case None => true case Some(i) => i > c
  {
    SpliceKeepsConfig(r, text, c, key, sourceType, val);
    InsertedSettles(r, text, c, key, sourceType, val);
  }

  /** An insertion before the last brace settles exactly when that brace is in column 0 and no token
      without a block stands above it. */
  lemma {:induction false} InsertingSettles(text: string, key: string, sourceType: string, val: string)
    requires Plain(key) && Plain(sourceType) && Plain(val)
    requires Has(text) && Extent(text, key) == None && LastClose(text) >= 0
    ensures var c := LastClose(text);
            Settles(text, key, sourceType, val)
            <==> (c == 0 || text[c - 1] == '\n') && match Scan(text, key, 0) case None => true case Some(i) => i > c
  {
    UpsertInserts(text, key, sourceType, val);
    InsertionSettles(Upsert(text, key, sourceType, val), text, LastClose(text), key, sourceType, val);
  }

  /** An entry written at the end of a text without a closing brace settles exactly when there was no
      token of it before. */
  lemma {:induction false} AppendingSettles(text: string, key: string, sourceType: string, val: string)
    requires Plain(key) && Plain(sourceType) && Plain(val)
    requires Has(text) && Extent(text, key) == None && LastClose(text) == -1
    ensures Settles(text, key, sourceType, val) <==> Scan(text, key, 0) == None
  {
    var r, p := Upsert(text, key, sourceType, val), RStrip(text) + "\n";
    UpsertAppends(text, key, sourceType, val);
    StripKeepsConfig(text);
    SpliceKeepsConfig(r, p, |p|, key, sourceType, val);
    ScanIsFirst(text, key, 0);
    if Scan(text, key, 0) == None {
      StripKeepsNone(text, key, |RStrip(text)|);
      NoneAtBreak(p, key, |RStrip(text)|);
      PlacedSettles(r, p, |p|, key, sourceType, val);
    } else {
      AppendedBelow(r, text, key, sourceType, val);
    }
  }

  lemma {:induction false} NoneAtBreak(p: string, key: string, n: nat)
    requires Plain(key) && |p| == n + 1 && p[n] == '\n' && NoneBefore(p, key, n)
    ensures NoneBefore(p, key, n + 1) && BeginsLine(p, n + 1) && LineStart(p, n + 1) == n + 1
  {
    if Occurs(p, key, n) {
      OccursCovers(p, key, n, n);
    }
  }

  lemma {:induction false} AppendedBelow(r: string, text: string, key: string, sourceType: string, val: string)
    requires Plain(key) && Plain(sourceType) && Plain(val)
    requires Extent(text, key) == None && Scan(text, key, 0).Some? && Has(r)
    requires var p := RStrip(text) + "\n"; Spliced(r, p, |p|, |p|, key, sourceType, val)
    ensures Upsert(r, key, sourceType, val) != r
  {
    var s, p, i := RStrip(text), RStrip(text) + "\n", Scan(text, key, 0).value;
    ScanIsFirst(text, key, 0);
    OccursCovers(text, key, i, i + |key| + 1);
    StripKeepsNone(text, key, i);
    StripKeepsToken(text, key, i);
    forall k | i <= k < |p|
      ensures p[k] != '{'
    {
      if k < |s| {
        NoBraceAfter(text, key, i, k);
      }
    }
    AboveShrinks(r, p, |p|, i, key, sourceType, val);
  }

  lemma {:induction false} StripKeepsToken(text: string, key: string, i: nat)
    requires Plain(key) && Standalone(text, key, i)
    ensures i < |RStrip(text)| && Standalone(RStrip(text) + "\n", key, i)
  {
    var s := RStrip(text);
    var p := s + "\n";
    OccursCovers(text, key, i, i + |key| + 1);
    forall k | 0 <= k < |Needle(key)|
      ensures Needle(key)[k] == Lower(p[i + k])
    {
      assert Needle(key)[k] == Lower(text[i + k]) && p[i + k] == text[i + k];
    }
    assert p[..i] == text[..i];
    BeginsLineSame(text, p, i);
  }

  // ---- A new file

  const FRESH := CONFIG + "\n{\n"

  lemma {:induction false} FreshChars()
    ensures |FRESH| == 22 && FRESH[18] == '"' && FRESH[20] == '{' && FRESH[21] == '\n'
    ensures forall k | 0 < k < 22 && k != 18 :: FRESH[k] != '"'
    ensures forall k | 0 <= k < 20 :: FRESH[k] != '{' && FRESH[k] != '}'
    ensures forall k | 0 <= k < 19 :: FRESH[k] == CONFIG[k] && FRESH[k] != '\n'
  {
  }

  lemma {:induction false} Regroup(a: string, b: string, c: string, d: string)
    ensures a + b + c + d == a + (b + c + d)
  {
  }

  lemma {:induction false} FreshHas(block: string)
    ensures Has(FRESH + block + "}\n")
  {
    Regroup(CONFIG, "\n{\n", block, "}\n");
    ConfigFront("\n{\n" + block + "}\n");
  }

  lemma {:induction false} FreshIs(key: string, sourceType: string, val: string)
    ensures var block := Block(key, sourceType, val);
            && HasBlock(FRESH + block + "}\n", 22, key, sourceType, val)
            && (FRESH + block + "}\n")[..22] == FRESH
            && (FRESH + block + "}\n")[22 + |block|..] == "}\n"
  {
    FreshChars();
    BlockHere(FRESH, "}\n", key, sourceType, val);
    Parts(FRESH, Block(key, sourceType, val), "}\n");
  }

  /** The skeleton's own name is the only token before the entry. */
  lemma {:induction false} FreshTokens(r: string, key: string)
    requires Plain(key) && |r| >= 22 && r[..22] == FRESH
    ensures forall i | 0 < i < 22 :: !Standalone(r, key, i)
    ensures Standalone(r, key, 0) ==> ToLower(key) == NAME
  {
    FreshChars();
    forall k | 0 <= k < 22
      ensures r[k] == FRESH[k]
    {
      assert r[..22][k] == r[k];
    }
    forall i | 0 < i < 22
      ensures !Standalone(r, key, i)
    {
      if Occurs(r, key, i) {
        OccursCovers(r, key, i, i);
        QuoteBefore(r, 0, 18);
      }
    }
    if Occurs(r, key, 0) {
      FreshNames(r, key);
    }
  }

  lemma {:induction false} FreshNames(r: string, key: string)
    requires Plain(key) && |r| >= 22 && r[..22] == FRESH && Occurs(r, key, 0)
    ensures ToLower(key) == NAME
  {
    FreshChars();
    var last := |key| + 1;
    if last >= 18 {
      OccursCovers(r, key, 0, 18);
    } else {
      OccursCovers(r, key, 0, last);
    }
    assert r[..22][18] == r[18] && (last < 22 ==> r[..22][last] == r[last]);
    assert |key| == 17;
    forall k | 0 <= k < 17
      ensures ToLower(key)[k] == NAME[k]
    {
      assert Needle(key)[k + 1] == Lower(r[0 + (k + 1)]) && r[k + 1] == r[..22][k + 1];
      ConfigLetters(k);
    }
  }

  lemma {:induction false} ConfigLetters(k: nat)
    requires k < 17
    ensures FRESH[k + 1] == NAME[k] && Lower(FRESH[k + 1]) == FRESH[k + 1]
  {
  }

  lemma {:induction false} FreshNamed(r: string, key: string)
    requires |r| >= 22 && r[..22] == FRESH && ToLower(key) == NAME
    ensures Standalone(r, key, 0)
  {
    FreshChars();
    forall k | 0 <= k < |Needle(key)|
      ensures Needle(key)[k] == Lower(r[0 + k])
    {
      assert r[k] == r[..22][k];
      if 0 < k < 18 {
        ConfigLetters(k - 1);
      }
    }
  }

  /** A key that is the config's own name swallows the whole file. */
  lemma {:induction false} FreshSwallowed(r: string, key: string, sourceType: string, val: string)
    requires Plain(key) && Plain(sourceType) && Plain(val) && ToLower(key) == NAME
    requires |r| >= 22 && r[..22] == FRESH && HasBlock(r, 22, key, sourceType, val)
    ensures Extent(r, key).Some? && Extent(r, key).value.0 == 0
    ensures Extent(r, key).value.1 > |Block(key, sourceType, val)|
  {
    var b := Block(key, sourceType, val);
    FreshNamed(r, key);
    ScanIs(r, key, 0);
    FreshCloses(r, key, sourceType, val);
  }

  /** The brace behind the config's name is open over the whole block. */
  lemma {:induction false} FreshCloses(r: string, key: string, sourceType: string, val: string)
    requires Plain(key) && Plain(sourceType) && Plain(val)
    requires |r| >= 22 && r[..22] == FRESH && HasBlock(r, 22, key, sourceType, val)
    ensures NextBrace(r, 0) == 20 && Close(r, 20, 0) > |Block(key, sourceType, val)|
  {
    var b := Block(key, sourceType, val);
    FreshChars();
    BlockChars(key, sourceType, val);
    forall k | 0 <= k < 22
      ensures r[k] == FRESH[k]
    {
      assert r[..22][k] == r[k];
    }
    forall k | 22 <= k < 22 + |b|
      ensures r[k] == b[k - 22]
    {
      assert b[k - 22] == r[22 + (k - 22)];
    }
    CloseSkips(r, 21, 27 + |key|, 1);
    CloseSkips(r, 28 + |key|, 20 + |b|, 2);
  }

  lemma {:induction false} LookedUpSettles(r: string, a: nat, key: string, sourceType: string, val: string)
    requires Plain(key) && Plain(sourceType) && Plain(val) && Has(r) && HasBlock(r, a, key, sourceType, val)
    requires NoneBefore(r, key, a) && BeginsLine(r, a) && LineStart(r, a) == a
    ensures Extent(r, key) == Some((a, a + |Block(key, sourceType, val)|))
    ensures Upsert(r, key, sourceType, val) == r
  {
    LookupAt(r, a, key, sourceType, val);
    FoundSettles(r, a, key, sourceType, val);
  }

  lemma {:induction false} FreshStart(r: string, key: string)
    requires Plain(key) && ToLower(key) != NAME && |r| >= 22 && r[..22] == FRESH
    ensures NoneBefore(r, key, 22) && BeginsLine(r, 22) && LineStart(r, 22) == 22
  {
    FreshTokens(r, key);
    assert FRESH[21] == '\n' && r[21] == r[..22][21];
  }

  /** A new file settles exactly when the key is not the config's own name. */
  lemma {:induction false} CreatingSettles(text: string, key: string, sourceType: string, val: string)
    requires Plain(key) && Plain(sourceType) && Plain(val) && !Has(text)
    ensures Settles(text, key, sourceType, val) <==> ToLower(key) != NAME
  {
    var r := FRESH + Block(key, sourceType, val) + "}\n";
    FreshHas(Block(key, sourceType, val));
    FreshIs(key, sourceType, val);
    assert Upsert(text, key, sourceType, val) == r;
    if ToLower(key) == NAME {
      FreshSwallowed(r, key, sourceType, val);
      LongerShrinks(r, key, sourceType, val);
    } else {
      FreshStart(r, key);
      LookedUpSettles(r, |FRESH|, key, sourceType, val);
    }
  }

  // ---- The upsert as a whole

  /** What a caller can tell before the call: a second one would change nothing. A new file needs a
      key other than the config's name; a replacement needs that name outside what it replaces, or in
      the entry; an insertion needs the last brace in column 0, or no brace at all, and no token
      without a block above. */
  predicate Stable(text: string, key: string, sourceType: string, val: string) {
    if !Has(text) then ToLower(key) != NAME
    else if Extent(text, key).Some? then
      var (a, end) := Extent(text, key).value;
      StaysNamed(text, a, end, key, sourceType, val)
    else
      var c, token := LastClose(text), Scan(text, key, 0);
      if c == -1 then token == None
      else (c == 0 || text[c - 1] == '\n') && (token.Some? ==> token.value > c)
  }

  /** A second identical upsert changes nothing exactly when the text was stable. */
  lemma {:induction false} SettlesIffStable(text: string, key: string, sourceType: string, val: string)
    requires Plain(key) && Plain(sourceType) && Plain(val)
    ensures var r := Upsert(text, key, sourceType, val);
            Upsert(r, key, sourceType, val) == r <==> Stable(text, key, sourceType, val)
  {
    if !Has(text) {
      CreatingSettles(text, key, sourceType, val);
    } else if Extent(text, key).Some? {
      ReplacingSettles(text, key, sourceType, val);
    } else if LastClose(text) == -1 {
      AppendingSettles(text, key, sourceType, val);
    } else {
      InsertingSettles(text, key, sourceType, val);
    }
  }

  /** An entry of the key: a token of it that begins its line, white space, and a block whose braces
      balance first at `close`. */
  ghost predicate Owns(text: string, key: string, token: nat, brace: nat, close: nat) {
    && Standalone(text, key, token)
    && token + |key| + 2 <= brace < close < |text| && Blank(text[token + |key| + 2..brace]) && text[brace] == '{'
    && (forall k | brace < k <= close :: Depth(text[brace..k]) > 0) && Depth(text[brace..close + 1]) == 0
  }

  /** From the start of an entry's line up to behind its block, with the line break there. */
  ghost predicate IsEntry(text: string, key: string, a: nat, end: nat) {
    exists token, brace, close ::
      Owns(text, key, token, brace, close) && OnLine(text, a, token) && Behind(text, close, end)
  }

  ghost predicate OnLine(text: string, a: nat, token: nat) {
    a <= token <= |text| && LineAt(text, a) && forall k | a <= k < token :: text[k] != '\n'
  }

  ghost predicate Behind(text: string, close: nat, end: nat) {
    close < end <= close + 2 && (end == close + 2 <==> close + 1 < |text| && text[close + 1] == '\n')
  }

  lemma {:induction false} OnLineIs(text: string, a: nat, token: nat)
    requires token <= |text|
    ensures OnLine(text, a, token) <==> a == LineStart(text, token)
    decreases token
  {
    if token > 0 && text[token - 1] != '\n' {
      OnLineIs(text, a, token - 1);
    }
  }

  /** What a caller can tell before the call: the first token that begins its line has a block, which
      only white space parts from it and which is closed. */
  predicate Tidy(text: string, key: string)
    requires Extent(text, key).Some?
  {
    var token := Scan(text, key, 0).value;
    var brace := NextBrace(text, token);
    && token + |key| + 2 <= brace && Blank(text[token + |key| + 2..brace])
    && Close(text, brace, 0) < |text|
  }

  lemma {:induction false} CloseFrom(text: string, brace: nat)
    requires brace < |text| && text[brace] == '{'
    ensures var c := Close(text, brace, 0);
            && brace < c
            && (forall k | brace < k <= c :: Depth(text[brace..k]) > 0)
            && (c < |text| ==> Depth(text[brace..c + 1]) == 0)
  {
    assert text[brace..brace + 1] == ['{'] && text[brace..brace + 1][..0] == "";
    assert Depth(text[brace..brace + 1]) == 1;
    CloseBalances(text, brace, brace + 1);
  }

  lemma {:induction false} TidyIsEntry(text: string, key: string)
    requires Plain(key) && Extent(text, key).Some? && Tidy(text, key)
    ensures IsEntry(text, key, Extent(text, key).value.0, Extent(text, key).value.1)
  {
    ScanIsFirst(text, key, 0);
    var token := Scan(text, key, 0).value;
    var brace := NextBrace(text, token);
    CloseFrom(text, brace);
    OnLineIs(text, LineStart(text, token), token);
    assert Owns(text, key, token, brace, Close(text, brace, 0));
  }

  lemma {:induction false} LineStartSame(text: string, i: nat, j: nat)
    requires i <= j <= |text| && LineStart(text, i) == LineStart(text, j)
    ensures forall k | i <= k < j :: text[k] != '\n'
    decreases j
  {
    if i < j {
      LineStartMonotone(text, i, j - 1);
      if text[j - 1] != '\n' {
        LineStartSame(text, i, j - 1);
      }
    }
  }

  lemma {:induction false} LineStartMonotone(text: string, i: nat, j: nat)
    requires i <= j <= |text|
    ensures LineStart(text, i) <= LineStart(text, j)
    decreases j
  {
    if i < j {
      LineStartMonotone(text, i, j - 1);
    }
  }

  /** Two tokens on one line do not both begin it. */
  lemma {:induction false} OneTokenALine(text: string, key: string, i: nat, j: nat)
    requires Plain(key) && Standalone(text, key, i) && Standalone(text, key, j) && i <= j
    requires LineStart(text, i) == LineStart(text, j)
    ensures i == j
  {
    LineStartSame(text, i, j);
    OccursCovers(text, key, i, i);
    if i < j {
      QuoteBefore(text, i, j);
    }
  }

  lemma {:induction false} OwnBrace(text: string, key: string, token: nat, brace: nat, close: nat)
    requires Plain(key) && Owns(text, key, token, brace, close)
    ensures NextBrace(text, token) == brace && Close(text, brace, 0) == close
  {
    forall k | token <= k < brace
      ensures text[k] != '{'
    {
      if k < token + |key| + 2 {
        OccursCovers(text, key, token, k);
      } else {
        var gap := text[token + |key| + 2..brace];
        assert gap[k - (token + |key| + 2)] == text[k] && text[k] in gap;
      }
    }
    CloseFrom(text, brace);
  }

  /** The upsert replaces an entry of the key, its own block and nothing else, exactly when only white
      space stands between the token and the next brace, and that brace is closed. */
  lemma {:induction false} ReplacesOwnEntryIff(text: string, key: string)
    requires Plain(key) && Extent(text, key).Some?
    ensures IsEntry(text, key, Extent(text, key).value.0, Extent(text, key).value.1) <==> Tidy(text, key)
  {
    var (a, end) := Extent(text, key).value;
    if Tidy(text, key) {
      TidyIsEntry(text, key);
    } else if IsEntry(text, key, a, end) {
      var token, brace, close :|
        Owns(text, key, token, brace, close) && OnLine(text, a, token) && Behind(text, close, end);
      OnLineIs(text, a, token);
      ScanIsFirst(text, key, 0);
      OneTokenALine(text, key, Scan(text, key, 0).value, token);
      OwnBrace(text, key, token, brace, close);
    }
  }

  lemma {:induction false} NotBlank(s: string, k: nat)
    requires k < |s| && !PySpace(s[k])
    ensures !Blank(s)
  {
    assert s[k] in s;
  }

  /** Whatever stands between the token and the next brace goes with it, another key's token too. */
  lemma {:induction false} UntidySwallows(text: string, key: string, other: string, q: nat)
    requires Plain(key) && Plain(other) && Extent(text, key).Some? && Standalone(text, other, q)
    requires Scan(text, key, 0).value < q < NextBrace(text, Scan(text, key, 0).value)
    ensures var (a, end) := Extent(text, key).value; a < q && q + |other| + 2 <= end && !Tidy(text, key)
  {
    var token := Scan(text, key, 0).value;
    var brace := NextBrace(text, token);
    ScanIsFirst(text, key, 0);
    CloseFrom(text, brace);
    if q + |other| + 2 > brace {
      OccursCovers(text, other, q, brace);
    }
    OccursCovers(text, other, q, q);
    if q < token + |key| + 2 {
      OccursCovers(text, key, token, q);
      OccursCovers(text, key, token, token);
      OneLine(text, key, token, q);
    } else {
      NotBlank(text[token + |key| + 2..brace], q - (token + |key| + 2));
    }
  }

  lemma {:induction false} OneLine(text: string, key: string, token: nat, q: nat)
    requires Plain(key) && Occurs(text, key, token) && token < q < token + |key| + 2
    ensures !BeginsLine(text, q)
  {
    forall k | token <= k < q
      ensures text[k] != '\n'
    {
      OccursCovers(text, key, token, k);
    }
    OccursCovers(text, key, token, token);
    QuoteBefore(text, token, q);
  }

  // ---- A key that is a field's name

  /** Two games, `1` with a field `k`, and `2`. */
  const FIELD := FRESH + "\t\"1\"\n\t{\n\t\t\"k\"\t\t\"v\"\n\t}\n\t\"2\"\n\t{\n\t}\n}\n"

  lemma {:induction false} FieldChars()
    ensures |FIELD| == 57 && FIELD[29] == '\n' && FIELD[30] == '\t' && FIELD[31] == '\t'
    ensures FIELD[32] == '"' && FIELD[33] == 'k' && FIELD[34] == '"'
    ensures FIELD[43] == '\n' && FIELD[44] == '\t' && FIELD[45] == '"' && FIELD[46] == '2' && FIELD[47] == '"'
    ensures FIELD[48] == '\n' && FIELD[49] == '\t' && FIELD[53] == '}' && FIELD[54] == '\n'
  {
  }

  lemma {:induction false} FieldBraces()
    ensures |FIELD| == 57 && FIELD[50] == '{'
    ensures forall k | 32 <= k < 53 && k != 50 :: FIELD[k] != '{'
    ensures forall k | 51 <= k < 53 :: FIELD[k] != '}'
  {
  }

  lemma {:induction false} FieldFresh()
    ensures FIELD[..22] == FRESH
  {
  }

  lemma {:induction false} FieldStart(k: nat)
    requires 22 <= k < 33
    ensures Lower(FIELD[k]) != 'k'
  {
  }

  lemma {:induction false} FieldToken()
    ensures Standalone(FIELD, "k", 32) && LineStart(FIELD, 32) == 30
  {
    FieldChars();
    assert Needle("k") == "\"k\"";
    assert BeginsLine(FIELD, 30) && BeginsLine(FIELD, 31);
    assert LineStart(FIELD, 30) == 30 && LineStart(FIELD, 31) == 30;
  }

  lemma {:induction false} OtherToken()
    ensures Standalone(FIELD, "2", 45) && LineStart(FIELD, 45) == 44
  {
    FieldChars();
    assert Needle("2") == "\"2\"";
    assert BeginsLine(FIELD, 44) && LineStart(FIELD, 44) == 44;
  }

  lemma {:induction false} FieldBlock()
    ensures NextBrace(FIELD, 32) == 50 && Close(FIELD, 50, 0) == 53 && BlockEnd(FIELD, 53) == 55
  {
    FieldChars();
    FieldBraces();
    CloseSkips(FIELD, 51, 53, 1);
  }

  lemma {:induction false} NotInFresh()
    ensures forall j | 0 <= j < 22 :: !Standalone(FIELD, "k", j)
  {
    FieldFresh();
    FieldChars();
    assert |ToLower("k")| != |NAME|;
    FreshTokens(FIELD, "k");
  }

  lemma {:induction false} NoFieldAt(j: nat)
    requires 22 <= j < 32
    ensures !Occurs(FIELD, "k", j)
  {
    FieldStart(j + 1);
    assert Needle("k")[1] == 'k';
  }

  lemma {:induction false} FieldAlone()
    ensures NoneBefore(FIELD, "k", 32)
  {
    NotInFresh();
    forall j | 22 <= j < 32
      ensures !Standalone(FIELD, "k", j)
    {
      NoFieldAt(j);
    }
  }

  lemma {:induction false} FieldFound()
    ensures Scan(FIELD, "k", 0) == Some(32) && Extent(FIELD, "k") == Some((30, 55))
  {
    FieldAlone();
    FieldToken();
    ScanIs(FIELD, "k", 32);
    FieldBlock();
    ExtentOf(FIELD, "k", 32, 50, 55);
  }

  lemma {:induction false} OtherEntry()
    ensures IsEntry(FIELD, "2", 44, 55)
  {
    OtherToken();
    FieldChars();
    FieldBraces();
    FieldBlock();
    CloseFrom(FIELD, 50);
    assert FIELD[48..50] == [FIELD[48], FIELD[49]];
    assert Owns(FIELD, "2", 45, 50, 53);
  }

  lemma {:induction false} FieldHas()
    ensures Has(FIELD)
  {
    FieldFresh();
    ConfigFront("\n{\n");
    HasWhole(FIELD, FRESH, 0);
  }

  /** A key that names a field of one game: the upsert replaces from there to behind the next game's
      entry, so that the end of the first block and the whole of that entry are gone. */
  lemma {:induction false} FieldNameSwallows(sourceType: string, val: string)
    ensures Extent(FIELD, "k") == Some((30, 55)) && !Tidy(FIELD, "k")
    ensures IsEntry(FIELD, "2", 44, 55)
    ensures Spliced(Upsert(FIELD, "k", sourceType, val), FIELD, 30, 55, "k", sourceType, val)
  {
    FieldFound();
    FieldBlock();
    OtherToken();
    OtherEntry();
    UntidySwallows(FIELD, "k", "2", 45);
    FieldHas();
    UpsertReplaces(FIELD, "k", sourceType, val);
  }

  /** The upsert touches one place. A replacement keeps every byte outside what it replaces, and that
      is the key's own entry exactly when the text is tidy; an insertion keeps every byte, but for the
      white space at the end of a text with no closing brace at all. Of a text that does not name the
      config nothing is kept, whatever it holds. */
  lemma {:induction false} UpsertTouchesOnePlace(text: string, key: string, sourceType: string, val: string)
    returns (a: nat, end: nat)
    requires Plain(key)
    ensures var r := Upsert(text, key, sourceType, val);
            if !Has(text) then
              r == Upsert("", key, sourceType, val) && a == 22 && HasBlock(r, a, key, sourceType, val)
            else if Extent(text, key).Some? then
              && Extent(text, key) == Some((a, end)) && Spliced(r, text, a, end, key, sourceType, val)
              && (IsEntry(text, key, a, end) <==> Tidy(text, key))
            else if LastClose(text) >= 0 then
              Spliced(r, text, a, end, key, sourceType, val) && a == end == LastClose(text)
            else
              var p := RStrip(text) + "\n";
              a == end == |p| && Spliced(r, p, a, end, key, sourceType, val)
  {
    if !Has(text) {
      a, end := 22, 22;
      FreshIs(key, sourceType, val);
    } else if Extent(text, key).Some? {
      a, end := Extent(text, key).value.0, Extent(text, key).value.1;
      ReplacesOwnEntryIff(text, key);
      UpsertReplaces(text, key, sourceType, val);
    } else if LastClose(text) >= 0 {
      a, end := LastClose(text), LastClose(text);
      UpsertInserts(text, key, sourceType, val);
    } else {
      a, end := |RStrip(text)| + 1, |RStrip(text)| + 1;
      UpsertAppends(text, key, sourceType, val);
    }
  }

  lemma {:induction false} UpsertWrites(text: string, key: string, sourceType: string, val: string) returns (c: nat)
    requires Plain(key)
    ensures HasBlock(Upsert(text, key, sourceType, val), c, key, sourceType, val)
  {
    var end;
    c, end := UpsertTouchesOnePlace(text, key, sourceType, val);
  }

  /** What an upsert leaves alone has exactly the block as the key's entry. */
  lemma {:induction false} SettledLooksUp(r: string, c: nat, key: string, sourceType: string, val: string)
    requires Plain(key) && Plain(sourceType) && Plain(val) && HasBlock(r, c, key, sourceType, val)
    requires Upsert(r, key, sourceType, val) == r
    ensures Extent(r, key).Some?
    ensures r[Extent(r, key).value.0..Extent(r, key).value.1] == Block(key, sourceType, val)
  {
    if !Has(r) {
      LostConfig(r, key, sourceType, val);
    } else if Extent(r, key) == None {
      BraceInside(r, c, key, sourceType, val);
      UpsertInserts(r, key, sourceType, val);
      Grown(r, r, LastClose(r), key, sourceType, val);
    } else {
      UpsertReplaces(r, key, sourceType, val);
      SplicedItself(r, Extent(r, key).value.0, Extent(r, key).value.1, key, sourceType, val);
    }
  }

  lemma {:induction false} SplicedItself(r: string, a: nat, end: nat, key: string, sourceType: string, val: string)
    requires Spliced(r, r, a, end, key, sourceType, val)
    ensures r[a..end] == Block(key, sourceType, val)
  {
    assert |r[a + |Block(key, sourceType, val)|..]| == |r[end..]|;
  }

  /** Where the text was stable, looking the key up afterwards gives exactly the new block. */
  lemma {:induction false} UpsertLooksUp(text: string, key: string, sourceType: string, val: string)
    requires Plain(key) && Plain(sourceType) && Plain(val) && Stable(text, key, sourceType, val)
    ensures var r := Upsert(text, key, sourceType, val);
            && Extent(r, key).Some?
            && r[Extent(r, key).value.0..Extent(r, key).value.1] == Block(key, sourceType, val)
  {
    SettlesIffStable(text, key, sourceType, val);
    var c := UpsertWrites(text, key, sourceType, val);
    SettledLooksUp(Upsert(text, key, sourceType, val), c, key, sourceType, val);
  }

  // ---- What a reader of the file sees

  /** The quoted words and the braces outside them, as Steam nests an entry. */
  datatype Token = Word(text: string) | Open | Shut

  function Tokens(s: string): seq<Token> {
    if s == "" then []
    else if s[0] == '{' then [Open] + Tokens(s[1..])
    else if s[0] == '}' then [Shut] + Tokens(s[1..])
    else if s[0] == '"' then
      var n := Find(s[1..], '"');
      if n + 1 == |s| then [] else [Word(s[1..n + 1])] + Tokens(s[n + 2..])
    else Tokens(s[1..])
  }

  /** Every quote that is opened is closed. */
  predicate QuotesClosed(s: string) {
    s == ""
    || if s[0] == '"' then
         var n := Find(s[1..], '"');
         n + 1 < |s| && QuotesClosed(s[n + 2..])
       else QuotesClosed(s[1..])
  }

  lemma {:induction false} WordFront(p: string, n: nat, rest: string)
    requires n + 1 < |p| && p[0] == '"' && p[n + 1] == '"' && forall k | 0 <= k < n :: p[1..][k] != '"'
    ensures '"' !in p[1..n + 1] && p + rest == ['"'] + (p[1..n + 1] + (['"'] + (p[n + 2..] + rest)))
  {
    var word := p[1..n + 1];
    assert forall k | 0 <= k < n :: word[k] == p[1..][k];
  }

  lemma {:induction false} TokensJoin(p: string, rest: string)
    requires QuotesClosed(p)
    ensures Tokens(p + rest) == Tokens(p) + Tokens(rest)
    decreases |p|
  {
    if p == "" {
      assert p + rest == rest;
    } else if p[0] == '"' {
      var n := Find(p[1..], '"');
      TokensJoin(p[n + 2..], rest);
      WordFront(p, n, rest);
      WordReads(p[1..n + 1], p[n + 2..] + rest);
    } else {
      assert (p + rest)[1..] == p[1..] + rest;
      TokensJoin(p[1..], rest);
    }
  }

  lemma {:induction false} WordReads(word: string, rest: string)
    requires '"' !in word
    ensures Tokens(['"'] + (word + (['"'] + rest))) == [Word(word)] + Tokens(rest)
  {
    var s := ['"'] + (word + (['"'] + rest));
    FindSkips(word, ['"'] + rest, '"');
    assert s[1..] == word + (['"'] + rest);
    assert s[1..|word| + 1] == word && s[|word| + 2..] == rest;
  }

  ghost predicate Space(s: string) {
    forall i | 0 <= i < |s| :: s[i] !in {'"', '{', '}'}
  }

  lemma {:induction false} SpaceReads(space: string, rest: string)
    requires Space(space)
    ensures Tokens(space + rest) == Tokens(rest)
  {
    if space == "" {
      assert space + rest == rest;
    } else {
      assert (space + rest)[1..] == space[1..] + rest;
      SpaceReads(space[1..], rest);
    }
  }

  function Quoted(word: string): string {
    ['"'] + word + ['"']
  }

  lemma {:induction false} NextWord(space: string, word: string, rest: string)
    requires Space(space) && '"' !in word
    ensures Tokens(space + (Quoted(word) + rest)) == [Word(word)] + Tokens(rest)
  {
    SpaceReads(space, Quoted(word) + rest);
    assert Quoted(word) + rest == ['"'] + (word + (['"'] + rest));
    WordReads(word, rest);
  }

  lemma {:induction false} NextBraceReads(space: string, open: bool, rest: string)
    requires Space(space)
    ensures Tokens(space + ([if open then '{' else '}'] + rest)) == [if open then Open else Shut] + Tokens(rest)
  {
    SpaceReads(space, [if open then '{' else '}'] + rest);
    assert ([if open then '{' else '}'] + rest)[1..] == rest;
  }

  /** A key and, in braces, two words. */
  lemma {:induction false} EntryReads(a: string, key: string, b: string, c: string, kind: string, d: string, val: string,
                                      e: string, rest: string)
    requires Space(a) && Space(b) && Space(c) && Space(d) && Space(e) && '"' !in key && '"' !in kind && '"' !in val
    ensures Tokens(a + (Quoted(key) + (b + (['{'] + (c + (Quoted(kind) + (d + (Quoted(val) + (e + (['}'] + rest))))))))))
         == [Word(key), Open, Word(kind), Word(val), Shut] + Tokens(rest)
  {
    var third := e + (['}'] + rest);
    var second := d + (Quoted(val) + third);
    var first := c + (Quoted(kind) + second);
    NextWord(a, key, b + (['{'] + first));
    NextBraceReads(b, true, first);
    NextWord(c, kind, second);
    NextWord(d, val, third);
    NextBraceReads(e, false, rest);
  }

  /** The block's text in the order it is read. */
  lemma {:induction false} BlockInOrder(key: string, sourceType: string, val: string, rest: string)
    ensures Block(key, sourceType, val) + rest
         == "\t" + (Quoted(key) + ("\n\t" + (['{'] + ("\n\t\t" + (Quoted(sourceType) + ("\t\t" + (Quoted(val)
            + ("\n\t" + (['}'] + ("\n" + rest))))))))))
  {
  }

  /** What is written reads as the key, an opening brace, the type, the value and a closing brace. */
  lemma {:induction false} BlockReads(key: string, sourceType: string, val: string, rest: string)
    requires Plain(key) && Plain(sourceType) && Plain(val)
    ensures Tokens(Block(key, sourceType, val) + rest)
         == [Word(key), Open, Word(sourceType), Word(val), Shut] + Tokens(rest)
  {
    BlockInOrder(key, sourceType, val, rest);
    SpaceReads("\n", rest);
    EntryReads("\t", key, "\n\t", "\n\t\t", sourceType, "\t\t", val, "\n\t", "\n" + rest);
  }

  /** Read as words and braces, the upsert sets one entry: where it replaces and where it inserts, what
      stood before and what stood behind are as they were, and between them is the key with its type
      and its value in braces. A text that does not name the config becomes that entry in braces
      behind the config's name. */
  lemma {:induction false} UpsertSetsEntry(text: string, key: string, sourceType: string, val: string, a: nat, end: nat)
    requires Plain(key) && Plain(sourceType) && Plain(val) && a <= end <= |text| && QuotesClosed(text[..a])
    requires Has(text) ==> Extent(text, key) == Some((a, end))
                           || (Extent(text, key) == None && a == end == LastClose(text))
    ensures Tokens(Upsert(text, key, sourceType, val))
         == if Has(text)
            then Tokens(text[..a]) + ([Word(key), Open, Word(sourceType), Word(val), Shut] + Tokens(text[end..]))
            else [Word("controller_config"), Open, Word(key), Open, Word(sourceType), Word(val), Shut, Shut]
  {
    if Has(text) {
      TokensJoin(text[..a], Block(key, sourceType, val) + text[end..]);
      Associative(text[..a], Block(key, sourceType, val), text[end..]);
      BlockReads(key, sourceType, val, text[end..]);
    } else {
      FreshReads(key, sourceType, val);
    }
  }

  lemma {:induction false} OuterReads(a: string, name: string, b: string, c: string, rest: string)
    requires Space(a) && Space(b) && Space(c) && '"' !in name
    ensures Tokens(a + (Quoted(name) + (b + (['{'] + (c + rest))))) == [Word(name), Open] + Tokens(rest)
  {
    NextWord(a, name, b + (['{'] + (c + rest)));
    NextBraceReads(b, true, c + rest);
    SpaceReads(c, rest);
  }

  lemma {:induction false} ConfigIsQuoted()
    ensures CONFIG == Quoted(NAME) && '"' !in NAME
  {
  }

  lemma {:induction false} FreshInOrder(name: string, block: string)
    ensures name + "\n{\n" + block + "}\n" == "" + (name + ("\n" + (['{'] + ("\n" + (block + "}\n")))))
  {
  }

  lemma {:induction false} LastBraceReads()
    ensures Tokens("}\n") == [Shut]
  {
    assert "}\n"[1..] == "\n" && "\n"[1..] == "";
  }

  lemma {:induction false} FreshReads(key: string, sourceType: string, val: string)
    requires Plain(key) && Plain(sourceType) && Plain(val)
    ensures Tokens(CONFIG + "\n{\n" + Block(key, sourceType, val) + "}\n")
         == [Word("controller_config"), Open, Word(key), Open, Word(sourceType), Word(val), Shut, Shut]
  {
    ConfigIsQuoted();
    BlockReads(key, sourceType, val, "}\n");
    LastBraceReads();
    FreshInOrder(Quoted(NAME), Block(key, sourceType, val));
    OuterReads("", NAME, "\n", "\n", Block(key, sourceType, val) + "}\n");
  }
}
