/** CLDR cardinal plural rules for integer counts: the ordered guards of `category`, and the
    declarative conditions of CLDR they must compute. */
module Plural {
  import opened Wrappers
  import opened Text

  datatype Category = Zero | One | Two | Few | Many | Other

  /** The number a category is stored under, in CLDR's order. */
  function Number(c: Category): (n: nat)
    ensures n < 6
  {
    match c
    case Zero => 0
    case One => 1
    case Two => 2
    case Few => 3
    case Many => 4
    case Other => 5
  }

  function Name(c: Category): string {
    match c
    case Zero => "zero"
    case One => "one"
    case Two => "two"
    case Few => "few"
    case Many => "many"
    case Other => "other"
  }

  function FromName(name: string): (c: Option<Category>)
    ensures forall k :: c == Some(k) <==> Name(k) == name
  {
    if name == "zero" then Some(Zero)
    else if name == "one" then Some(One)
    else if name == "two" then Some(Two)
    else if name == "few" then Some(Few)
    else if name == "many" then Some(Many)
    else if name == "other" then Some(Other)
    else None
  }

  datatype Rule = OneRule | OneMillion | ZeroOneMillion | Polish | Czech | EastSlavic

  /** A tag up to its first `-` or `_`, and the subtag after it (empty when there is none). */
  function Subtags(lang: string): (string, string) {
    var cut := SubtagEnd(lang);
    if cut == |lang| then (lang, "")
    else
      var rest := lang[cut + 1..];
      (lang[..cut], rest[..SubtagEnd(rest)])
  }

  function SubtagEnd(s: string): (i: nat)
    ensures i <= |s|
  {
    if s == "" || s[0] == '-' || s[0] == '_' then 0 else 1 + SubtagEnd(s[1..])
  }

  function RuleOf(lang: string): Option<Rule> {
    var (first, region) := Subtags(lang);
    var primary := ToLower(first);
    if primary in ["en", "de", "nl", "sv", "da", "nb", "fi", "tr"] then Some(OneRule)
    else if primary == "pt" && EqIgnoreCase(region, "pt") then Some(OneMillion)
    else if primary in ["es", "it"] then Some(OneMillion)
    else if primary in ["fr", "pt"] then Some(ZeroOneMillion)
    else if primary == "pl" then Some(Polish)
    else if primary == "cs" then Some(Czech)
    else if primary in ["ru", "uk"] then Some(EastSlavic)
    else None
  }

  function RuleCategories(rule: Rule): seq<Category> {
    match rule
    case OneRule => [One, Other]
    case OneMillion => [One, Many, Other]
    case ZeroOneMillion => [One, Many, Other]
    case Polish => [One, Few, Many, Other]
    case Czech => [One, Few, Many, Other]
    case EastSlavic => [One, Few, Many, Other]
  }

  /** What a language's rule can pick; `None` without a rule. */
  function Categories(lang: string): Option<seq<Category>> {
    match RuleOf(lang)
    case None => None
    case Some(rule) => Some(RuleCategories(rule))
  }

  function RuleCategory(rule: Rule, n: nat): Category {
    var few := 2 <= n % 10 <= 4 && !(12 <= n % 100 <= 14);
    var million := n != 0 && n % 1_000_000 == 0;
    if rule == OneRule && n == 1 then One
    else if rule == OneMillion && n == 1 then One
    else if rule == ZeroOneMillion && n <= 1 then One
    else if (rule == OneMillion || rule == ZeroOneMillion) && million then Many
    else if rule == Polish && n == 1 then One
    else if rule == Polish && few then Few
    else if rule == Polish then Many
    else if rule == Czech then (if n == 1 then One else if 2 <= n <= 4 then Few else Other)
    else if rule == EastSlavic && n % 10 == 1 && n % 100 != 11 then One
    else if rule == EastSlavic && few then Few
    else if rule == EastSlavic then Many
    else Other
  }

  /** The rule's choice for a count; without a rule every count is `Other`. */
  function CategoryOf(lang: string, n: nat): Category {
    match RuleOf(lang)
    case None => Other
    case Some(rule) => RuleCategory(rule, n)
  }

  /** CLDR's own condition for each category but `other`, at an integer count (`v = 0` and
      `e = 0` hold, `i = n`): section 5 of UTS #35 Part 3 gives the operands. */
  ghost predicate CldrCondition(rule: Rule, c: Category, i: nat) {
    match (rule, c)
    case (OneRule, One) => i == 1
    case (OneMillion, One) => i == 1
    case (OneMillion, Many) => i != 0 && i % 1_000_000 == 0
    case (ZeroOneMillion, One) => i == 0 || i == 1
    case (ZeroOneMillion, Many) => i != 0 && i % 1_000_000 == 0
    case (Polish, One) => i == 1
    case (Polish, Few) => i % 10 in {2, 3, 4} && i % 100 !in {12, 13, 14}
    case (Polish, Many) =>
      || (i != 1 && i % 10 in {0, 1})
      || i % 10 in {5, 6, 7, 8, 9}
      || i % 100 in {12, 13, 14}
    case (Czech, One) => i == 1
    case (Czech, Few) => 2 <= i <= 4
    case (EastSlavic, One) => i % 10 == 1 && i % 100 != 11
    case (EastSlavic, Few) => i % 10 in {2, 3, 4} && i % 100 !in {12, 13, 14}
    case (EastSlavic, Many) =>
      || i % 10 == 0
      || i % 10 in {5, 6, 7, 8, 9}
      || i % 100 in {11, 12, 13, 14}
    case _ => false
  }

  /** `other` is for what no other condition holds of. */
  ghost predicate CldrHolds(rule: Rule, c: Category, i: nat) {
    if c == Other then forall k :: !CldrCondition(rule, k, i) else CldrCondition(rule, c, i)
  }

  lemma {:induction false} ModTen(n: nat)
    ensures n % 10 == n % 100 % 10
  {
    assert n == 100 * (n / 100) + n % 100;
    assert n == 10 * (10 * (n / 100) + n % 100 / 10) + n % 100 % 10;
  }

  lemma {:induction false} RuleIsDeclared(rule: Rule, n: nat)
    ensures RuleCategory(rule, n) in RuleCategories(rule)
  {
  }

  lemma {:induction false} RuleIsCldr(rule: Rule, n: nat)
    ensures forall k :: CldrCondition(rule, k, n) <==> k != Other && RuleCategory(rule, n) == k
  {
    ModTen(n);
    var k := RuleCategory(rule, n);
    assert k != Other ==> CldrCondition(rule, k, n);
  }

  /** What a rule picks for a count is what holds of it by CLDR, and declared. */
  lemma {:induction false} RuleDecides(lang: string, n: nat, c: Category)
    requires RuleOf(lang).Some?
    ensures CategoryOf(lang, n) == c <==> CldrHolds(RuleOf(lang).value, c, n)
    ensures Categories(lang).Some? && CategoryOf(lang, n) in Categories(lang).value
  {
    var rule := RuleOf(lang).value;
    RuleIsCldr(rule, n);
    RuleIsDeclared(rule, n);
    var k := RuleCategory(rule, n);
    assert CldrCondition(rule, k, n) <==> k != Other;
  }

  // ---- Language by language

  ghost predicate OneSubtag(s: string) {
    forall i | 0 <= i < |s| :: s[i] != '-' && s[i] != '_'
  }

  /** `lang` begins with the subtag `first`; `region` is the one behind it, empty without one. */
  ghost predicate Divides(lang: string, first: string, region: string) {
    && OneSubtag(first) && OneSubtag(region)
    && (|| (lang == first && region == "")
        || (&& |first| + 1 + |region| <= |lang| && first == lang[..|first|] && lang[|first|] in {'-', '_'}
            && region == lang[|first| + 1..|first| + 1 + |region|]
            && (|first| + 1 + |region| == |lang| || lang[|first| + 1 + |region|] in {'-', '_'})))
  }

  lemma {:induction false} SubtagEndIs(s: string, i: nat)
    requires i <= |s| && OneSubtag(s[..i]) && (i == |s| || s[i] in {'-', '_'})
    ensures SubtagEnd(s) == i
  {
    if i > 0 {
      assert s[0] == s[..i][0];
      assert s[1..][..i - 1] == s[..i][1..];
      SubtagEndIs(s[1..], i - 1);
    }
  }

  lemma {:induction false} SubtagsAre(lang: string, first: string, region: string)
    requires Divides(lang, first, region)
    ensures Subtags(lang) == (first, region)
  {
    if lang == first {
      assert lang[..|first|] == first;
    }
    SubtagEndIs(lang, |first|);
    if |first| < |lang| {
      var rest := lang[|first| + 1..];
      assert rest[..|region|] == region;
      SubtagEndIs(rest, |region|);
    }
  }

  lemma {:induction false} SubtagEndStops(s: string)
    ensures OneSubtag(s[..SubtagEnd(s)]) && (SubtagEnd(s) == |s| || s[SubtagEnd(s)] in {'-', '_'})
  {
    if s != "" && s[0] != '-' && s[0] != '_' {
      SubtagEndStops(s[1..]);
      assert s[..SubtagEnd(s)] == [s[0]] + s[1..][..SubtagEnd(s[1..])];
    }
  }

  /** Every tag has such subtags. */
  lemma {:induction false} EveryTagDivides(lang: string) returns (first: string, region: string)
    ensures Divides(lang, first, region)
  {
    var cut := SubtagEnd(lang);
    first, region := Subtags(lang).0, Subtags(lang).1;
    SubtagEndStops(lang);
    if cut < |lang| {
      SubtagEndStops(lang[cut + 1..]);
    } else {
      assert lang[..cut] == lang;
    }
  }

  /** CLDR's cardinal condition of a category for a language, given by its primary subtag in lower
      case and whether it is the Portuguese of Portugal, at an integer count. */
  ghost predicate Cldr(primary: string, portugal: bool, c: Category, n: nat) {
    if primary in {"en", "de", "nl", "sv", "da", "nb", "fi", "tr"} then
      match c case One => n == 1 case Other => n != 1 case _ => false
    else if primary in {"es", "it"} || (primary == "pt" && portugal) then
      match c
      case One => n == 1
      case Many => n != 0 && n % 1_000_000 == 0
      case Other => n != 1 && (n == 0 || n % 1_000_000 != 0)
      case _ => false
    else if primary in {"fr", "pt"} then
      match c
      case One => n == 0 || n == 1
      case Many => n != 0 && n % 1_000_000 == 0
      case Other => n > 1 && n % 1_000_000 != 0
      case _ => false
    else if primary == "pl" then
      match c
      case One => n == 1
      case Few => n % 10 in {2, 3, 4} && n % 100 !in {12, 13, 14}
      case Many => (n != 1 && n % 10 in {0, 1}) || n % 10 in {5, 6, 7, 8, 9} || n % 100 in {12, 13, 14}
      case _ => false
    else if primary == "cs" then
      match c case One => n == 1 case Few => n in {2, 3, 4} case Other => n == 0 || n > 4 case _ => false
    else if primary in {"ru", "uk"} then
      match c
      case One => n % 10 == 1 && n % 100 != 11
      case Few => n % 10 in {2, 3, 4} && n % 100 !in {12, 13, 14}
      case Many => n % 10 == 0 || n % 10 in {5, 6, 7, 8, 9} || n % 100 in {11, 12, 13, 14}
      case _ => false
    else c == Other
  }

  lemma {:induction false} OneIs(p: string, portugal: bool, n: nat, c: Category)
    requires p in {"en", "de", "nl", "sv", "da", "nb", "fi", "tr"}
    ensures RuleCategory(OneRule, n) == c <==> Cldr(p, portugal, c, n)
  {
  }

  lemma {:induction false} OneMillionIs(p: string, portugal: bool, n: nat, c: Category)
    requires p in {"es", "it"} || (p == "pt" && portugal)
    ensures RuleCategory(OneMillion, n) == c <==> Cldr(p, portugal, c, n)
  {
  }

  lemma {:induction false} ZeroOneMillionIs(p: string, portugal: bool, n: nat, c: Category)
    requires p == "fr" || (p == "pt" && !portugal)
    ensures RuleCategory(ZeroOneMillion, n) == c <==> Cldr(p, portugal, c, n)
  {
  }

  lemma {:induction false} PolishIs(portugal: bool, n: nat, c: Category)
    ensures RuleCategory(Polish, n) == c <==> Cldr("pl", portugal, c, n)
  {
    ModTen(n);
  }

  lemma {:induction false} CzechIs(portugal: bool, n: nat, c: Category)
    ensures RuleCategory(Czech, n) == c <==> Cldr("cs", portugal, c, n)
  {
  }

  lemma {:induction false} EastSlavicIs(p: string, portugal: bool, n: nat, c: Category)
    requires p in {"ru", "uk"}
    ensures RuleCategory(EastSlavic, n) == c <==> Cldr(p, portugal, c, n)
  {
    ModTen(n);
  }

  lemma {:induction false} NoneIs(p: string, portugal: bool, n: nat, c: Category)
    requires p !in {"en", "de", "nl", "sv", "da", "nb", "fi", "tr", "es", "it", "fr", "pt", "pl", "cs", "ru", "uk"}
    ensures c == Other <==> Cldr(p, portugal, c, n)
  {
  }

  lemma {:induction false} RuleOfIs(lang: string, first: string, region: string)
    requires Divides(lang, first, region)
    ensures var p, portugal := ToLower(first), ToLower(region) == ToLower("pt");
            match RuleOf(lang)
            case Some(OneRule) => p in {"en", "de", "nl", "sv", "da", "nb", "fi", "tr"}
            case Some(OneMillion) => p in {"es", "it"} || (p == "pt" && portugal)
            case Some(ZeroOneMillion) => p == "fr" || (p == "pt" && !portugal)
            case Some(Polish) => p == "pl"
            case Some(Czech) => p == "cs"
            case Some(EastSlavic) => p in {"ru", "uk"}
            case None =>
              p !in {"en", "de", "nl", "sv", "da", "nb", "fi", "tr", "es", "it", "fr", "pt", "pl", "cs", "ru", "uk"}
  {
    SubtagsAre(lang, first, region);
  }

  /** The category picked is the one whose CLDR condition the count meets, in every language: the
      sixteen with a rule, Portugal's Portuguese apart, and any other, which has only `other`. */
  lemma {:induction false} CategoryIsCldr(lang: string, first: string, region: string, n: nat, c: Category)
    requires Divides(lang, first, region)
    ensures CategoryOf(lang, n) == c <==> Cldr(ToLower(first), ToLower(region) == ToLower("pt"), c, n)
  {
    RuleOfIs(lang, first, region);
    var p, portugal := ToLower(first), ToLower(region) == ToLower("pt");
    match RuleOf(lang)
    case None => NoneIs(p, portugal, n, c);
    case Some(OneRule) => OneIs(p, portugal, n, c);
    case Some(OneMillion) => OneMillionIs(p, portugal, n, c);
    case Some(ZeroOneMillion) => ZeroOneMillionIs(p, portugal, n, c);
    case Some(Polish) => PolishIs(portugal, n, c);
    case Some(Czech) => CzechIs(portugal, n, c);
    case Some(EastSlavic) => EastSlavicIs(p, portugal, n, c);
  }

  /** What a plural must cover, language by language; nothing is known of any other. */
  lemma {:induction false} CategoriesAre(lang: string, first: string, region: string)
    requires Divides(lang, first, region)
    ensures var p := ToLower(first);
            Categories(lang) ==
              if p in {"en", "de", "nl", "sv", "da", "nb", "fi", "tr"} then Some([One, Other])
              else if p in {"es", "it", "fr", "pt"} then Some([One, Many, Other])
              else if p in {"pl", "cs", "ru", "uk"} then Some([One, Few, Many, Other])
              else None
  {
    SubtagsAre(lang, first, region);
  }

  /** What a language picks is in the set it must cover. */
  lemma {:induction false} PickedIsDeclared(lang: string, n: nat)
    ensures Categories(lang).Some? ==> CategoryOf(lang, n) in Categories(lang).value
    ensures Categories(lang) == None ==> CategoryOf(lang, n) == Other
  {
    if RuleOf(lang).Some? {
      RuleDecides(lang, n, Other);
    }
  }

  /** Names and numbers, in CLDR's order. */
  lemma {:induction false} CategoriesInOrder()
    ensures forall i | 0 <= i < 6 ::
              var c := [Zero, One, Two, Few, Many, Other][i];
              Number(c) == i && Name(c) == ["zero", "one", "two", "few", "many", "other"][i]
  {
  }
}
