/** The static checker, and what its silence is worth at run time. */
module Check {
  import opened Wrappers
  import opened Plural
  import opened Pattern
  import opened Messages
  import opened Packing
  import opened Reader
  import opened Meaning
  import opened Build
  import opened Compilation

  datatype Complaint =
    | WrongCategories(lang: string, key: string, have: seq<Category>)
    | WrongPlaceholders(key: string, names: set<string>, want: set<string>)
    | Orphan(lang: string, key: string)
    | Duplicate(part: string, key: string, first: string)
    | NoRule(lang: string)

  function InsertCategory(c: Category, cs: seq<Category>): seq<Category> {
    if cs == [] || Number(c) <= Number(cs[0]) then [c] + cs else [cs[0]] + InsertCategory(c, cs[1..])
  }

  /** The categories of a plural's variants, in CLDR's order. */
  function SortedCategories(cases: seq<(Category, Pattern)>): seq<Category> {
    if cases == [] then [] else InsertCategory(cases[0].0, SortedCategories(cases[1..]))
  }

  /** The variants' categories when they are not the ones `lang` needs. */
  function CategoriesComplaint(lang: string, msg: Message): Option<seq<Category>> {
    match msg
    case Plain(_) => None
    case Plural(_, cases) =>
      match Categories(lang)
      case None => None
      case Some(need) => if SortedCategories(cases) != need then Some(SortedCategories(cases)) else None
  }

  predicate PlaceholdersAgree(source: Message, tr: Message) {
    Placeholders(source) == Placeholders(tr)
  }

  // ---- The loops

  /** A complaint for each of `langs` without a plural rule, in order, as often as it stands. */
  function NoRules(langs: seq<string>): seq<Complaint> {
    if langs == [] then []
    else
      var last := |langs| - 1;
      NoRules(langs[..last]) + if Categories(langs[last]) == None then [NoRule(langs[last])] else []
  }

  /** Shipped languages without a plural rule. */
  method ShippedRules(shipped: seq<string>) returns (out: seq<Complaint>)
    ensures out == NoRules(shipped)
    ensures out == [] <==> forall lang | lang in shipped :: Categories(lang).Some?
  {
    out := [];
    for i := 0 to |shipped|
      invariant out == NoRules(shipped[..i])
    {
      assert shipped[..i + 1][..i] == shipped[..i];
      if Categories(shipped[i]) == None {
        out := out + [NoRule(shipped[i])];
      }
    }
    assert shipped[..|shipped|] == shipped;
    NoRulesIsEmpty(shipped);
  }

  lemma {:induction false} NoRulesIsEmpty(langs: seq<string>)
    ensures NoRules(langs) == [] <==> forall lang | lang in langs :: Categories(lang).Some?
  {
    forall lang | lang in langs
      ensures NoRule(lang) in NoRules(langs) <==> Categories(lang) == None
    {
      NoRulesAre(langs, NoRule(lang));
    }
    if NoRules(langs) != [] {
      NoRulesAre(langs, NoRules(langs)[0]);
    }
  }

  /** The complaints are of exactly the languages without a rule. */
  lemma {:induction false} NoRulesAre(langs: seq<string>, c: Complaint)
    ensures c in NoRules(langs) <==> c.NoRule? && c.lang in langs && Categories(c.lang) == None
  {
    if langs != [] {
      var last := |langs| - 1;
      NoRulesAre(langs[..last], c);
      assert langs == langs[..last] + [langs[last]];
    }
  }

  /** A key is met for the second time: in an earlier part, or earlier in its own. */
  ghost predicate RepeatsAt(parts: seq<Part>, p: nat, i: nat, q: nat, k: nat)
    requires q <= p < |parts|
    requires i < |parts[p].source.entries| && k < |parts[q].source.entries|
  {
    (q < p || k < i) && parts[q].source.entries[k].key == parts[p].source.entries[i].key
  }

  ghost predicate NoRepeats(parts: seq<Part>, p: nat, i: nat)
    requires p < |parts| && i < |parts[p].source.entries|
  {
    forall q, k | 0 <= q <= p && 0 <= k < |parts[q].source.entries| :: !RepeatsAt(parts, p, i, q, k)
  }

  /** No key stands twice in the source files of `parts`. */
  ghost predicate KeysDistinct(parts: seq<Part>) {
    forall p | 0 <= p < |parts| :: Unrepeated(parts, p)
  }

  /** `seen` holds the keys of the first `p` parts. */
  ghost predicate Saw(seen: map<string, string>, parts: seq<Part>, p: nat)
    requires p <= |parts|
  {
    forall key :: key in seen <==> exists q | 0 <= q < p :: HasKey(parts[q], key)
  }

  ghost predicate Unrepeated(parts: seq<Part>, p: nat)
    requires p < |parts|
  {
    forall i | 0 <= i < |parts[p].source.entries| :: NoRepeats(parts, p, i)
  }

  /** One part's turn of the scan. */
  method DuplicatesIn(parts: seq<Part>, p: nat, before: map<string, string>)
    returns (out: seq<Complaint>, seen: map<string, string>)
    requires p < |parts| && Saw(before, parts, p)
    ensures Saw(seen, parts, p + 1) && (out == [] <==> Unrepeated(parts, p))
  {
    var part := parts[p];
    out, seen := [], before;
    for i := 0 to |part.source.entries|
      invariant forall key :: key in seen <==>
        key in before || exists k | 0 <= k < i :: part.source.entries[k].key == key
      invariant out == [] <==> forall k | 0 <= k < i :: NoRepeats(parts, p, k)
    {
      var key := part.source.entries[i].key;
      SeenIsRepeat(parts, p, i);
      if key in seen {
        out := out + [Duplicate(part.name, key, seen[key])];
      } else {
        seen := seen[key := part.name];
      }
    }
    assert forall key :: key in seen <==> key in before || HasKey(part, key);
  }

  /** Keys in more than one part, found with a map of those seen. */
  method Duplicates(parts: seq<Part>) returns (out: seq<Complaint>)
    ensures out == [] <==> KeysDistinct(parts)
  {
    out := [];
    var seen: map<string, string> := map[];
    for p := 0 to |parts|
      invariant Saw(seen, parts, p)
      invariant out == [] <==> forall q | 0 <= q < p :: Unrepeated(parts, q)
    {
      var more;
      more, seen := DuplicatesIn(parts, p, seen);
      out := out + more;
    }
  }

  ghost predicate HasKey(part: Part, key: string) {
    exists k | 0 <= k < |part.source.entries| :: part.source.entries[k].key == key
  }

  lemma {:induction false} SeenIsRepeat(parts: seq<Part>, p: nat, i: nat)
    requires p < |parts| && i < |parts[p].source.entries|
    ensures var key := parts[p].source.entries[i].key;
            !NoRepeats(parts, p, i) <==>
              (exists q | 0 <= q < p :: HasKey(parts[q], key))
              || exists k | 0 <= k < i :: parts[p].source.entries[k].key == key
  {
    var key := parts[p].source.entries[i].key;
    if q :| 0 <= q < p && HasKey(parts[q], key) {
      var k :| 0 <= k < |parts[q].source.entries| && parts[q].source.entries[k].key == key;
      assert RepeatsAt(parts, p, i, q, k);
    }
    if k :| 0 <= k < i && parts[p].source.entries[k].key == key {
      assert RepeatsAt(parts, p, i, p, k);
    }
  }

  ghost predicate TranslationSilent(source: File, tr: File) {
    forall e | e in tr.entries ::
      && GetEntry(source.entries, e.key).Some?
      && Placeholders(GetEntry(source.entries, e.key).value) == Placeholders(e.msg)
  }

  ghost predicate FileSilent(file: File) {
    forall e | e in file.entries :: CategoriesComplaint(file.lang, e.msg) == None
  }

  ghost predicate PartSilent(part: Part) {
    && (forall tr | tr in part.translations :: TranslationSilent(part.source, tr) && (part.tsOnly || FileSilent(tr)))
    && (part.tsOnly || FileSilent(part.source))
  }

  ghost predicate PartsSilent(parts: seq<Part>) {
    forall part | part in parts :: PartSilent(part)
  }

  /** What it takes for the check to report nothing. */
  ghost predicate Silent(cat: Catalog) {
    && (forall lang | lang in cat.shipped :: Categories(lang).Some?)
    && KeysDistinct(cat.parts)
    && PartsSilent(cat.parts)
  }

  method CheckTranslation(source: File, tr: File) returns (out: seq<Complaint>)
    ensures out == [] <==> TranslationSilent(source, tr)
  {
    out := [];
    for i := 0 to |tr.entries|
      invariant out == [] <==> TranslationSilent(source, tr.(entries := tr.entries[..i]))
    {
      var e := tr.entries[i];
      assert tr.entries[..i + 1] == tr.entries[..i] + [e];
      var src := GetEntry(source.entries, e.key);
      if src == None {
        out := out + [Orphan(tr.lang, e.key)];
      } else if !PlaceholdersAgree(src.value, e.msg) {
        out := out + [WrongPlaceholders(e.key, Placeholders(e.msg), Placeholders(src.value))];
      }
    }
    assert tr.entries[..|tr.entries|] == tr.entries;
  }

  method CheckFile(file: File) returns (out: seq<Complaint>)
    ensures out == [] <==> FileSilent(file)
  {
    out := [];
    for i := 0 to |file.entries|
      invariant out == [] <==> FileSilent(file.(entries := file.entries[..i]))
    {
      var e := file.entries[i];
      assert file.entries[..i + 1] == file.entries[..i] + [e];
      var why := CategoriesComplaint(file.lang, e.msg);
      if why.Some? {
        out := out + [WrongCategories(file.lang, e.key, why.value)];
      }
    }
    assert file.entries[..|file.entries|] == file.entries;
  }

  method CheckPart(part: Part) returns (out: seq<Complaint>)
    ensures out == [] <==> PartSilent(part)
  {
    out := [];
    if !part.tsOnly {
      out := CheckFile(part.source);
    }
    for i := 0 to |part.translations|
      invariant out == [] <==> PartSilent(part.(translations := part.translations[..i]))
    {
      var tr := part.translations[i];
      assert part.translations[..i + 1] == part.translations[..i] + [tr];
      var first := CheckTranslation(part.source, tr);
      out := out + first;
      if !part.tsOnly {
        var second := CheckFile(tr);
        out := out + second;
      }
    }
    assert part.translations[..|part.translations|] == part.translations;
  }

  method CheckParts(parts: seq<Part>) returns (out: seq<Complaint>)
    ensures out == [] <==> PartsSilent(parts)
  {
    out := [];
    for i := 0 to |parts|
      invariant out == [] <==> PartsSilent(parts[..i])
    {
      assert parts[..i + 1] == parts[..i] + [parts[i]];
      var more := CheckPart(parts[i]);
      out := out + more;
    }
    assert parts[..|parts|] == parts;
  }

  /** The rules modelled here, applied to a whole catalogue. */
  method Run(cat: Catalog) returns (out: seq<Complaint>)
    ensures out == [] <==> Silent(cat)
  {
    out := ShippedRules(cat.shipped);
    var repeated := Duplicates(cat.parts);
    var wrong := CheckParts(cat.parts);
    out := out + repeated + wrong;
  }

  // ---- What silence means

  lemma {:induction false} InsertCategoryHas(c: Category, cs: seq<Category>, k: Category)
    ensures k in InsertCategory(c, cs) <==> k == c || k in cs
  {
    if cs != [] {
      InsertCategoryHas(c, cs[1..], k);
      assert k in cs <==> k == cs[0] || k in cs[1..];
    }
  }

  lemma {:induction false} SortedCategoriesHas(cases: seq<(Category, Pattern)>, c: Category)
    ensures c in SortedCategories(cases) <==> CaseFor(cases, c).Some?
  {
    if cases != [] {
      SortedCategoriesHas(cases[1..], c);
      InsertCategoryHas(cases[0].0, SortedCategories(cases[1..]), c);
    }
  }

  ghost predicate CategoriesAscend(cs: seq<Category>) {
    forall i, j | 0 <= i < j < |cs| :: Number(cs[i]) < Number(cs[j])
  }

  lemma {:induction false} InsertAscends(c: Category, cs: seq<Category>)
    requires CategoriesAscend(cs) && c !in cs
    ensures CategoriesAscend(InsertCategory(c, cs))
  {
    if cs != [] && Number(c) > Number(cs[0]) {
      InsertAscends(c, cs[1..]);
      var rest := InsertCategory(c, cs[1..]);
      forall j | 0 <= j < |rest|
        ensures Number(cs[0]) < Number(rest[j])
      {
        InsertCategoryHas(c, cs[1..], rest[j]);
      }
    } else if cs != [] {
      assert c != cs[0];
    }
  }

  lemma {:induction false} SortedAscends(cases: seq<(Category, Pattern)>)
    requires forall i, j | 0 <= i < j < |cases| :: cases[i].0 != cases[j].0
    ensures CategoriesAscend(SortedCategories(cases))
  {
    if cases != [] {
      SortedAscends(cases[1..]);
      SortedCategoriesHas(cases[1..], cases[0].0);
      InsertAscends(cases[0].0, SortedCategories(cases[1..]));
    }
  }

  lemma {:induction false} AscendingIsUnique(a: seq<Category>, b: seq<Category>)
    requires CategoriesAscend(a) && CategoriesAscend(b) && forall c :: c in a <==> c in b
    ensures a == b
  {
    assert (a != [] ==> a[0] in a) && (b != [] ==> b[0] in b);
    if a != [] && b != [] {
      assert a[0] == b[0];
      forall c
        ensures c in a[1..] <==> c in b[1..]
      {
        assert c in a <==> c == a[0] || c in a[1..];
        assert c in b <==> c == b[0] || c in b[1..];
      }
      AscendingIsUnique(a[1..], b[1..]);
    }
  }

  /** The category check accepts a plural exactly when its variants are for the categories its language
      needs: none missing and none more. What it lists otherwise are the variants' own. */
  lemma {:induction false} CategoriesCovered(lang: string, msg: Message)
    requires msg.Plural? && WellFormed(msg) && Categories(lang).Some?
    ensures CategoriesComplaint(lang, msg) == None
       <==> forall c :: c in Categories(lang).value <==> exists i | 0 <= i < |msg.cases| :: msg.cases[i].0 == c
    ensures CategoriesComplaint(lang, msg).Some? ==>
              forall c :: c in CategoriesComplaint(lang, msg).value <==> exists i | 0 <= i < |msg.cases| :: msg.cases[i].0 == c
  {
    var have, need := SortedCategories(msg.cases), Categories(lang).value;
    forall c
      ensures c in have <==> exists i | 0 <= i < |msg.cases| :: msg.cases[i].0 == c
    {
      SortedCategoriesHas(msg.cases, c);
    }
    SortedAscends(msg.cases);
    NeedAscends(lang);
    if forall c :: c in need <==> exists i | 0 <= i < |msg.cases| :: msg.cases[i].0 == c {
      AscendingIsUnique(have, need);
    }
  }

  lemma {:induction false} NeedAscends(lang: string)
    requires Categories(lang).Some?
    ensures CategoriesAscend(Categories(lang).value)
  {
  }

  /** A plural the check is silent about has a variant of its own for every count. */
  lemma {:induction false} OwnVariant(lang: string, msg: Message, n: nat)
    requires msg.Plural? && Categories(lang).Some? && CategoriesComplaint(lang, msg) == None
    ensures CaseFor(msg.cases, CategoryOf(lang, n)).Some?
    ensures Choose(lang, msg, Some(n)) == CaseFor(msg.cases, CategoryOf(lang, n))
  {
    PickedIsDeclared(lang, n);
    SortedCategoriesHas(msg.cases, CategoryOf(lang, n));
  }

  lemma {:induction false} MessageSilent(cat: Catalog, part: Part, lang: string, key: string)
    requires PartSilent(part) && !part.tsOnly && MessageIn(cat, part, lang, key).Some?
    requires part.source.lang == cat.source
    ensures CategoriesComplaint(lang, MessageIn(cat, part, lang, key).value) == None
  {
    var file := if lang == cat.source then part.source else FindFile(part.translations, lang).value;
    if lang != cat.source {
      FindFileIs(part.translations, lang);
    }
    GetEntryIs(file.entries, key);
  }

  lemma {:induction false} FindFileIs(files: seq<File>, lang: string)
    ensures FindFile(files, lang).Some? ==>
              FindFile(files, lang).value in files && FindFile(files, lang).value.lang == lang
  {
    if files != [] {
      FindFileIs(files[1..], lang);
    }
  }

  // ---- What the check loads and what the build loads

  function OnlyIn(files: seq<File>, langs: seq<string>): (r: seq<File>)
    ensures forall f | f in r :: f in files && f.lang in langs
  {
    if files == [] then []
    else (if files[0].lang in langs then [files[0]] else []) + OnlyIn(files[1..], langs)
  }

  function ShippedOnly(part: Part, langs: seq<string>): Part {
    part.(translations := OnlyIn(part.translations, langs))
  }

  function BuiltParts(parts: seq<Part>, langs: seq<string>): seq<Part> {
    if parts == [] then []
    else
      var last := |parts| - 1;
      BuiltParts(parts[..last], langs) + if parts[last].tsOnly then [] else [ShippedOnly(parts[last], langs)]
  }

  /** The check loads every part in every language; the build only what ships of the parts that are
      not TypeScript's alone. */
  function ForBuild(loaded: Catalog): Catalog {
    loaded.(parts := BuiltParts(loaded.parts, loaded.shipped))
  }

  /** Where the `p`th part the build loads stands among those the check loads. */
  function Origin(parts: seq<Part>, langs: seq<string>, p: nat): (q: nat)
    requires p < |BuiltParts(parts, langs)|
    ensures q < |parts| && !parts[q].tsOnly && BuiltParts(parts, langs)[p] == ShippedOnly(parts[q], langs)
  {
    var last := |parts| - 1;
    if p < |BuiltParts(parts[..last], langs)| then Origin(parts[..last], langs, p) else last
  }

  lemma {:induction false} OriginAscends(parts: seq<Part>, langs: seq<string>, a: nat, b: nat)
    requires a < b < |BuiltParts(parts, langs)|
    ensures Origin(parts, langs, a) < Origin(parts, langs, b)
  {
    var last := |parts| - 1;
    if b < |BuiltParts(parts[..last], langs)| {
      OriginAscends(parts[..last], langs, a, b);
    }
  }

  lemma {:induction false} BuiltKeysDistinct(parts: seq<Part>, langs: seq<string>)
    requires KeysDistinct(parts)
    ensures KeysDistinct(BuiltParts(parts, langs))
  {
    var built := BuiltParts(parts, langs);
    forall p, i, q, k | 0 <= p < |built| && 0 <= i < |built[p].source.entries|
                        && 0 <= q <= p && 0 <= k < |built[q].source.entries|
      ensures !RepeatsAt(built, p, i, q, k)
    {
      var p0, q0 := Origin(parts, langs, p), Origin(parts, langs, q);
      if q < p {
        OriginAscends(parts, langs, q, p);
      }
      assert Unrepeated(parts, p0) && NoRepeats(parts, p0, i);
      assert !RepeatsAt(parts, p0, i, q0, k);
    }
  }

  lemma {:induction false} BuiltPartSilent(part: Part, langs: seq<string>)
    requires PartSilent(part) && !part.tsOnly
    ensures PartSilent(ShippedOnly(part, langs))
  {
  }

  /** A check that is silent on all it loads is silent on what the build loads. */
  lemma {:induction false} SilenceCarriesOver(loaded: Catalog)
    requires Silent(loaded)
    ensures Silent(ForBuild(loaded))
  {
    var built := ForBuild(loaded);
    BuiltKeysDistinct(loaded.parts, loaded.shipped);
    forall part | part in built.parts
      ensures PartSilent(part)
    {
      var p :| 0 <= p < |built.parts| && built.parts[p] == part;
      BuiltPartSilent(loaded.parts[Origin(loaded.parts, loaded.shipped, p)], loaded.shipped);
    }
  }

  lemma {:induction false} FindOnlyIn(files: seq<File>, langs: seq<string>, lang: string)
    requires lang in langs
    ensures FindFile(OnlyIn(files, langs), lang) == FindFile(files, lang)
  {
    if files != [] {
      FindOnlyIn(files[1..], langs, lang);
      var rest := OnlyIn(files[1..], langs);
      assert ([files[0]] + rest)[1..] == rest && [] + rest == rest;
    }
  }

  /** In a language that ships, the build has the messages the check saw. */
  lemma {:induction false} BuildSeesSame(loaded: Catalog, part: Part, lang: string, key: string)
    requires lang in loaded.shipped
    ensures MessageIn(ForBuild(loaded), ShippedOnly(part, loaded.shipped), lang, key)
         == MessageIn(loaded, part, lang, key)
  {
    FindOnlyIn(part.translations, loaded.shipped, lang);
  }

  lemma {:induction false} BuiltIsWellFormed(loaded: Catalog)
    requires CatalogWellFormed(loaded)
    ensures CatalogWellFormed(ForBuild(loaded))
  {
    var built := ForBuild(loaded);
    forall part | part in built.parts
      ensures PartWellFormed(part) && part.source.lang == built.source
    {
      var p :| 0 <= p < |built.parts| && built.parts[p] == part;
      var was := loaded.parts[Origin(loaded.parts, loaded.shipped, p)];
      assert was in loaded.parts;
    }
  }

  lemma {:induction false} FoundIsShippedOnly(parts: seq<Part>, langs: seq<string>, name: string)
    returns (part: Part)
    requires FindPart(BuiltParts(parts, langs), name).Some?
    ensures part in parts && !part.tsOnly && FindPart(BuiltParts(parts, langs), name).value == ShippedOnly(part, langs)
  {
    var built := BuiltParts(parts, langs);
    FindPartIs(built, name);
    var p :| 0 <= p < |built| && built[p] == FindPart(built, name).value;
    part := parts[Origin(parts, langs, p)];
  }

  lemma {:induction false} FindPartIs(parts: seq<Part>, name: string)
    ensures FindPart(parts, name).Some? ==> FindPart(parts, name).value in parts
  {
    if parts != [] {
      FindPartIs(parts[1..], name);
    }
  }

  // ---- Checker soundness

  /** When the build of `cat` succeeds and the check is silent on it, a shipped language that has a
      plural message reads that language's own variant for each count's category, never `other` in
      its place nor English; every placeholder index lies inside the argument list. */
  lemma {:induction false} SilenceOnBuilt(cat: Catalog, enabled: set<string>, t: nat, j: nat, lang: nat, n: nat,
                                          arg: nat -> Option<string>)
    returns (part: Part, e: Entry)
    requires CatalogWellFormed(cat) && Output(cat, enabled).problems == [] && Silent(cat)
    requires t < |Output(cat, enabled).tables| && j < |Output(cat, enabled).tables[t].messages|
    requires lang < |cat.shipped|
    ensures FindPart(cat.parts, Output(cat, enabled).tables[t].part) == Some(part) && e in part.source.entries
    ensures var out := Output(cat, enabled);
            var m := out.tables[t].messages[j];
            var tag := cat.shipped[lang];
            var msg := MessageIn(cat, part, tag, m.key);
            && m.key == e.key && ValidFor(m, out.packs)
            && (msg.Some? && msg.value.Plural? ==>
                  var own := CaseFor(msg.value.cases, CategoryOf(tag, n));
                  && own.Some?
                  && IndexPattern(own.value, m.args).Ok?
                  && Within(IndexPattern(own.value, m.args).value, |m.args|)
                  && Render(Variant(m, out.packs, lang, Some(n)), m.args, arg)
                     == Some(Interpret(own.value, ByName(m.args, arg))))
  {
    part, e := ReferenceOf(cat, enabled, t, j);
    var packs, m := Output(cat, enabled).packs, Output(cat, enabled).tables[t].messages[j];
    var tag := cat.shipped[lang];
    var msg := MessageIn(cat, part, tag, e.key);
    if msg.Some? && msg.value.Plural? {
      MessageSilent(cat, part, tag, e.key);
      OwnVariant(tag, msg.value, n);
      MeaningOf(cat, packs, m, part, e, lang, Some(n), arg);
      var own := CaseFor(msg.value.cases, CategoryOf(tag, n)).value;
      IndexPatternWorks(own, m.args);
      IndexWithin(own, m.args);
    }
  }
  /** Checker soundness. When the build succeeds and the check is silent on all it loads, a shipped
      language that has a plural message reads that language's own variant for each count's category,
      never `other` in its place nor English; every placeholder index lies inside the argument list. */
  lemma {:induction false} SilenceIsSound(loaded: Catalog, enabled: set<string>, t: nat, j: nat, lang: nat, n: nat,
                                          arg: nat -> Option<string>)
    returns (part: Part, e: Entry)
    requires CatalogWellFormed(loaded) && Silent(loaded)
    requires var out := Output(ForBuild(loaded), enabled);
             out.problems == [] && t < |out.tables| && j < |out.tables[t].messages|
    requires lang < |loaded.shipped|
    ensures part in loaded.parts && e in part.source.entries
    ensures var out := Output(ForBuild(loaded), enabled);
            var m := out.tables[t].messages[j];
            var tag := loaded.shipped[lang];
            var msg := MessageIn(loaded, part, tag, m.key);
            && m.key == e.key && ValidFor(m, out.packs)
            && (msg.Some? && msg.value.Plural? ==>
                  var own := CaseFor(msg.value.cases, CategoryOf(tag, n));
                  && own.Some?
                  && IndexPattern(own.value, m.args).Ok?
                  && Within(IndexPattern(own.value, m.args).value, |m.args|)
                  && Render(Variant(m, out.packs, lang, Some(n)), m.args, arg)
                     == Some(Interpret(own.value, ByName(m.args, arg))))
  {
    SilenceCarriesOver(loaded);
    BuiltIsWellFormed(loaded);
    var built;
    built, e := SilenceOnBuilt(ForBuild(loaded), enabled, t, j, lang, n, arg);
    var out := Output(ForBuild(loaded), enabled);
    part := FoundIsShippedOnly(loaded.parts, loaded.shipped, out.tables[t].part);
    BuildSeesSame(loaded, part, loaded.shipped[lang], out.tables[t].messages[j].key);
  }
}
