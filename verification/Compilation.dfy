/** Compilation preserves meaning, for the whole build: whatever a catalogue that builds without
    problems writes for a message reads as the message itself, in every language. */
module Compilation {
  import opened Wrappers
  import opened Text
  import opened Plural
  import opened Pattern
  import opened Messages
  import opened Packing
  import opened Digits
  import opened Reader
  import opened Meaning
  import opened Build

  // ---- What the loader hands over

  ghost predicate FileWellFormed(file: File) {
    && (forall e | e in file.entries :: WellFormed(e.msg))
    && forall i, j | 0 <= i < j < |file.entries| :: file.entries[i].key != file.entries[j].key
  }

  ghost predicate PartWellFormed(part: Part) {
    FileWellFormed(part.source) && forall f | f in part.translations :: FileWellFormed(f)
  }

  /** The source language ships first; every file was read by the message reader. */
  ghost predicate CatalogWellFormed(cat: Catalog) {
    && cat.shipped != [] && cat.shipped[0] == cat.source
    && forall part | part in cat.parts :: PartWellFormed(part) && part.source.lang == cat.source
  }

  lemma {:induction false} GetEntryIs(entries: seq<Entry>, key: string)
    ensures GetEntry(entries, key) == None <==> forall e | e in entries :: e.key != key
    ensures GetEntry(entries, key).Some? ==> Entry(key, GetEntry(entries, key).value) in entries
  {
    if entries != [] {
      GetEntryIs(entries[1..], key);
      assert forall e :: e in entries <==> e == entries[0] || e in entries[1..];
    }
  }

  lemma {:induction false} FindFileIn(files: seq<File>, lang: string)
    ensures FindFile(files, lang).Some? ==> FindFile(files, lang).value in files
  {
    if files != [] {
      FindFileIn(files[1..], lang);
    }
  }

  lemma {:induction false} FindPartIn(parts: seq<Part>, name: string)
    ensures FindPart(parts, name).Some? ==>
              FindPart(parts, name).value in parts && FindPart(parts, name).value.name == name
  {
    if parts != [] {
      FindPartIn(parts[1..], name);
    }
  }

  lemma {:induction false} MessageInWellFormed(cat: Catalog, part: Part, lang: string, key: string)
    requires PartWellFormed(part)
    ensures MessageIn(cat, part, lang, key).Some? ==> WellFormed(MessageIn(cat, part, lang, key).value)
  {
    FindFileIn(part.translations, lang);
    var file := if lang == cat.source then Some(part.source) else FindFile(part.translations, lang);
    if file.Some? {
      GetEntryIs(file.value.entries, key);
    }
  }

  lemma {:induction false} FindFileFirst(files: seq<File>, lang: string, file: File)
    ensures FindFile(files, lang) == Some(file)
       <==> exists i | 0 <= i < |files| ::
              files[i] == file && file.lang == lang && forall j | 0 <= j < i :: files[j].lang != lang
  {
    if files != [] {
      FindFileFirst(files[1..], lang, file);
      if files[0].lang == lang {
        if files[0] == file {
          assert files[0] == file;
        }
      } else {
        if i :| 0 <= i < |files[1..]| && files[1..][i] == file && file.lang == lang
                && forall j | 0 <= j < i :: files[1..][j].lang != lang {
          assert files[i + 1] == file;
          forall j | 0 <= j < i + 1
            ensures files[j].lang != lang
          {
            if j > 0 {
              assert files[1..][j - 1] == files[j];
            }
          }
        }
        if i :| 0 <= i < |files| && files[i] == file && file.lang == lang
                && forall j | 0 <= j < i :: files[j].lang != lang {
          assert files[1..][i - 1] == file;
          assert forall j | 0 <= j < i - 1 :: files[1..][j] == files[j + 1];
        }
      }
    }
  }

  lemma {:induction false} GetEntryIn(file: File, key: string, msg: Message)
    requires FileWellFormed(file)
    ensures GetEntry(file.entries, key) == Some(msg) <==> Entry(key, msg) in file.entries
  {
    GetEntryIs(file.entries, key);
    if Entry(key, msg) in file.entries {
      var got := Entry(key, GetEntry(file.entries, key).value);
      var i :| 0 <= i < |file.entries| && file.entries[i] == got;
      var j :| 0 <= j < |file.entries| && file.entries[j] == Entry(key, msg);
    }
  }

  /** A language says what stands under the key in its own file: the source's for the source
      language, the first translation into any other. */
  lemma {:induction false} MessageInIs(cat: Catalog, part: Part, lang: string, key: string, msg: Message)
    requires PartWellFormed(part)
    ensures MessageIn(cat, part, lang, key) == Some(msg)
       <==> if lang == cat.source then Entry(key, msg) in part.source.entries
            else exists i | 0 <= i < |part.translations| ::
                   && part.translations[i].lang == lang
                   && (forall j | 0 <= j < i :: part.translations[j].lang != lang)
                   && Entry(key, msg) in part.translations[i].entries
  {
    if lang == cat.source {
      GetEntryIn(part.source, key, msg);
    } else {
      TranslationIs(part.translations, lang, key, msg);
    }
  }

  lemma {:induction false} TranslationIs(files: seq<File>, lang: string, key: string, msg: Message)
    requires forall f | f in files :: FileWellFormed(f)
    ensures (match FindFile(files, lang) case None => false case Some(f) => GetEntry(f.entries, key) == Some(msg))
       <==> exists i | 0 <= i < |files| ::
              && files[i].lang == lang && (forall j | 0 <= j < i :: files[j].lang != lang)
              && Entry(key, msg) in files[i].entries
  {
    var found := FindFile(files, lang);
    if found.Some? {
      FindFileIn(files, lang);
      FindFileFirst(files, lang, found.value);
      GetEntryIn(found.value, key, msg);
    }
    if i :| 0 <= i < |files| && files[i].lang == lang && (forall j | 0 <= j < i :: files[j].lang != lang)
            && Entry(key, msg) in files[i].entries {
      FindFileFirst(files, lang, files[i]);
    }
  }

  /** English reads its own entry: a key appears once in a file. */
  lemma {:induction false} EnglishIsEntry(cat: Catalog, part: Part, e: Entry)
    requires FileWellFormed(part.source) && e in part.source.entries
    ensures MessageIn(cat, part, cat.source, e.key) == Some(e.msg)
  {
    GetEntryIs(part.source.entries, e.key);
  }

  // ---- Rows

  /** `row` is `e` compiled in every shipped language of the part that has it. */
  ghost predicate RowIs(cat: Catalog, part: Part, row: Row, e: Entry) {
    && row.key == e.key && row.en == e.msg
    && RowLangs(cat, part, e, cat.shipped) == Ok(row.langs)
  }

  lemma {:induction false} InsertRowHas(x: Row, rows: seq<Row>, r: Row)
    ensures r in InsertRow(x, rows) <==> r == x || r in rows
  {
    if rows != [] {
      InsertRowHas(x, rows[1..], r);
      assert r in rows <==> r == rows[0] || r in rows[1..];
    }
  }

  lemma {:induction false} SortRowsHas(rows: seq<Row>, r: Row)
    ensures r in SortRows(rows) <==> r in rows
  {
    if rows != [] {
      SortRowsHas(rows[1..], r);
      InsertRowHas(rows[0], SortRows(rows[1..]), r);
      assert r in rows <==> r == rows[0] || r in rows[1..];
    }
  }

  lemma {:induction false} EntryRowsAre(cat: Catalog, part: Part, entries: seq<Entry>)
    requires EntryRows(cat, part, entries).Ok?
    ensures |EntryRows(cat, part, entries).value| == |entries|
    ensures forall i | 0 <= i < |entries| :: RowIs(cat, part, EntryRows(cat, part, entries).value[i], entries[i])
  {
    if entries != [] {
      EntryRowsAre(cat, part, entries[1..]);
    }
  }

  lemma {:induction false} RowsOfOnePart(cat: Catalog, name: string)
    requires Rows(cat, [name]).Ok?
    ensures FindPart(cat.parts, name).Some? && !FindPart(cat.parts, name).value.tsOnly
    ensures EntryRows(cat, FindPart(cat.parts, name).value, FindPart(cat.parts, name).value.source.entries).Ok?
    ensures Rows(cat, [name]).value
         == SortRows(EntryRows(cat, FindPart(cat.parts, name).value,
                               FindPart(cat.parts, name).value.source.entries).value)
  {
    assert [name][1..] == [];
    ExtendTwice(PartRows(cat, name).value, [], NamedRows(cat, []));
  }

  /** Every row of a part is one of its source entries. */
  lemma {:induction false} RowsAreEntries(cat: Catalog, name: string, row: Row) returns (part: Part, e: Entry)
    requires Rows(cat, [name]).Ok? && row in Rows(cat, [name]).value
    ensures FindPart(cat.parts, name) == Some(part) && !part.tsOnly
    ensures e in part.source.entries && RowIs(cat, part, row, e)
  {
    RowsOfOnePart(cat, name);
    part := FindPart(cat.parts, name).value;
    var rows := EntryRows(cat, part, part.source.entries).value;
    SortRowsHas(rows, row);
    EntryRowsAre(cat, part, part.source.entries);
    var i :| 0 <= i < |rows| && rows[i] == row;
    e := part.source.entries[i];
  }

  lemma {:induction false} FindLangOfRow(cat: Catalog, part: Part, e: Entry, langs: seq<string>, lang: string)
    requires RowLangs(cat, part, e, langs).Ok? && lang in langs
    ensures match MessageIn(cat, part, lang, e.key)
            case None => FindLang(RowLangs(cat, part, e, langs).value, lang) == None
            case Some(msg) =>
              && Compile(e.msg, msg).Ok?
              && FindLang(RowLangs(cat, part, e, langs).value, lang) == Some(Compile(e.msg, msg).value)
  {
    if lang in langs[1..] {
      FindLangOfRow(cat, part, e, langs[1..], lang);
    } else {
      assert langs[0] == lang;
      NoLang(cat, part, e, langs[1..], lang);
    }
    var msg := MessageIn(cat, part, langs[0], e.key);
    if msg.Some? {
      var rest := RowLangs(cat, part, e, langs[1..]).value;
      var all := RowLangs(cat, part, e, langs).value;
      assert all[1..] == rest;
    }
  }

  lemma {:induction false} NoLang(cat: Catalog, part: Part, e: Entry, langs: seq<string>, lang: string)
    requires lang !in langs
    ensures RowLangs(cat, part, e, langs).Ok? ==> FindLang(RowLangs(cat, part, e, langs).value, lang) == None
  {
    if langs != [] {
      NoLang(cat, part, e, langs[1..], lang);
      if RowLangs(cat, part, e, langs).Ok? && MessageIn(cat, part, langs[0], e.key).Some? {
        var all := RowLangs(cat, part, e, langs).value;
        assert all[1..] == RowLangs(cat, part, e, langs[1..]).value;
      }
    }
  }

  // ---- Silence

  lemma {:induction false} NoLangProblem(part: string, row: Row, langs: seq<string>, lang: string)
    requires LangProblems(part, row, langs) == [] && lang in langs
    ensures FindLang(row.langs, lang).Some? ==> Packed(FindLang(row.langs, lang).value).Ok?
  {
    var last := |langs| - 1;
    if langs[last] != lang {
      assert lang in langs[..last];
      NoLangProblem(part, row, langs[..last], lang);
    }
  }

  lemma {:induction false} NoRowProblem(part: string, rows: seq<Row>, langs: seq<string>, j: nat)
    requires RowProblems(part, rows, langs) == [] && j < |rows|
    ensures LangProblems(part, rows[j], langs) == []
  {
    var last := |rows| - 1;
    if j != last {
      NoRowProblem(part, rows[..last], langs, j);
    }
  }

  /** Without problems, what a row stores in a language is that language's packed message. */
  lemma {:induction false} RowStores(cat: Catalog, part: Part, row: Row, e: Entry, lang: string)
    requires RowIs(cat, part, row, e) && lang in cat.shipped
    requires FindLang(row.langs, lang).Some? ==> Packed(FindLang(row.langs, lang).value).Ok?
    ensures Stores(BodyText(row, lang), row.en, MessageIn(cat, part, lang, row.key))
  {
    FindLangOfRow(cat, part, e, cat.shipped, lang);
  }

  // ---- The layout

  /** Each body sits between its own offsets, however many rows stand before and after it. */
  lemma {:induction false} LayHolds(rows: seq<Row>, lang: string)
    ensures PackOf(rows, lang).Valid() && |PackOf(rows, lang).ends| == |rows|
    ensures forall i | 0 <= i < |rows| :: PackOf(rows, lang).Body(i) == BodyText(rows[i], lang)
    ensures PackOf(rows, lang).Start(|rows|) == |PackOf(rows, lang).text|
  {
    if rows != [] {
      var last := |rows| - 1;
      LayHolds(rows[..last], lang);
      var before, now := PackOf(rows[..last], lang), PackOf(rows, lang);
      assert now == Added(before, BodyText(rows[last], lang));
      forall i | 0 <= i < |rows|
        ensures now.Body(i) == BodyText(rows[i], lang)
      {
        AddedKeeps(before, BodyText(rows[last], lang), i);
      }
    }
  }

  ghost function Added(pack: Pack, body: string): Pack {
    Pack(pack.lang, pack.text + body, pack.ends + [|pack.text| + |body|])
  }

  lemma {:induction false} AddedKeeps(pack: Pack, body: string, i: nat)
    requires pack.Valid() && i <= |pack.ends|
    requires pack.Start(|pack.ends|) == |pack.text|
    ensures Added(pack, body).Valid()
    ensures Added(pack, body).Body(i) == if i < |pack.ends| then pack.Body(i) else body
  {
    var text := pack.text + body;
    assert text[|pack.text|..] == body;
    if i < |pack.ends| {
      assert text[pack.Start(i)..pack.ends[i]] == pack.Body(i);
    }
  }

  /** `table` is the `i`th part's: its rows stand together in the whole layout, from `start`. */
  ghost predicate Stands(cat: Catalog, enabled: set<string>, parts: seq<Part>, table: Table, i: nat, start: nat) {
    && i < |parts| && Builds(cat, enabled, parts[i]) && Rows(cat, [parts[i].name]).Ok?
    && (Problems(cat, enabled, parts) == [] ==> ProblemsAdded(cat, enabled, parts[i]) == [])
    && var rows, all := Rows(cat, [parts[i].name]).value, AllRows(cat, enabled, parts);
    && table == Table(parts[i].name, RefsTo(rows, start))
    && start + |rows| <= |all|
    && forall k | 0 <= k < |rows| :: all[start + k] == rows[k]
  }

  lemma {:induction false} StandsOn(cat: Catalog, enabled: set<string>, parts: seq<Part>, table: Table, i: nat,
                                    start: nat)
    requires parts != [] && Stands(cat, enabled, parts[..|parts| - 1], table, i, start)
    ensures Stands(cat, enabled, parts, table, i, start)
  {
  }

  lemma {:induction false} StandsLast(cat: Catalog, enabled: set<string>, parts: seq<Part>, table: Table)
    requires parts != []
    requires TableAdded(cat, enabled, parts[|parts| - 1], |AllRows(cat, enabled, parts[..|parts| - 1])|) == [table]
    ensures Stands(cat, enabled, parts, table, |parts| - 1, |AllRows(cat, enabled, parts[..|parts| - 1])|)
  {
  }

  lemma {:induction false} TablesStand(cat: Catalog, enabled: set<string>, parts: seq<Part>, t: nat)
    returns (i: nat, start: nat)
    requires t < |Tables(cat, enabled, parts)|
    ensures Stands(cat, enabled, parts, Tables(cat, enabled, parts)[t], i, start)
  {
    var last := |parts| - 1;
    var table := Tables(cat, enabled, parts)[t];
    if t < |Tables(cat, enabled, parts[..last])| {
      i, start := TablesStand(cat, enabled, parts[..last], t);
      StandsOn(cat, enabled, parts, table, i, start);
    } else {
      i, start := last, |AllRows(cat, enabled, parts[..last])|;
      StandsLast(cat, enabled, parts, table);
    }
  }

  lemma {:induction false} RowOf(rows: seq<Row>, all: seq<Row>, table: Table, start: nat, j: nat, langs: seq<string>)
    requires table.messages == RefsTo(rows, start) && RowProblems(table.part, rows, langs) == []
    requires start + |rows| <= |all| && forall k | 0 <= k < |rows| :: all[start + k] == rows[k]
    requires j < |table.messages|
    ensures j < |rows| && start + j < |all|
    ensures LangProblems(table.part, rows[j], langs) == []
    ensures table.messages[j] == RefTo(rows[j], start + j) && all[start + j] == rows[j]
  {
    NoRowProblem(table.part, rows, langs, j);
  }

  /** The row behind a table's message `j` stands at the message's index. */
  lemma {:induction false} RowAt(cat: Catalog, enabled: set<string>, table: Table, i: nat, start: nat, j: nat)
    requires Stands(cat, enabled, cat.parts, table, i, start) && Problems(cat, enabled, cat.parts) == []
    requires j < |table.messages|
    ensures j < |Rows(cat, [table.part]).value|
    ensures var row := Rows(cat, [table.part]).value[j];
            && LangProblems(table.part, row, cat.shipped) == []
            && table.messages[j] == RefTo(row, start + j)
            && start + j < |AllRows(cat, enabled, cat.parts)|
            && AllRows(cat, enabled, cat.parts)[start + j] == row
  {
    RowOf(Rows(cat, [table.part]).value, AllRows(cat, enabled, cat.parts), table, start, j, cat.shipped);
  }

  /** `m` stands for `e`: its arguments are English's, and each language's pack holds, at the
      message's index, what that language says. */
  ghost predicate StandsFor(cat: Catalog, packs: seq<Pack>, m: MessageRef, part: Part, e: Entry) {
    && m.key == e.key && RefersTo(m, e.msg)
    && |packs| == |cat.shipped| && ValidFor(m, packs)
    && forall l | 0 <= l < |cat.shipped| ::
         && packs[l].lang == cat.shipped[l]
         && Stores(packs[l].Body(m.ix), e.msg, MessageIn(cat, part, cat.shipped[l], e.key))
  }

  /** The part and the source entry that message `j` of table `t` stands for. */
  lemma {:induction false} ReferenceOf(cat: Catalog, enabled: set<string>, t: nat, j: nat)
    returns (part: Part, e: Entry)
    requires Output(cat, enabled).problems == []
    requires t < |Output(cat, enabled).tables| && j < |Output(cat, enabled).tables[t].messages|
    ensures FindPart(cat.parts, Output(cat, enabled).tables[t].part) == Some(part)
    ensures part in cat.parts && !part.tsOnly && e in part.source.entries
    ensures StandsFor(cat, Output(cat, enabled).packs, Output(cat, enabled).tables[t].messages[j], part, e)
  {
    var table := Tables(cat, enabled, cat.parts)[t];
    var i, start := TablesStand(cat, enabled, cat.parts, t);
    part, e := TableReference(cat, enabled, table, i, start, j);
  }

  lemma {:induction false} TableReference(cat: Catalog, enabled: set<string>, table: Table, i: nat, start: nat, j: nat)
    returns (part: Part, e: Entry)
    requires Stands(cat, enabled, cat.parts, table, i, start) && Problems(cat, enabled, cat.parts) == []
    requires j < |table.messages|
    ensures FindPart(cat.parts, table.part) == Some(part)
    ensures part in cat.parts && !part.tsOnly && e in part.source.entries
    ensures StandsFor(cat, Packs(AllRows(cat, enabled, cat.parts), cat.shipped), table.messages[j], part, e)
  {
    RowAt(cat, enabled, table, i, start, j);
    part, e := RowsAreEntries(cat, table.part, Rows(cat, [table.part]).value[j]);
    FindPartIn(cat.parts, table.part);
    RefStands(cat, AllRows(cat, enabled, cat.parts), table.part, start + j, part, e);
  }

  lemma {:induction false} RefStands(cat: Catalog, all: seq<Row>, name: string, ix: nat, part: Part, e: Entry)
    requires ix < |all| && RowIs(cat, part, all[ix], e)
    requires LangProblems(name, all[ix], cat.shipped) == []
    ensures StandsFor(cat, Packs(all, cat.shipped), RefTo(all[ix], ix), part, e)
  {
    forall l | 0 <= l < |cat.shipped|
      ensures PackOf(all, cat.shipped[l]).Valid() && ix < |PackOf(all, cat.shipped[l]).ends|
      ensures Stores(PackOf(all, cat.shipped[l]).Body(ix), e.msg, MessageIn(cat, part, cat.shipped[l], e.key))
    {
      RowRead(cat, part, e, all, ix, name, cat.shipped[l]);
    }
  }

  lemma {:induction false} RowRead(cat: Catalog, part: Part, e: Entry, all: seq<Row>, ix: nat, name: string,
                                   lang: string)
    requires ix < |all| && RowIs(cat, part, all[ix], e) && lang in cat.shipped
    requires LangProblems(name, all[ix], cat.shipped) == []
    ensures PackOf(all, lang).Valid() && ix < |PackOf(all, lang).ends|
    ensures Stores(PackOf(all, lang).Body(ix), e.msg, MessageIn(cat, part, lang, e.key))
  {
    NoLangProblem(name, all[ix], cat.shipped, lang);
    RowStores(cat, part, all[ix], e, lang);
    LayHolds(all, lang);
  }

  /** The text of `key` in `lang`, read from the source files alone. */
  function SourcePattern(cat: Catalog, part: Part, key: string, lang: string, count: Option<nat>): Pattern {
    Chosen(lang, MessageIn(cat, part, lang, key), cat.source, MessageIn(cat, part, cat.source, key), count)
  }

  lemma {:induction false} MeaningOf(cat: Catalog, packs: seq<Pack>, m: MessageRef, part: Part, e: Entry,
                                     lang: nat, count: Option<nat>, arg: nat -> Option<string>)
    requires CatalogWellFormed(cat) && part in cat.parts && StandsFor(cat, packs, m, part, e)
    requires lang < |cat.shipped|
    ensures Render(Variant(m, packs, lang, count), m.args, arg)
         == Some(Interpret(SourcePattern(cat, part, e.key, cat.shipped[lang], count), ByName(m.args, arg)))
    ensures forall n | n in NameSet(SourcePattern(cat, part, e.key, cat.shipped[lang], count)) :: n in m.args
  {
    var own, source := MessageIn(cat, part, cat.shipped[lang], e.key), MessageIn(cat, part, cat.source, e.key);
    MessageInWellFormed(cat, part, cat.shipped[lang], e.key);
    MessageInWellFormed(cat, part, cat.source, e.key);
    VariantMeans(m, packs, lang, count, arg, e.msg, own, source);
    ReadPackChooses(packs[lang], m.ix, e.msg, own, count);
    ReadPackChooses(packs[0], m.ix, e.msg, source, count);
    var p := SourcePattern(cat, part, e.key, cat.shipped[lang], count);
    IndexPatternWorks(p, m.args);
  }

  /** Compilation preserves meaning. In a build without problems, any message of any table, read
      back in any shipped language for any count and arguments, is the text its source files
      mean: the language's own message, else English; the variant of the count's category under
      that file's own plural rule, else `other`; each placeholder filled by name. Nothing
      panics, and every language's pack agrees on the message's index and offsets. */
  lemma {:induction false} CompilationPreservesMeaning(cat: Catalog, enabled: set<string>, t: nat, j: nat,
                                                       lang: nat, count: Option<nat>,
                                                       arg: nat -> Option<string>)
    returns (part: Part, e: Entry)
    requires CatalogWellFormed(cat) && Output(cat, enabled).problems == []
    requires t < |Output(cat, enabled).tables| && j < |Output(cat, enabled).tables[t].messages|
    requires lang < |cat.shipped|
    ensures FindPart(cat.parts, Output(cat, enabled).tables[t].part) == Some(part)
    ensures e in part.source.entries
    ensures var out := Output(cat, enabled);
            var m := out.tables[t].messages[j];
            && m.key == e.key && m.args == Args(e.msg) && ValidFor(m, out.packs)
            && Render(Variant(m, out.packs, lang, count), m.args, arg)
               == Some(Interpret(SourcePattern(cat, part, m.key, cat.shipped[lang], count),
                                 ByName(Args(e.msg), arg)))
  {
    part, e := ReferenceOf(cat, enabled, t, j);
    var out := Output(cat, enabled);
    MeaningOf(cat, out.packs, out.tables[t].messages[j], part, e, lang, count, arg);
  }

  // ---- The functions callers use

  lemma {:induction false} InterpretAgrees(p: Pattern, a: Values, b: Values)
    requires forall n | n in NameSet(p) :: a(n) == b(n)
    ensures Interpret(p, a) == Interpret(p, b)
  {
    if p != [] {
      InterpretFirst(p, a);
      InterpretFirst(p, b);
      InterpretAgrees(p[1..], a, b);
    }
  }

  /** Values for a lookup by key: an argument by its name, the count under its own name. */
  function Filled(countName: Option<string>, count: Option<nat>, args: seq<(string, string)>): Values {
    (n: string) =>
      var named := Named(args, n);
      if named.Some? then named
      else if count.Some? && countName == Some(n) then Some(Decimal(count.value))
      else None
  }

  function CountName(msg: Message): Option<string> {
    match msg
    case Plain(_) => None
    case Plural(count, _) => Some(count)
  }

  lemma {:induction false} FilledAgrees(m: MessageRef, e: Message, count: Option<nat>, args: seq<(string, string)>,
                                        n: string)
    requires RefersTo(m, e) && n in m.args
    ensures ByName(m.args, FillAt(m, count, args))(n) == Filled(CountName(e), count, args)(n)
  {
    var i := Position(m.args, n).value;
    assert m.args[i] == n;
    if e.Plural? {
      assert m.count == Position(m.args, e.count);
      assert m.count == Some(i) <==> e.count == n;
    }
  }

  /** A message found by key and filled by name reads the source text with each placeholder's
      named value, the count filling its own placeholder unless it is named. */
  lemma {:induction false} FillMeans(cat: Catalog, packs: seq<Pack>, m: MessageRef, part: Part, e: Entry,
                                     lang: nat, count: Option<nat>, args: seq<(string, string)>)
    requires CatalogWellFormed(cat) && part in cat.parts && StandsFor(cat, packs, m, part, e)
    requires lang < |cat.shipped|
    ensures Fill(m, packs, lang, count, args)
         == Some(Interpret(SourcePattern(cat, part, e.key, cat.shipped[lang], count),
                           Filled(CountName(e.msg), count, args)))
  {
    var p := SourcePattern(cat, part, e.key, cat.shipped[lang], count);
    MeaningOf(cat, packs, m, part, e, lang, count, FillAt(m, count, args));
    forall n | n in NameSet(p)
      ensures ByName(m.args, FillAt(m, count, args))(n) == Filled(CountName(e.msg), count, args)(n)
    {
      FilledAgrees(m, e.msg, count, args, n);
    }
    InterpretAgrees(p, ByName(m.args, FillAt(m, count, args)), Filled(CountName(e.msg), count, args));
  }

  /** A message filled by name with nothing, which is what a lookup by key alone gives, reads as its
      source text is displayed, each placeholder as `{name}`. */
  lemma {:induction false} FillNothing(cat: Catalog, packs: seq<Pack>, m: MessageRef, part: Part, e: Entry, lang: nat)
    requires CatalogWellFormed(cat) && part in cat.parts && StandsFor(cat, packs, m, part, e)
    requires lang < |cat.shipped|
    ensures Fill(m, packs, lang, None, [])
         == Some(Display(SourcePattern(cat, part, e.key, cat.shipped[lang], None)))
  {
    FillMeans(cat, packs, m, part, e, lang, None, []);
    NothingSubstituted(SourcePattern(cat, part, e.key, cat.shipped[lang], None),
                       Filled(CountName(e.msg), None, []));
  }

  lemma {:induction false} InterpretPlain(p: Pattern, values: Values)
    requires NameSet(p) == {}
    ensures Interpret(p, values) == Display(p)
    ensures p != [] && Normal(p) ==> Display(p) != ""
  {
    NothingSubstituted(p, values);
    DisplayNonempty(p);
  }

  lemma {:induction false} DisplayNonempty(p: Pattern)
    ensures p != [] && Normal(p) ==> Display(p) != ""
  {
  }

  lemma {:induction false} IndexPlain(p: Pattern, args: seq<string>)
    requires IndexPattern(p, args).Ok? && NameSet(p) == {}
    ensures forall i | 0 <= i < |IndexPattern(p, args).value| :: IndexPattern(p, args).value[i].IxText?
  {
    if p != [] {
      IndexPlain(p[1..], args);
    }
  }

  /** A generated function without arguments never returns the empty string: the text it guards
      against, one with a placeholder, cannot be there once the build succeeds. */
  lemma {:induction false} TextIsNeverEmpty(cat: Catalog, packs: seq<Pack>, m: MessageRef, part: Part, e: Entry,
                                            lang: nat)
    requires CatalogWellFormed(cat) && part in cat.parts && StandsFor(cat, packs, m, part, e)
    requires lang < |cat.shipped| && e in part.source.entries && m.args == [] && e.msg.Plain?
    ensures TextOf(m, packs, lang) == Display(SourcePattern(cat, part, e.key, cat.shipped[lang], None)) != ""
  {
    var none := ArgAt([]);
    var p := SourcePattern(cat, part, e.key, cat.shipped[lang], None);
    var own := MessageIn(cat, part, cat.shipped[lang], e.key);
    MeaningOf(cat, packs, m, part, e, lang, None, none);
    EnglishIsEntry(cat, part, e);
    MessageInWellFormed(cat, part, cat.shipped[lang], e.key);
    MessageInWellFormed(cat, part, cat.source, e.key);
    assert NameSet(p) == {};
    InterpretPlain(p, ByName(m.args, none));
    PlainVariant(m, packs, lang, e.msg, own, p);
  }

  /** What is read for a message without placeholders holds no argument mark. */
  lemma {:induction false} PlainVariant(m: MessageRef, packs: seq<Pack>, lang: nat, en: Message, own: Option<Message>,
                                        p: Pattern)
    requires ValidFor(m, packs) && lang < |packs| && WellFormed(en) && (own.Some? ==> WellFormed(own.value))
    requires Stores(packs[lang].Body(m.ix), en, own) && Stores(packs[0].Body(m.ix), en, Some(en))
    requires p == Chosen(packs[lang].lang, own, packs[0].lang, Some(en), None) && NameSet(p) == {}
    ensures ARG !in Variant(m, packs, lang, None)
  {
    ReadPackChooses(packs[lang], m.ix, en, own, None);
    ReadPackChooses(packs[0], m.ix, en, Some(en), None);
    if p != [] {
      IndexPlain(p, Args(en));
      PackIxFacts(IndexPattern(p, Args(en)).value);
      var body := Variant(m, packs, lang, None);
      assert Find(body, ARG) == |body|;
    }
  }
}
