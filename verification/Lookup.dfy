/** Finding a message by key: a binary search of each part's table, which is shown to be a linear
    search, and to find exactly what the compiled parts hold. */
module Lookup {
  import opened Wrappers
  import opened Text
  import opened Messages
  import opened Packing
  import opened Reader
  import opened Build
  import opened Compilation
  import opened Check

  // ---- Tables are sorted

  ghost predicate Ascending(rows: seq<Row>) {
    forall i, j | 0 <= i < j < |rows| :: Less(rows[i].key, rows[j].key)
  }

  lemma {:induction false} InsertAscending(x: Row, rows: seq<Row>)
    requires Ascending(rows) && forall r | r in rows :: r.key != x.key
    ensures Ascending(InsertRow(x, rows))
  {
    if rows != [] {
      LessTotal(rows[0].key, x.key);
      assert rows[0] in rows;
      if Less(rows[0].key, x.key) {
        InsertAscending(x, rows[1..]);
        var rest := InsertRow(x, rows[1..]);
        forall j | 0 <= j < |rest|
          ensures Less(rows[0].key, rest[j].key)
        {
          InsertRowHas(x, rows[1..], rest[j]);
        }
      } else {
        forall j | 0 <= j < |rows|
          ensures Less(x.key, rows[j].key)
        {
          if j > 0 {
            LessTransitive(x.key, rows[0].key, rows[j].key);
          }
        }
      }
    }
  }

  lemma {:induction false} SortAscending(rows: seq<Row>)
    requires forall i, j | 0 <= i < j < |rows| :: rows[i].key != rows[j].key
    ensures Ascending(SortRows(rows))
  {
    if rows != [] {
      SortAscending(rows[1..]);
      var rest := SortRows(rows[1..]);
      forall r | r in rest
        ensures r.key != rows[0].key
      {
        SortRowsHas(rows[1..], r);
      }
      InsertAscending(rows[0], rest);
    }
  }

  /** The rows of a part are strictly sorted by key: the reader of message files lets no key
      repeat. */
  lemma {:induction false} RowsAscending(cat: Catalog, name: string)
    requires Rows(cat, [name]).Ok? && CatalogWellFormed(cat)
    ensures Ascending(Rows(cat, [name]).value)
  {
    RowsOfOnePart(cat, name);
    FindPartIn(cat.parts, name);
    var part := FindPart(cat.parts, name).value;
    EntryRowsAre(cat, part, part.source.entries);
    SortAscending(EntryRows(cat, part, part.source.entries).value);
  }

  ghost predicate Sorted(messages: seq<MessageRef>) {
    forall i, j | 0 <= i < j < |messages| :: Less(messages[i].key, messages[j].key)
  }

  // ---- Searching

  /** The first message with `key`, looking at every one. */
  function Linear(messages: seq<MessageRef>, key: string): Option<MessageRef> {
    if messages == [] then None
    else if messages[0].key == key then Some(messages[0])
    else Linear(messages[1..], key)
  }

  /** The first table that has `key`, and its message. */
  function LinearAll(tables: seq<Table>, key: string): Option<MessageRef> {
    if tables == [] then None
    else
      var here := Linear(tables[0].messages, key);
      if here.Some? then here else LinearAll(tables[1..], key)
  }

  lemma {:induction false} LinearFinds(messages: seq<MessageRef>, key: string, i: nat)
    requires Sorted(messages) && i < |messages| && messages[i].key == key
    ensures Linear(messages, key) == Some(messages[i])
  {
    if i > 0 {
      LessTotal(messages[0].key, messages[i].key);
      LinearFinds(messages[1..], key, i - 1);
    }
  }

  lemma {:induction false} LinearMisses(messages: seq<MessageRef>, key: string)
    ensures Linear(messages, key) == None <==> forall i | 0 <= i < |messages| :: messages[i].key != key
    ensures Linear(messages, key).Some? ==> Linear(messages, key).value.key == key
  {
    if messages != [] {
      LinearMisses(messages[1..], key);
    }
  }

  /** `binary_search_by` on one table. */
  method BinarySearch(messages: seq<MessageRef>, key: string) returns (r: Option<nat>)
    requires Sorted(messages)
    ensures r.Some? ==> r.value < |messages| && messages[r.value].key == key
    ensures r == None ==> forall i | 0 <= i < |messages| :: messages[i].key != key
  {
    var lo, hi := 0, |messages|;
    while lo < hi
      invariant lo <= hi <= |messages|
      invariant forall i | 0 <= i < lo :: Less(messages[i].key, key)
      invariant forall i | hi <= i < |messages| :: Less(key, messages[i].key)
      decreases hi - lo
    {
      var mid := lo + (hi - lo) / 2;
      LessTotal(messages[mid].key, key);
      if messages[mid].key == key {
        return Some(mid);
      }
      if Less(messages[mid].key, key) {
        forall i | lo <= i <= mid
          ensures Less(messages[i].key, key)
        {
          if i < mid {
            LessTransitive(messages[i].key, messages[mid].key, key);
          }
        }
        lo := mid + 1;
      } else {
        forall i | mid <= i < hi
          ensures Less(key, messages[i].key)
        {
          if mid < i {
            LessTransitive(key, messages[mid].key, messages[i].key);
          }
        }
        hi := mid;
      }
    }
    forall i | 0 <= i < |messages|
      ensures messages[i].key != key
    {
      LessTotal(messages[i].key, key);
    }
    r := None;
  }

  /** `get`: the first part whose table has the key. */
  method Get(tables: seq<Table>, key: string) returns (r: Option<MessageRef>)
    requires forall t | 0 <= t < |tables| :: Sorted(tables[t].messages)
    ensures r == LinearAll(tables, key)
  {
    for t := 0 to |tables|
      invariant LinearAll(tables[t..], key) == LinearAll(tables, key)
    {
      assert tables[t..][0] == tables[t] && tables[t..][1..] == tables[t + 1..];
      var i := BinarySearch(tables[t].messages, key);
      if i.Some? {
        LinearFinds(tables[t].messages, key, i.value);
        return Some(tables[t].messages[i.value]);
      }
      LinearMisses(tables[t].messages, key);
    }
    r := None;
  }

  lemma {:induction false} LinearAllFinds(tables: seq<Table>, key: string)
    ensures LinearAll(tables, key).Some? <==>
              exists t | 0 <= t < |tables| :: Linear(tables[t].messages, key).Some?
    ensures LinearAll(tables, key).Some? ==>
              exists t | 0 <= t < |tables| :: Linear(tables[t].messages, key) == LinearAll(tables, key)
  {
    if tables != [] {
      LinearAllFinds(tables[1..], key);
      if Linear(tables[0].messages, key) == None {
        if t :| 0 <= t < |tables[1..]| && Linear(tables[1..][t].messages, key).Some? {
          assert Linear(tables[t + 1].messages, key).Some?;
        }
        if LinearAll(tables[1..], key).Some? {
          var t :| 0 <= t < |tables[1..]| && Linear(tables[1..][t].messages, key) == LinearAll(tables[1..], key);
          assert Linear(tables[t + 1].messages, key) == LinearAll(tables, key);
        }
      }
    }
  }

  // ---- What the parts hold

  ghost predicate HasMessage(table: Table, key: string) {
    exists j | 0 <= j < |table.messages| :: table.messages[j].key == key
  }

  /** `table` is `part`'s: it has the part's keys and no other, in order. */
  ghost predicate TableFor(part: Part, table: Table) {
    && table.part == part.name && Sorted(table.messages)
    && forall key :: HasKey(part, key) <==> HasMessage(table, key)
  }

  ghost predicate PartNamesDistinct(parts: seq<Part>) {
    forall i, j | 0 <= i < j < |parts| :: parts[i].name != parts[j].name
  }

  /** Which part each table is for. */
  function Origins(cat: Catalog, enabled: set<string>, parts: seq<Part>): seq<nat> {
    if parts == [] then []
    else
      var last := |parts| - 1;
      Origins(cat, enabled, parts[..last]) + if Builds(cat, enabled, parts[last]) then [last] else []
  }

  /** One table for each part at `origins`, in order. */
  ghost predicate Indexes(parts: seq<Part>, tables: seq<Table>, origins: seq<nat>) {
    && |origins| == |tables|
    && (forall t | 0 <= t < |tables| :: origins[t] < |parts| && TableFor(parts[origins[t]], tables[t]))
    && forall t, u | 0 <= t < u < |tables| :: origins[t] < origins[u]
  }

  lemma {:induction false} OriginsAre(cat: Catalog, enabled: set<string>, parts: seq<Part>, i: nat)
    ensures i in Origins(cat, enabled, parts) <==> i < |parts| && Builds(cat, enabled, parts[i])
  {
    if parts != [] {
      OriginsAre(cat, enabled, parts[..|parts| - 1], i);
    }
  }

  lemma {:induction false} FindPartAt(parts: seq<Part>, i: nat)
    requires PartNamesDistinct(parts) && i < |parts|
    ensures FindPart(parts, parts[i].name) == Some(parts[i])
  {
    if i > 0 {
      FindPartAt(parts[1..], i - 1);
    }
  }

  lemma {:induction false} RowsHaveKey(cat: Catalog, part: Part, key: string)
    requires Rows(cat, [part.name]).Ok? && FindPart(cat.parts, part.name) == Some(part)
    ensures HasKey(part, key) <==> exists j | 0 <= j < |Rows(cat, [part.name]).value| :: Rows(cat, [part.name]).value[j].key == key
  {
    RowsOfOnePart(cat, part.name);
    var entries := part.source.entries;
    EntryRowsAre(cat, part, entries);
    var rows := EntryRows(cat, part, entries).value;
    SortedHasKey(rows, key);
    if k :| 0 <= k < |entries| && entries[k].key == key {
      assert rows[k].key == key;
    }
    if j :| 0 <= j < |rows| && rows[j].key == key {
      assert entries[j].key == key;
    }
  }

  lemma {:induction false} SortedHasKey(rows: seq<Row>, key: string)
    ensures (exists j | 0 <= j < |SortRows(rows)| :: SortRows(rows)[j].key == key)
       <==> exists j | 0 <= j < |rows| :: rows[j].key == key
  {
    var sorted := SortRows(rows);
    if j :| 0 <= j < |sorted| && sorted[j].key == key {
      SortRowsHas(rows, sorted[j]);
      var k :| 0 <= k < |rows| && rows[k] == sorted[j];
      assert rows[k].key == key;
    }
    if k :| 0 <= k < |rows| && rows[k].key == key {
      SortRowsHas(rows, rows[k]);
      var j :| 0 <= j < |sorted| && sorted[j] == rows[k];
      assert sorted[j].key == key;
    }
  }

  lemma {:induction false} RefsIndex(part: Part, rows: seq<Row>, start: nat)
    requires Ascending(rows)
    requires forall key :: HasKey(part, key) <==> exists j | 0 <= j < |rows| :: rows[j].key == key
    ensures TableFor(part, Table(part.name, RefsTo(rows, start)))
  {
    var table := Table(part.name, RefsTo(rows, start));
    forall key
      ensures HasMessage(table, key) <==> exists j | 0 <= j < |rows| :: rows[j].key == key
    {
      if j :| 0 <= j < |rows| && rows[j].key == key {
        assert table.messages[j].key == key;
      }
      if j :| 0 <= j < |table.messages| && table.messages[j].key == key {
        assert rows[j].key == key;
      }
    }
  }

  lemma {:induction false} AddedIndexes(cat: Catalog, part: Part, start: nat)
    requires CatalogWellFormed(cat) && FindPart(cat.parts, part.name) == Some(part)
    requires Rows(cat, [part.name]).Ok?
    ensures TableFor(part, Table(part.name, RefsTo(Rows(cat, [part.name]).value, start)))
  {
    var rows := Rows(cat, [part.name]).value;
    RowsAscending(cat, part.name);
    forall key {
      RowsHaveKey(cat, part, key);
    }
    RefsIndex(part, rows, start);
  }

  lemma {:induction false} IndexesGrow(parts: seq<Part>, tables: seq<Table>, origins: seq<nat>, table: Table)
    requires parts != [] && Indexes(parts[..|parts| - 1], tables, origins)
    ensures Indexes(parts, tables, origins)
    ensures TableFor(parts[|parts| - 1], table) ==> Indexes(parts, tables + [table], origins + [|parts| - 1])
  {
    var before := parts[..|parts| - 1];
    assert forall t | 0 <= t < |tables| :: before[origins[t]] == parts[origins[t]];
  }

  /** The build writes one table for each part it builds. */
  lemma {:induction false} BuildIndexes(cat: Catalog, enabled: set<string>, parts: seq<Part>)
    requires CatalogWellFormed(cat) && Problems(cat, enabled, parts) == []
    requires forall part | part in parts :: FindPart(cat.parts, part.name) == Some(part)
    ensures Indexes(parts, Tables(cat, enabled, parts), Origins(cat, enabled, parts))
  {
    if parts != [] {
      var last := |parts| - 1;
      BuildIndexes(cat, enabled, parts[..last]);
      BuildIndexesNext(cat, enabled, parts, Tables(cat, enabled, parts[..last]), Origins(cat, enabled, parts[..last]),
                       |AllRows(cat, enabled, parts[..last])|);
    }
  }

  lemma {:induction false} BuildIndexesNext(cat: Catalog, enabled: set<string>, parts: seq<Part>, tables: seq<Table>,
                                            origins: seq<nat>, start: nat)
    requires CatalogWellFormed(cat) && parts != []
    requires FindPart(cat.parts, parts[|parts| - 1].name) == Some(parts[|parts| - 1])
    requires ProblemsAdded(cat, enabled, parts[|parts| - 1]) == []
    requires Indexes(parts[..|parts| - 1], tables, origins)
    ensures Indexes(parts, tables + TableAdded(cat, enabled, parts[|parts| - 1], start),
                    origins + if Builds(cat, enabled, parts[|parts| - 1]) then [|parts| - 1] else [])
  {
    var part := parts[|parts| - 1];
    if Builds(cat, enabled, part) {
      AddedIndexes(cat, part, start);
      IndexesGrow(parts, tables, origins, Table(part.name, RefsTo(Rows(cat, [part.name]).value, start)));
    } else {
      IndexesGrow(parts, tables, origins, Table("", []));
      assert tables + [] == tables && origins + [] == origins;
    }
  }

  lemma {:induction false} OutputIndexes(cat: Catalog, enabled: set<string>)
    requires CatalogWellFormed(cat) && PartNamesDistinct(cat.parts) && Output(cat, enabled).problems == []
    ensures Indexes(cat.parts, Output(cat, enabled).tables, Origins(cat, enabled, cat.parts))
  {
    forall part | part in cat.parts
      ensures FindPart(cat.parts, part.name) == Some(part)
    {
      var i :| 0 <= i < |cat.parts| && cat.parts[i] == part;
      FindPartAt(cat.parts, i);
    }
    BuildIndexes(cat, enabled, cat.parts);
  }

  /** A key is compiled in: a part that is built has it. */
  ghost predicate CompiledIn(cat: Catalog, enabled: set<string>, key: string) {
    exists i | 0 <= i < |cat.parts| ::
      (cat.parts[i].name in cat.always || cat.parts[i].name in enabled) && HasKey(cat.parts[i], key)
  }

  lemma {:induction false} LinearAllHas(parts: seq<Part>, tables: seq<Table>, origins: seq<nat>, key: string)
    requires Indexes(parts, tables, origins)
    ensures LinearAll(tables, key).Some? <==> exists t | 0 <= t < |tables| :: HasKey(parts[origins[t]], key)
    ensures LinearAll(tables, key).Some? ==> LinearAll(tables, key).value.key == key
  {
    LinearAllFinds(tables, key);
    forall t | 0 <= t < |tables|
      ensures HasKey(parts[origins[t]], key) <==> Linear(tables[t].messages, key).Some?
      ensures Linear(tables[t].messages, key).Some? ==> Linear(tables[t].messages, key).value.key == key
    {
      LinearMisses(tables[t].messages, key);
      assert HasKey(parts[origins[t]], key) <==> HasMessage(tables[t], key);
    }
  }

  /** Fast lookup equals what the parts hold: `get` finds a message exactly when a part that is
      built has the key, and then a message of that key. */
  lemma {:induction false} GetFindsCompiled(cat: Catalog, enabled: set<string>, key: string)
    requires CatalogWellFormed(cat) && PartNamesDistinct(cat.parts) && Output(cat, enabled).problems == []
    ensures LinearAll(Output(cat, enabled).tables, key).Some? <==> CompiledIn(cat, enabled, key)
    ensures LinearAll(Output(cat, enabled).tables, key).Some? ==>
              LinearAll(Output(cat, enabled).tables, key).value.key == key
  {
    var origins := Origins(cat, enabled, cat.parts);
    OutputIndexes(cat, enabled);
    LinearAllHas(cat.parts, Tables(cat, enabled, cat.parts), origins, key);
    if t :| 0 <= t < |origins| && HasKey(cat.parts[origins[t]], key) {
      OriginsAre(cat, enabled, cat.parts, origins[t]);
    }
    if i :| 0 <= i < |cat.parts| && (cat.parts[i].name in cat.always || cat.parts[i].name in enabled)
            && HasKey(cat.parts[i], key) {
      OriginsAre(cat, enabled, cat.parts, i);
      var t :| 0 <= t < |origins| && origins[t] == i;
    }
  }

  // ---- One message per key

  lemma {:induction false} OnePartHasKey(parts: seq<Part>, i: nat, h: nat, key: string)
    requires KeysDistinct(parts) && i < h < |parts| && HasKey(parts[i], key)
    ensures !HasKey(parts[h], key)
  {
    var a :| 0 <= a < |parts[i].source.entries| && parts[i].source.entries[a].key == key;
    forall b | 0 <= b < |parts[h].source.entries|
      ensures parts[h].source.entries[b].key != key
    {
      assert Unrepeated(parts, h) && NoRepeats(parts, h, b);
      assert !RepeatsAt(parts, h, b, i, a);
    }
  }

  /** When the duplicate check is silent a key names one message across all parts. */
  lemma {:induction false} KeyNamesOneMessage(cat: Catalog, tables: seq<Table>, origins: seq<nat>, t: nat, j: nat,
                                              u: nat, k: nat)
    requires Indexes(cat.parts, tables, origins) && KeysDistinct(cat.parts)
    requires t < |tables| && j < |tables[t].messages| && u < |tables| && k < |tables[u].messages|
    requires tables[t].messages[j].key == tables[u].messages[k].key
    ensures t == u && j == k
  {
    var key := tables[t].messages[j].key;
    assert HasMessage(tables[t], key) && HasMessage(tables[u], key);
    assert HasKey(cat.parts[origins[t]], key) && HasKey(cat.parts[origins[u]], key);
    if t < u {
      OnePartHasKey(cat.parts, origins[t], origins[u], key);
    } else if u < t {
      OnePartHasKey(cat.parts, origins[u], origins[t], key);
    }
    LessTotal(key, key);
  }

  // ---- When the build succeeds

  /** What `lang` says for `e`, if anything, compiles against English and packs. */
  ghost predicate MessageBuilds(cat: Catalog, part: Part, e: Entry, lang: string) {
    match MessageIn(cat, part, lang, e.key)
    case None => true
    case Some(msg) => Compile(e.msg, msg).Ok? && Packed(Compile(e.msg, msg).value).Ok?
  }

  ghost predicate MessageCompiles(cat: Catalog, part: Part, e: Entry, lang: string) {
    match MessageIn(cat, part, lang, e.key)
    case None => true
    case Some(msg) => Compile(e.msg, msg).Ok?
  }

  lemma {:induction false} RowLangsOk(cat: Catalog, part: Part, e: Entry, langs: seq<string>)
    ensures RowLangs(cat, part, e, langs).Ok? <==> forall lang | lang in langs :: MessageCompiles(cat, part, e, lang)
  {
    if langs != [] {
      RowLangsOk(cat, part, e, langs[1..]);
      assert langs[0] in langs && forall lang | lang in langs :: lang != langs[0] ==> lang in langs[1..];
      if RowLangs(cat, part, e, langs[1..]).Err? {
        var lang :| lang in langs[1..] && !MessageCompiles(cat, part, e, lang);
        assert lang in langs;
      }
    }
  }

  lemma {:induction false} EntryRowsOk(cat: Catalog, part: Part, entries: seq<Entry>)
    ensures EntryRows(cat, part, entries).Ok?
       <==> forall e, lang | e in entries && lang in cat.shipped :: MessageCompiles(cat, part, e, lang)
  {
    if entries != [] {
      EntryRowsOk(cat, part, entries[1..]);
      RowLangsOk(cat, part, entries[0], cat.shipped);
      assert forall e :: e in entries <==> e == entries[0] || e in entries[1..];
    }
  }

  lemma {:induction false} BothEmpty(a: seq<Problem>, b: seq<Problem>)
    ensures a + b == [] <==> a == [] && b == []
  {
    assert |a + b| == |a| + |b|;
  }

  lemma {:induction false} LangProblemsNone(part: string, row: Row, langs: seq<string>)
    ensures LangProblems(part, row, langs) == []
       <==> forall lang | lang in langs :: FindLang(row.langs, lang).Some? ==> Packed(FindLang(row.langs, lang).value).Ok?
  {
    if langs != [] {
      var last := |langs| - 1;
      LangProblemsNone(part, row, langs[..last]);
      assert langs[last] in langs;
      forall lang | lang in langs && lang != langs[last]
        ensures lang in langs[..last]
      {
      }
      if LangProblems(part, row, langs[..last]) != [] {
        var lang :| lang in langs[..last] && FindLang(row.langs, lang).Some?
                    && !Packed(FindLang(row.langs, lang).value).Ok?;
        assert lang in langs;
      }
    }
  }

  lemma {:induction false} RowProblemsNone(part: string, rows: seq<Row>, langs: seq<string>)
    ensures RowProblems(part, rows, langs) == [] <==> forall row | row in rows :: LangProblems(part, row, langs) == []
  {
    if rows != [] {
      var last := |rows| - 1;
      RowProblemsNone(part, rows[..last], langs);
      BothEmpty(RowProblems(part, rows[..last], langs), LangProblems(part, rows[last], langs));
      assert rows[last] in rows;
      forall row | row in rows && row != rows[last]
        ensures row in rows[..last]
      {
      }
      if RowProblems(part, rows[..last], langs) != [] {
        var row :| row in rows[..last] && LangProblems(part, row, langs) != [];
        assert row in rows;
      }
    }
  }

  /** One row packs exactly when the messages it was compiled from do. */
  lemma {:induction false} RowPacks(cat: Catalog, part: Part, row: Row, e: Entry)
    requires RowIs(cat, part, row, e)
    ensures LangProblems(part.name, row, cat.shipped) == []
       <==> forall lang | lang in cat.shipped :: MessageBuilds(cat, part, e, lang)
  {
    LangProblemsNone(part.name, row, cat.shipped);
    forall lang | lang in cat.shipped
      ensures MessageBuilds(cat, part, e, lang)
         <==> (FindLang(row.langs, lang).Some? ==> Packed(FindLang(row.langs, lang).value).Ok?)
    {
      FindLangOfRow(cat, part, e, cat.shipped, lang);
    }
  }

  lemma {:induction false} RowsPack(cat: Catalog, part: Part, entries: seq<Entry>)
    requires EntryRows(cat, part, entries).Ok?
    ensures RowProblems(part.name, SortRows(EntryRows(cat, part, entries).value), cat.shipped) == []
       <==> forall e, lang | e in entries && lang in cat.shipped :: MessageBuilds(cat, part, e, lang)
  {
    var rows := EntryRows(cat, part, entries).value;
    EntryRowsAre(cat, part, entries);
    RowProblemsNone(part.name, SortRows(rows), cat.shipped);
    forall row
      ensures row in SortRows(rows) <==> row in rows
    {
      SortRowsHas(rows, row);
    }
    forall i | 0 <= i < |rows|
      ensures LangProblems(part.name, rows[i], cat.shipped) == []
         <==> forall lang | lang in cat.shipped :: MessageBuilds(cat, part, entries[i], lang)
    {
      RowPacks(cat, part, rows[i], entries[i]);
    }
    assert forall i | 0 <= i < |rows| :: rows[i] in rows && entries[i] in entries;
  }

  lemma {:induction false} RowsOfFound(cat: Catalog, part: Part)
    requires FindPart(cat.parts, part.name) == Some(part)
    ensures Rows(cat, [part.name]).Ok? <==> !part.tsOnly && EntryRows(cat, part, part.source.entries).Ok?
  {
    assert [part.name][1..] == [];
    ExtendTwice([], [], NamedRows(cat, []));
  }

  lemma {:induction false} PartProblems(cat: Catalog, enabled: set<string>, part: Part)
    requires FindPart(cat.parts, part.name) == Some(part)
    ensures ProblemsAdded(cat, enabled, part) == []
       <==> (part.name in cat.always || part.name in enabled) ==> PartBuilds(cat, part)
  {
    RowsOfFound(cat, part);
    if !part.tsOnly {
      EntryRowsOk(cat, part, part.source.entries);
      CompilesFirst(cat, part);
      if Rows(cat, [part.name]).Ok? {
        RowsOfOnePart(cat, part.name);
        RowsPack(cat, part, part.source.entries);
      }
    }
  }

  /** Nothing in the part is TypeScript's alone, and every message of it in every shipped language
      compiles and packs. */
  ghost predicate PartBuilds(cat: Catalog, part: Part) {
    !part.tsOnly
    && forall e, lang | e in part.source.entries && lang in cat.shipped :: MessageBuilds(cat, part, e, lang)
  }

  lemma {:induction false} CompilesFirst(cat: Catalog, part: Part)
    ensures PartBuilds(cat, part) ==>
              forall e, lang | e in part.source.entries && lang in cat.shipped :: MessageCompiles(cat, part, e, lang)
  {
    if PartBuilds(cat, part) {
      forall e, lang | e in part.source.entries && lang in cat.shipped
        ensures MessageCompiles(cat, part, e, lang)
      {
        assert MessageBuilds(cat, part, e, lang);
      }
    }
  }

  lemma {:induction false} ProblemsNone(cat: Catalog, enabled: set<string>, parts: seq<Part>)
    ensures Problems(cat, enabled, parts) == [] <==> forall part | part in parts :: ProblemsAdded(cat, enabled, part) == []
  {
    if parts != [] {
      var last := |parts| - 1;
      ProblemsNone(cat, enabled, parts[..last]);
      BothEmpty(Problems(cat, enabled, parts[..last]), ProblemsAdded(cat, enabled, parts[last]));
      assert parts[last] in parts;
      forall part | part in parts && part != parts[last]
        ensures part in parts[..last]
      {
      }
      if Problems(cat, enabled, parts[..last]) != [] {
        var part :| part in parts[..last] && ProblemsAdded(cat, enabled, part) != [];
        assert part in parts;
      }
    }
  }

  /** The build has no problem exactly when no part it builds is TypeScript's alone and every message
      of those parts compiles and packs in every shipped language that has it. */
  lemma {:induction false} BuildSucceedsIff(cat: Catalog, enabled: set<string>)
    requires PartNamesDistinct(cat.parts)
    ensures Output(cat, enabled).problems == []
       <==> forall part | part in cat.parts && (part.name in cat.always || part.name in enabled) ::
              !part.tsOnly
              && forall e, lang | e in part.source.entries && lang in cat.shipped :: MessageBuilds(cat, part, e, lang)
  {
    ProblemsNone(cat, enabled, cat.parts);
    forall part | part in cat.parts
      ensures ProblemsAdded(cat, enabled, part) == []
         <==> (part.name in cat.always || part.name in enabled) ==> PartBuilds(cat, part)
    {
      var i :| 0 <= i < |cat.parts| && cat.parts[i] == part;
      FindPartAt(cat.parts, i);
      PartProblems(cat, enabled, part);
    }
  }
}
