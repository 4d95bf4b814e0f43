/** The build: one packed string and one end offset per message for every shipped language,
    laid out side by side, and the proof that what is laid out means what was written. */
module Build {
  import opened Wrappers
  import opened Text
  import opened Plural
  import opened Pattern
  import opened Messages
  import opened Packing
  import opened Reader
  import opened Meaning

  datatype Entry = Entry(key: string, msg: Message)

  datatype File = File(lang: string, entries: seq<Entry>)

  datatype Part = Part(name: string, tsOnly: bool, source: File, translations: seq<File>)

  datatype Catalog = Catalog(source: string, shipped: seq<string>, always: seq<string>, parts: seq<Part>)

  datatype Row = Row(key: string, en: Message, langs: seq<(string, Compiled)>)

  datatype Problem =
    | NoPart(name: string)
    | TypeScriptOnly(name: string)
    | DoesNotCompile(key: string, why: CompileError)
    | DoesNotPack(part: string, key: string, reason: PackError)

  // ---- Looking things up

  function GetEntry(entries: seq<Entry>, key: string): Option<Message> {
    if entries == [] then None
    else if entries[0].key == key then Some(entries[0].msg)
    else GetEntry(entries[1..], key)
  }

  function FindFile(files: seq<File>, lang: string): Option<File> {
    if files == [] then None
    else if files[0].lang == lang then Some(files[0])
    else FindFile(files[1..], lang)
  }

  function FindPart(parts: seq<Part>, name: string): Option<Part> {
    if parts == [] then None
    else if parts[0].name == name then Some(parts[0])
    else FindPart(parts[1..], name)
  }

  function FindLang(langs: seq<(string, Compiled)>, lang: string): Option<Compiled> {
    if langs == [] then None
    else if langs[0].0 == lang then Some(langs[0].1)
    else FindLang(langs[1..], lang)
  }

  /** The message `lang` has for `key` in `part`, if any. */
  function MessageIn(cat: Catalog, part: Part, lang: string, key: string): Option<Message> {
    var file := if lang == cat.source then Some(part.source) else FindFile(part.translations, lang);
    match file
    case None => None
    case Some(f) => GetEntry(f.entries, key)
  }

  // ---- Rows

  /** `e` compiled in each of `langs` that has it. */
  function RowLangs(cat: Catalog, part: Part, e: Entry, langs: seq<string>)
    : Result<seq<(string, Compiled)>, Problem>
  {
    if langs == [] then Ok([])
    else
      match MessageIn(cat, part, langs[0], e.key)
      case None => RowLangs(cat, part, e, langs[1..])
      case Some(msg) =>
        match Compile(e.msg, msg)
        case Err(why) => Err(DoesNotCompile(e.key, why))
        case Ok(c) => Extend([(langs[0], c)], RowLangs(cat, part, e, langs[1..]))
  }

  function EntryRows(cat: Catalog, part: Part, entries: seq<Entry>): Result<seq<Row>, Problem> {
    if entries == [] then Ok([])
    else
      var langs :- RowLangs(cat, part, entries[0], cat.shipped);
      Extend([Row(entries[0].key, entries[0].msg, langs)], EntryRows(cat, part, entries[1..]))
  }

  function PartRows(cat: Catalog, name: string): Result<seq<Row>, Problem> {
    match FindPart(cat.parts, name)
    case None => Err(NoPart(name))
    case Some(part) => if part.tsOnly then Err(TypeScriptOnly(name)) else EntryRows(cat, part, part.source.entries)
  }

  function NamedRows(cat: Catalog, names: seq<string>): Result<seq<Row>, Problem> {
    if names == [] then Ok([])
    else
      var head :- PartRows(cat, names[0]);
      Extend(head, NamedRows(cat, names[1..]))
  }

  function InsertRow(x: Row, rows: seq<Row>): seq<Row> {
    if rows == [] || !Less(rows[0].key, x.key) then [x] + rows
    else [rows[0]] + InsertRow(x, rows[1..])
  }

  /** The stable sort by key. */
  function SortRows(rows: seq<Row>): seq<Row> {
    if rows == [] then [] else InsertRow(rows[0], SortRows(rows[1..]))
  }

  /** The messages of the parts `names`, sorted by key, each compiled in every shipped language
      that has it. */
  function Rows(cat: Catalog, names: seq<string>): Result<seq<Row>, Problem> {
    var rows :- NamedRows(cat, names);
    Ok(SortRows(rows))
  }

  /** The innermost loop of `rows`, over the shipped languages. */
  method LangsOfRow(cat: Catalog, part: Part, e: Entry) returns (r: Result<seq<(string, Compiled)>, Problem>)
    ensures r == RowLangs(cat, part, e, cat.shipped)
  {
    var langs: seq<(string, Compiled)> := [];
    ExtendTwice([], [], RowLangs(cat, part, e, cat.shipped));
    for i := 0 to |cat.shipped|
      invariant Extend(langs, RowLangs(cat, part, e, cat.shipped[i..])) == RowLangs(cat, part, e, cat.shipped)
    {
      var lang := cat.shipped[i];
      ghost var rest := cat.shipped[i + 1..];
      assert cat.shipped[i..][0] == lang && cat.shipped[i..][1..] == rest;
      var msg := MessageIn(cat, part, lang, e.key);
      if msg == None {
        continue;
      }
      var c := Compile(e.msg, msg.value);
      if c.Err? {
        return Err(DoesNotCompile(e.key, c.error));
      }
      ExtendTwice(langs, [(lang, c.value)], RowLangs(cat, part, e, rest));
      langs := langs + [(lang, c.value)];
    }
    ExtendTwice(langs, [], RowLangs(cat, part, e, []));
    r := Ok(langs);
  }

  /** The loops of `rows` over the parts and their entries, then the sort. */
  method RowsOf(cat: Catalog, names: seq<string>) returns (r: Result<seq<Row>, Problem>)
    ensures r == Rows(cat, names)
  {
    var rows: seq<Row> := [];
    ExtendTwice([], [], NamedRows(cat, names));
    for i := 0 to |names|
      invariant Extend(rows, NamedRows(cat, names[i..])) == NamedRows(cat, names)
    {
      ghost var was, rest := rows, NamedRows(cat, names[i + 1..]);
      assert names[i..][0] == names[i] && names[i..][1..] == names[i + 1..];
      var part := FindPart(cat.parts, names[i]);
      if part == None {
        return Err(NoPart(names[i]));
      }
      if part.value.tsOnly {
        return Err(TypeScriptOnly(names[i]));
      }
      var entries := part.value.source.entries;
      ExtendTwice(was, [], EntryRows(cat, part.value, entries));
      for j := 0 to |entries|
        invariant Extend(rows, EntryRows(cat, part.value, entries[j..]))
               == Extend(was, EntryRows(cat, part.value, entries))
      {
        assert entries[j..][0] == entries[j] && entries[j..][1..] == entries[j + 1..];
        var langs := LangsOfRow(cat, part.value, entries[j]);
        if langs.Err? {
          return Err(langs.error);
        }
        var row := Row(entries[j].key, entries[j].msg, langs.value);
        ExtendTwice(rows, [row], EntryRows(cat, part.value, entries[j + 1..]));
        rows := rows + [row];
      }
      ExtendTwice(rows, [], EntryRows(cat, part.value, []));
      ExtendTwice(was, PartRows(cat, names[i]).value, rest);
    }
    ExtendTwice(rows, [], NamedRows(cat, []));
    r := Ok(SortRows(rows));
  }

  // ---- The layout

  datatype Table = Table(part: string, messages: seq<MessageRef>)

  datatype Generated = Generated(tables: seq<Table>, packs: seq<Pack>, problems: seq<Problem>)

  predicate Builds(cat: Catalog, enabled: set<string>, part: Part) {
    part.name in cat.always || part.name in enabled
  }

  /** The rows `part` adds; none when it is left out or does not compile. */
  function RowsAdded(cat: Catalog, enabled: set<string>, part: Part): seq<Row> {
    var rows := Rows(cat, [part.name]);
    if Builds(cat, enabled, part) && rows.Ok? then rows.value else []
  }

  function AllRows(cat: Catalog, enabled: set<string>, parts: seq<Part>): seq<Row> {
    if parts == [] then []
    else
      var last := |parts| - 1;
      AllRows(cat, enabled, parts[..last]) + RowsAdded(cat, enabled, parts[last])
  }

  function CountOf(msg: Message): Option<nat> {
    match msg
    case Plain(_) => None
    case Plural(count, _) => Position(Args(msg), count)
  }

  function RefTo(row: Row, ix: nat): MessageRef {
    MessageRef(row.key, Args(row.en), CountOf(row.en), ix)
  }

  function RefsTo(rows: seq<Row>, start: nat): seq<MessageRef> {
    seq(|rows|, j requires 0 <= j < |rows| => RefTo(rows[j], start + j))
  }

  /** The table `part` adds, whose first body is the `start`th; none when it adds no rows. */
  function TableAdded(cat: Catalog, enabled: set<string>, part: Part, start: nat): seq<Table> {
    var rows := Rows(cat, [part.name]);
    if Builds(cat, enabled, part) && rows.Ok? then [Table(part.name, RefsTo(rows.value, start))] else []
  }

  function Tables(cat: Catalog, enabled: set<string>, parts: seq<Part>): seq<Table> {
    if parts == [] then []
    else
      var last := |parts| - 1;
      Tables(cat, enabled, parts[..last])
      + TableAdded(cat, enabled, parts[last], |AllRows(cat, enabled, parts[..last])|)
  }

  /** What `row` stores in `lang`: nothing when the language lacks it or it cannot be packed. */
  function BodyText(row: Row, lang: string): string {
    match FindLang(row.langs, lang)
    case None => ""
    case Some(c) => if Packed(c).Ok? then Packed(c).value else ""
  }

  function LangProblems(part: string, row: Row, langs: seq<string>): seq<Problem> {
    if langs == [] then []
    else
      var last := |langs| - 1;
      var c := FindLang(row.langs, langs[last]);
      LangProblems(part, row, langs[..last])
      + if c.Some? && Packed(c.value).Err? then [DoesNotPack(part, row.key, Packed(c.value).error)] else []
  }

  function RowProblems(part: string, rows: seq<Row>, langs: seq<string>): seq<Problem> {
    if rows == [] then []
    else
      var last := |rows| - 1;
      RowProblems(part, rows[..last], langs) + LangProblems(part, rows[last], langs)
  }

  function ProblemsAdded(cat: Catalog, enabled: set<string>, part: Part): seq<Problem> {
    var rows := Rows(cat, [part.name]);
    if !Builds(cat, enabled, part) then []
    else if rows.Err? then [rows.error]
    else RowProblems(part.name, rows.value, cat.shipped)
  }

  function Problems(cat: Catalog, enabled: set<string>, parts: seq<Part>): seq<Problem> {
    if parts == [] then []
    else
      var last := |parts| - 1;
      Problems(cat, enabled, parts[..last]) + ProblemsAdded(cat, enabled, parts[last])
  }

  /** A pack under construction: every body so far, and where each ends. */
  datatype Growing = Growing(text: string, ends: seq<nat>) {
    function Add(body: string): Growing {
      Growing(text + body, ends + [|text| + |body|])
    }
  }

  function Lay(rows: seq<Row>, lang: string): Growing {
    if rows == [] then Growing("", [])
    else
      var last := |rows| - 1;
      Lay(rows[..last], lang).Add(BodyText(rows[last], lang))
  }

  function PackOf(rows: seq<Row>, lang: string): Pack {
    Pack(lang, Lay(rows, lang).text, Lay(rows, lang).ends)
  }

  function Packs(rows: seq<Row>, langs: seq<string>): seq<Pack> {
    seq(|langs|, l requires 0 <= l < |langs| => PackOf(rows, langs[l]))
  }

  /** The build's output, stated whole. */
  function Output(cat: Catalog, enabled: set<string>): Generated {
    Generated(Tables(cat, enabled, cat.parts),
              Packs(AllRows(cat, enabled, cat.parts), cat.shipped),
              Problems(cat, enabled, cat.parts))
  }

  const U32_LIMIT: nat := 0x1_0000_0000

  /** No pack is too long for its offsets. */
  ghost predicate Fits(rows: seq<Row>, langs: seq<string>) {
    forall l | 0 <= l < |langs| :: |Lay(rows, langs[l]).text| < U32_LIMIT
  }

  ghost predicate Holds(packs: seq<Growing>, rows: seq<Row>, langs: seq<string>) {
    |packs| == |langs| && forall l | 0 <= l < |langs| :: packs[l] == Lay(rows, langs[l])
  }

  lemma {:induction false} LayGrows(rows: seq<Row>, more: seq<Row>, lang: string)
    ensures |Lay(rows, lang).text| <= |Lay(rows + more, lang).text|
    decreases |more|
  {
    if more == [] {
      assert rows + more == rows;
    } else {
      var last := |more| - 1;
      LayGrows(rows, more[..last], lang);
      assert (rows + more)[..|rows + more| - 1] == rows + more[..last];
    }
  }

  lemma {:induction false} FitsBefore(rows: seq<Row>, more: seq<Row>, langs: seq<string>)
    requires Fits(rows + more, langs)
    ensures Fits(rows, langs)
  {
    forall l | 0 <= l < |langs| {
      LayGrows(rows, more, langs[l]);
    }
  }

  /** One row's bodies, appended to every language's pack; `None` when an offset overflows. */
  method AddRow(packs: seq<Growing>, row: Row, part: string, langs: seq<string>, ghost rows: seq<Row>)
    returns (r: Option<(seq<Growing>, seq<Problem>)>)
    requires Holds(packs, rows, langs)
    ensures r.Some? <==> Fits(rows + [row], langs)
    ensures r.Some? ==> Holds(r.value.0, rows + [row], langs) && r.value.1 == LangProblems(part, row, langs)
  {
    assert (rows + [row])[..|rows + [row]| - 1] == rows;
    var grown, problems: seq<Problem> := packs, [];
    for l := 0 to |langs|
      invariant |grown| == |packs|
      invariant forall k | 0 <= k < l :: grown[k] == Lay(rows + [row], langs[k]) && |grown[k].text| < U32_LIMIT
      invariant forall k | l <= k < |langs| :: grown[k] == packs[k]
      invariant problems == LangProblems(part, row, langs[..l])
    {
      assert langs[..l + 1][..l] == langs[..l];
      var c := FindLang(row.langs, langs[l]);
      var body := "";
      if c.Some? {
        var packed := PackBody(c.value);
        if packed.Ok? {
          body := packed.value;
        } else {
          problems := problems + [DoesNotPack(part, row.key, packed.error)];
        }
      }
      assert Lay(rows + [row], langs[l]) == grown[l].Add(body);
      grown := grown[l := grown[l].Add(body)];
      if |grown[l].text| >= U32_LIMIT {
        return None;
      }
    }
    assert langs[..|langs|] == langs;
    r := Some((grown, problems));
  }

  lemma {:induction false} LaySize(rows: seq<Row>, lang: string)
    ensures |Lay(rows, lang).ends| == |rows|
  {
    if rows != [] {
      LaySize(rows[..|rows| - 1], lang);
    }
  }

  lemma {:induction false} HeldSize(packs: seq<Growing>, rows: seq<Row>, langs: seq<string>)
    requires Holds(packs, rows, langs) && langs != []
    ensures |packs[0].ends| == |rows|
  {
    LaySize(rows, langs[0]);
  }

  /** The rows laid out after `i` of `rows`. */
  ghost function Laid(before: seq<Row>, rows: seq<Row>, i: nat): (done: seq<Row>)
    requires i <= |rows|
    ensures |done| == |before| + i
    decreases i
  {
    if i == 0 then before else Laid(before, rows, i - 1) + [rows[i - 1]]
  }

  lemma {:induction false} LaidIs(before: seq<Row>, rows: seq<Row>, i: nat)
    requires i <= |rows|
    ensures Laid(before, rows, i) == before + rows[..i]
    ensures i == |rows| ==> Laid(before, rows, i) == before + rows
    decreases i
  {
    if i > 0 {
      LaidIs(before, rows, i - 1);
      assert rows[..i] == rows[..i - 1] + [rows[i - 1]];
    }
  }

  lemma {:induction false} NeverFits(before: seq<Row>, rows: seq<Row>, i: nat, langs: seq<string>)
    requires i < |rows| && !Fits(Laid(before, rows, i + 1), langs)
    ensures !Fits(before + rows, langs)
  {
    LaidIs(before, rows, i + 1);
    assert Laid(before, rows, i + 1) + rows[i + 1..] == before + rows;
    if Fits(before + rows, langs) {
      FitsBefore(Laid(before, rows, i + 1), rows[i + 1..], langs);
    }
  }

  function FirstRefs(rows: seq<Row>, start: nat, n: nat): seq<MessageRef>
    requires n <= |rows|
    decreases n
  {
    if n == 0 then [] else FirstRefs(rows, start, n - 1) + [RefTo(rows[n - 1], start + n - 1)]
  }

  function FirstProblems(part: string, rows: seq<Row>, langs: seq<string>, n: nat): seq<Problem>
    requires n <= |rows|
    decreases n
  {
    if n == 0 then [] else FirstProblems(part, rows, langs, n - 1) + LangProblems(part, rows[n - 1], langs)
  }

  lemma {:induction false} FirstIs(part: string, rows: seq<Row>, langs: seq<string>, start: nat, n: nat)
    requires n <= |rows|
    ensures FirstRefs(rows, start, n) == RefsTo(rows[..n], start)
    ensures FirstProblems(part, rows, langs, n) == RowProblems(part, rows[..n], langs)
    ensures rows[..|rows|] == rows
  {
    FirstRefsAre(rows, start, n);
    FirstProblemsAre(part, rows, langs, n);
  }

  lemma {:induction false} FirstRefsAre(rows: seq<Row>, start: nat, n: nat)
    requires n <= |rows|
    ensures FirstRefs(rows, start, n) == RefsTo(rows[..n], start)
    decreases n
  {
    if n > 0 {
      FirstRefsAre(rows, start, n - 1);
      assert rows[..n][..n - 1] == rows[..n - 1];
    }
  }

  lemma {:induction false} FirstProblemsAre(part: string, rows: seq<Row>, langs: seq<string>, n: nat)
    requires n <= |rows|
    ensures FirstProblems(part, rows, langs, n) == RowProblems(part, rows[..n], langs)
    decreases n
  {
    if n > 0 {
      FirstProblemsAre(part, rows, langs, n - 1);
      assert rows[..n][..n - 1] == rows[..n - 1];
    }
  }

  /** What the first `i` rows of a part have made of the packs, the references and the problems. */
  ghost predicate RowsDone(packs: seq<Growing>, refs: seq<MessageRef>, problems: seq<Problem>, before: seq<Row>,
                           rows: seq<Row>, part: string, langs: seq<string>, i: nat)
    requires i <= |rows|
  {
    && Holds(packs, Laid(before, rows, i), langs) && Fits(Laid(before, rows, i), langs)
    && refs == FirstRefs(rows, |before|, i) && problems == FirstProblems(part, rows, langs, i)
  }

  lemma {:induction false} RowsStep(before: seq<Row>, rows: seq<Row>, part: string, langs: seq<string>, i: nat)
    requires i < |rows|
    ensures Laid(before, rows, i + 1) == Laid(before, rows, i) + [rows[i]]
    ensures FirstRefs(rows, |before|, i + 1) == FirstRefs(rows, |before|, i) + [RefTo(rows[i], |before| + i)]
    ensures FirstProblems(part, rows, langs, i + 1)
         == FirstProblems(part, rows, langs, i) + LangProblems(part, rows[i], langs)
  {
  }

  lemma {:induction false} StepDone(packs: seq<Growing>, refs: seq<MessageRef>, problems: seq<Problem>,
                                    before: seq<Row>, rows: seq<Row>, part: string, langs: seq<string>, i: nat)
    requires i < |rows| && Holds(packs, Laid(before, rows, i + 1), langs) && Fits(Laid(before, rows, i + 1), langs)
    requires refs == FirstRefs(rows, |before|, i) && problems == FirstProblems(part, rows, langs, i)
    ensures RowsDone(packs, refs + [RefTo(rows[i], |before| + i)], problems + LangProblems(part, rows[i], langs),
                     before, rows, part, langs, i + 1)
  {
    RowsStep(before, rows, part, langs, i);
  }

  /** One row of one part. */
  method NextRow(packs: seq<Growing>, refs: seq<MessageRef>, problems: seq<Problem>, ghost before: seq<Row>,
                 rows: seq<Row>, part: string, langs: seq<string>, i: nat)
    returns (r: Option<(seq<Growing>, seq<MessageRef>, seq<Problem>)>)
    requires i < |rows| && langs != [] && RowsDone(packs, refs, problems, before, rows, part, langs, i)
    ensures r.Some? <==> Fits(Laid(before, rows, i + 1), langs)
    ensures r.Some? ==> RowsDone(r.value.0, r.value.1, r.value.2, before, rows, part, langs, i + 1)
  {
    ghost var done := Laid(before, rows, i);
    HeldSize(packs, done, langs);
    var ix := |packs[0].ends|;
    var step := AddRow(packs, rows[i], part, langs, done);
    RowsStep(before, rows, part, langs, i);
    if step == None {
      return None;
    }
    StepDone(step.value.0, refs, problems, before, rows, part, langs, i);
    r := Some((step.value.0, refs + [RefTo(rows[i], ix)], problems + step.value.1));
  }

  /** All rows of one part. */
  method AddRows(packs: seq<Growing>, rows: seq<Row>, part: string, langs: seq<string>, ghost before: seq<Row>)
    returns (r: Option<(seq<Growing>, seq<MessageRef>, seq<Problem>)>)
    requires Holds(packs, before, langs) && Fits(before, langs) && langs != []
    ensures r.Some? <==> Fits(before + rows, langs)
    ensures r.Some? ==>
              && Holds(r.value.0, before + rows, langs)
              && r.value.1 == RefsTo(rows, |before|)
              && r.value.2 == RowProblems(part, rows, langs)
  {
    var grown, refs, problems: seq<Problem> := packs, [], [];
    for i := 0 to |rows|
      invariant RowsDone(grown, refs, problems, before, rows, part, langs, i)
    {
      var step := NextRow(grown, refs, problems, before, rows, part, langs, i);
      if step == None {
        NeverFits(before, rows, i, langs);
        return None;
      }
      grown, refs, problems := step.value.0, step.value.1, step.value.2;
    }
    LaidIs(before, rows, |rows|);
    FirstIs(part, rows, langs, |before|, |rows|);
    r := Some((grown, refs, problems));
  }

  /** One turn of the build's outer loop. */
  method AddPart(packs: seq<Growing>, cat: Catalog, enabled: set<string>, part: Part, ghost before: seq<Row>)
    returns (r: Option<(seq<Growing>, seq<Table>, seq<Problem>)>)
    requires Holds(packs, before, cat.shipped) && Fits(before, cat.shipped) && cat.shipped != []
    ensures r.Some? <==> Fits(before + RowsAdded(cat, enabled, part), cat.shipped)
    ensures r.Some? ==>
              && Holds(r.value.0, before + RowsAdded(cat, enabled, part), cat.shipped)
              && r.value.1 == TableAdded(cat, enabled, part, |before|)
              && r.value.2 == ProblemsAdded(cat, enabled, part)
  {
    assert before + [] == before;
    if part.name !in cat.always && part.name !in enabled {
      return Some((packs, [], []));
    }
    var rows := RowsOf(cat, [part.name]);
    if rows.Err? {
      return Some((packs, [], [rows.error]));
    }
    var step := AddRows(packs, rows.value, part.name, cat.shipped, before);
    if step == None {
      return None;
    }
    r := Some((step.value.0, [Table(part.name, step.value.1)], step.value.2));
  }

  lemma {:induction false} RowsMore(cat: Catalog, enabled: set<string>, n: nat)
    requires n < |cat.parts|
    ensures AllRows(cat, enabled, cat.parts[..n + 1])
         == AllRows(cat, enabled, cat.parts[..n]) + RowsAdded(cat, enabled, cat.parts[n])
  {
    assert cat.parts[..n + 1][..n] == cat.parts[..n];
  }

  lemma {:induction false} TablesMore(cat: Catalog, enabled: set<string>, n: nat)
    requires n < |cat.parts|
    ensures Tables(cat, enabled, cat.parts[..n + 1])
         == Tables(cat, enabled, cat.parts[..n])
            + TableAdded(cat, enabled, cat.parts[n], |AllRows(cat, enabled, cat.parts[..n])|)
  {
    assert cat.parts[..n + 1][..n] == cat.parts[..n];
  }

  lemma {:induction false} ProblemsMore(cat: Catalog, enabled: set<string>, n: nat)
    requires n < |cat.parts|
    ensures Problems(cat, enabled, cat.parts[..n + 1])
         == Problems(cat, enabled, cat.parts[..n]) + ProblemsAdded(cat, enabled, cat.parts[n])
  {
    assert cat.parts[..n + 1][..n] == cat.parts[..n];
  }

  /** What the first `n` parts have made of the packs, the tables and the problems. */
  ghost predicate PartsDone(packs: seq<Growing>, tables: seq<Table>, problems: seq<Problem>, cat: Catalog,
                            enabled: set<string>, n: nat)
    requires n <= |cat.parts|
  {
    var rows := AllRows(cat, enabled, cat.parts[..n]);
    && Holds(packs, rows, cat.shipped) && Fits(rows, cat.shipped)
    && tables == Tables(cat, enabled, cat.parts[..n]) && problems == Problems(cat, enabled, cat.parts[..n])
  }

  method NextPart(packs: seq<Growing>, tables: seq<Table>, problems: seq<Problem>, cat: Catalog, enabled: set<string>,
                  i: nat)
    returns (r: Option<(seq<Growing>, seq<Table>, seq<Problem>)>)
    requires i < |cat.parts| && cat.shipped != [] && PartsDone(packs, tables, problems, cat, enabled, i)
    ensures r.Some? <==> Fits(AllRows(cat, enabled, cat.parts[..i + 1]), cat.shipped)
    ensures r.Some? ==> PartsDone(r.value.0, r.value.1, r.value.2, cat, enabled, i + 1)
  {
    RowsMore(cat, enabled, i);
    TablesMore(cat, enabled, i);
    ProblemsMore(cat, enabled, i);
    var step := AddPart(packs, cat, enabled, cat.parts[i], AllRows(cat, enabled, cat.parts[..i]));
    if step == None {
      return None;
    }
    r := Some((step.value.0, tables + step.value.1, problems + step.value.2));
  }

  /** The packs under their languages' names. */
  function PacksNamed(packs: seq<Growing>, langs: seq<string>): seq<Pack>
    requires |packs| == |langs|
  {
    seq(|packs|, l requires 0 <= l < |packs| => Pack(langs[l], packs[l].text, packs[l].ends))
  }

  lemma {:induction false} NothingDone(cat: Catalog, enabled: set<string>)
    ensures PartsDone(seq(|cat.shipped|, _ => Growing("", [])), [], [], cat, enabled, 0)
  {
    assert cat.parts[..0] == [];
  }

  lemma {:induction false} AllDone(packs: seq<Growing>, tables: seq<Table>, problems: seq<Problem>, cat: Catalog,
                                   enabled: set<string>)
    requires PartsDone(packs, tables, problems, cat, enabled, |cat.parts|)
    ensures Fits(AllRows(cat, enabled, cat.parts), cat.shipped) && |packs| == |cat.shipped|
    ensures Generated(tables, PacksNamed(packs, cat.shipped), problems) == Output(cat, enabled)
  {
    assert cat.parts[..|cat.parts|] == cat.parts;
    PacksHeld(packs, AllRows(cat, enabled, cat.parts), cat.shipped, PacksNamed(packs, cat.shipped));
  }

  /** The whole build; `None` stands for the panic on a pack of 4 GB or more. */
  method Generate(cat: Catalog, enabled: set<string>) returns (r: Option<Generated>)
    requires cat.shipped != []
    ensures var rows := AllRows(cat, enabled, cat.parts);
            r.Some? <==> forall l | 0 <= l < |cat.shipped| :: |Lay(rows, cat.shipped[l]).text| < 0x1_0000_0000
    ensures r.Some? ==> r.value == Output(cat, enabled)
  {
    var packs := seq(|cat.shipped|, _ => Growing("", []));
    var tables: seq<Table>, problems: seq<Problem> := [], [];
    NothingDone(cat, enabled);
    for i := 0 to |cat.parts|
      invariant PartsDone(packs, tables, problems, cat, enabled, i)
    {
      var step := NextPart(packs, tables, problems, cat, enabled, i);
      if step == None {
        AllRowsPrefix(cat, enabled, i + 1);
        return None;
      }
      packs, tables, problems := step.value.0, step.value.1, step.value.2;
    }
    AllDone(packs, tables, problems, cat, enabled);
    r := Some(Generated(tables, PacksNamed(packs, cat.shipped), problems));
  }

  lemma {:induction false} PacksHeld(packs: seq<Growing>, all: seq<Row>, langs: seq<string>, named: seq<Pack>)
    requires Holds(packs, all, langs) && |named| == |packs|
    requires forall l | 0 <= l < |packs| :: named[l] == Pack(langs[l], packs[l].text, packs[l].ends)
    ensures named == Packs(all, langs)
  {
  }

  lemma {:induction false} AllRowsPrefix(cat: Catalog, enabled: set<string>, n: nat)
    requires n <= |cat.parts|
    ensures Fits(AllRows(cat, enabled, cat.parts), cat.shipped) ==>
              Fits(AllRows(cat, enabled, cat.parts[..n]), cat.shipped)
    decreases |cat.parts| - n
  {
    if n == |cat.parts| {
      assert cat.parts[..n] == cat.parts;
    } else {
      AllRowsPrefix(cat, enabled, n + 1);
      assert cat.parts[..n + 1][..n] == cat.parts[..n];
      if Fits(AllRows(cat, enabled, cat.parts[..n + 1]), cat.shipped) {
        FitsBefore(AllRows(cat, enabled, cat.parts[..n]), RowsAdded(cat, enabled, cat.parts[n]), cat.shipped);
      }
    }
  }
}
