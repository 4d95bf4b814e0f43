# Punktfunk verification

A Dafny model of the parts of Punktfunk whose behaviour is hard to see from one function, with proofs
of what they promise together:

- **The message compiler and its reader** (`l10n/`). Message files are JSON objects of texts with
  `{name}` placeholders and plural variants. The build resolves placeholders to argument indices, packs
  every body of every language back to back with an end offset per message, and writes the same compiled
  messages as Android resources and Apple string catalogues. `Pattern`, `Messages`, `Packing`, `Build`
  and `Reader` model the steps; `Meaning` gives a message its direct meaning (a pattern and values give a
  text); `Compilation` proves that whatever a catalogue that builds without problems writes for a message
  reads as that meaning, in every shipped language, for every count and all arguments. `MessageFile` and
  `CatalogSource` go from file text to catalogue and show that what compilation asks of a catalogue every
  catalogue that was read has. `Check` shows what the static checker's silence implies, `Android`, `Apple`
  and `BackEnds` that the three targets read the same text, `Lookup`, `Language` and `Plural` what the
  run-time choices pick. `Json` and `JsonPrinter` are the parser, with its cursor, and the printer;
  `JsonGrammar` has the grammar as syntax trees.
- **The sync engine** (`plugin-kit/src/sync-engine.ts`): `SyncEngine` is a transition system over every
  interleaving of callers, passes, their finalisers' steps, detached re-fires and interruptions, beside a
  class with the engine's own fields; `DrainLoop` is the watch loop's queue of one with its hold.
- **The download reporter** (`plugin-kit/src/downloads.ts`): `Downloads` is a class over the closure's
  variables, its methods proved against a transition system whose runs the properties are about.
- **Four scripts**: `Usbip` (the USB/IP frame walk), `ConfigSet` (the upsert into a Steam configset),
  `SharedReport` (the two-session report) and `CargoGraph` (the dependency closure).

Strings are sequences of UTF-8 code units, each held in one `char`, so lengths and offsets are the byte
offsets of the Rust sources. Panics, exceptions and error returns are `None` or `Err`. Loops of the
sources are methods with loops; each is proved equal to a function, and the properties are lemmas about
that function. Rules both sides of a statement would share (a language's plural rule, how an absent value
shows, which messages carry data, which characters are white space) are also stated on their own, written
out.

## What turned out otherwise than written

Each of these is proved, and where it says exactly when, in both directions.

- An Android resource of a translation that shows no argument of a message that takes some is written
  unformatted and formatted all the same: right exactly when it has no `%` (`UnformattedAgreesIff`;
  `PercentBreaksAndroid` is `50%` for `{n} left`). The placeholder check rules it out
  (`CheckedIsAndroidSafe`). Escaping loses carriage returns and other control characters, and nothing else
  (`EscapingIsExact`; `ReturnIsLost` is a message with one).
- Where a language lacks a plural, Apple's entry holds the English forms but the system picks among them
  by the language's own rule, while Rust picks by the English one; the texts agree exactly when the rules
  agree on `one` (`AppleFallbackAgreesIff`; `AppleFallbackDiffers` is French at 0).
- A sync pass cut between applying and recording can make a later pass answer `Unchanged` although the
  host holds other entries (`CutBreaksSkip`); on runs without such a cut skipping is sound (`SkipIsSound`).
  A manual request refused while a pass runs is served by a pass that may skip (`ManualWhileBusyMaySkip`).
- A pass's finaliser clears the pending mark, publishes the status, which reads the fingerprint store, and
  only then forks the re-fire. If that read dies, the re-fire is gone (`DeathLoses`). No trigger is lost at
  any point of a run exactly when no finaliser dies there while it owes the only re-fire
  (`KeptIffPublished`); one that dies after another pass began, or beside another re-fire, loses nothing.
- The download reporter's comment promises changes at most once a second. Sends are a throttle apart on
  exactly the runs without a hasty event (`SpacedIffCalm`): within a throttle of the latest send, a flush,
  a heartbeat that finds a live row, or a timer that was armed before that send (`HeartbeatBeatsThrottle`
  is two sends in one millisecond). When only the timer sends, the bound holds (`TimerAloneIsCalm`).
- A row in the map is sent again without a caller exactly when the reporter has a timer armed, a flush that
  came during the send in flight, or a live row (`SentUnpromptedIff`); a finished row whose one send failed
  has none of these (`FailedTerminalWaits`).
- The configset upsert says it touches its own key only. What it replaces is the key's own entry exactly
  when the text is `Tidy` (`ReplacesOwnEntryIff`): only white space stands between the first token that
  begins its line and the next brace, and that brace is closed. Otherwise what stands between goes too
  (`UntidySwallows`): for a key that is a field's name, the end of that field's block and the next game's
  whole entry (`FieldNameSwallows`). A block deeper in the file counts as the key's entry like one at the
  top. A text that does not name the config in that very case of letters is dropped whole, not only an
  empty one (`UpsertTouchesOnePlace`).
- A second identical configset upsert changes nothing exactly when `Stable` holds (`SettlesIffStable`):
  a replacement needs the config's name before or behind what it replaces, or in the entry itself; an
  insertion needs the last closing brace in column 0 and no key token without a block above it.
- The JSON parser accepts more than RFC 8259: `f64::from_str` takes a numeral that begins with a zero or has
  digits on one side of its point only (`BeyondTheStandard` is `01`), and the radix parse of an escape a plus
  sign for its first digit. `ParsesExactly` gives all that is accepted.
- A USB/IP capture cut inside the last frame's data is reported as if it were whole (`CutFrame`).

## Model

| member | source | states |
|---|---|---|
| `Pattern.ParsePattern` | l10n/src/catalog.rs:252-290 | the parsing loop answers as the recursive reading of the whole text, errors included |
| `Pattern.ParseIsBijection` | l10n/src/catalog.rs:252-290 | a text parses to a pattern if and only if the pattern is non-empty, in normal form (no empty or adjacent texts, valid names) and the text is its escaped spelling |
| `Pattern.DisplayIsSource` | l10n/src/catalog.rs:108-116 | for an accepted text, `display` gives it back exactly when it holds no backslash |
| `Pattern.NameAllowedIff` | l10n/src/catalog.rs:234-250 | a placeholder may have a name if and only if it is a lower-case letter with lower-case letters, digits and underscores behind it, and no reserved word |
| `Messages.ArgsOf` | l10n/src/catalog.rs:53-72 | the argument list built in a loop over the variants, `other` first, the count put in front when no variant shows it |
| `Messages.ArgsFollowReadingOrder` | l10n/src/catalog.rs:53-72 | arguments are distinct and stand in the order their names first appear in the text as read |
| `Messages.ArgsReadOtherFirst` | l10n/src/catalog.rs:53-72 | a plural's arguments are the names in the order in which they first appear in its `other` variant, then in `zero`, `one`, `two`, `few` and `many`, the count in front exactly when none of them shows it |
| `Messages.ArgsListPlaceholders` | l10n/src/catalog.rs:41-72 | the argument list holds exactly the placeholders, count included |
| `Messages.CaseForSorted` | l10n/src/apple.rs:249-251 | sorting the variants by category never changes which one a category reads |
| `Messages.CompilesIff` | l10n/src/catalog.rs:784-810 | a translation compiles if and only if it keeps the English shape and brings no placeholder English lacks |
| `Packing.PackBody` | l10n/src/catalog.rs:750-779 | the packing loops append exactly the stored body, or give the error of the first text or index that cannot be stored |
| `Packing.PackIxFacts` | l10n/src/catalog.rs:750-779 | a pattern packs if and only if no text holds a reserved character and every index is below 64; the packed text has no variant mark, and is empty for no pattern with something in it |
| `Packing.StoredBytes` | l10n/src/pack.rs:1-13 | the bytes of a text, of a placeholder (1, then its index from `0` on) and of a variant (2, then the category's digit) |
| `Reader.RenderBody` | l10n/src/lib.rs:150-169 | the rendering loop writes each text and each placeholder's value or `{name}`, and panics exactly where an index or its byte is missing |
| `Meaning.RenderInterprets` | l10n/src/lib.rs:150-169 | rendering a packed pattern gives the pattern displayed with each named value in its placeholder's stead |
| `Meaning.RenderUnfilled` | l10n/src/lib.rs:150-169 | rendered without any value, a packed pattern reads as it is displayed, each placeholder as `{name}` |
| `Meaning.FindCasePacked` | l10n/src/lib.rs:137-145 | splitting a packed plural at the variant marks finds the variant of a category exactly when the plural has it, and finds its packed text |
| `Meaning.ReadPackChooses` | l10n/src/lib.rs:134-146 | reading a stored body gives the packed text of the variant for the count's category, `other` for a missing one, and nothing exactly when the message has neither or the language lacks the message |
| `Meaning.VariantMeans` | l10n/src/lib.rs:131-169 | the variant read, with English as fallback, renders to the meaning of the pattern chosen from the messages themselves |
| `Build.LangsOfRow` | l10n/src/catalog.rs:478-493 | the loop over shipped languages compiles each language's own text of a key, skips those without one and stops at the first that does not compile |
| `Build.RowsOf` | l10n/src/catalog.rs:469-505 | the rows of the named parts, sorted by key, or the problem of the first part that is missing, TypeScript-only or does not compile |
| `Build.AddRow` | l10n/build.rs:93-118 | one row appends its body, or nothing, to every language and pushes one end offset in each; it fails exactly when an offset would not fit 32 bits |
| `Build.Generate` | l10n/build.rs:55-144 | the nested loops produce the tables, packs and problems of the whole layout, failing exactly when a pack is too long for its offsets |
| `Compilation.LayHolds` | l10n/build.rs:108-116 | each body sits between its own offsets in every pack, whatever rows stand before and after |
| `Compilation.RowStores` | l10n/build.rs:94-116 | without problems, what a row stores in a language is that language's packed message, empty exactly when it has none |
| `Compilation.MessageInIs` | l10n/src/catalog.rs:478-493 | what a language says for a key stands in its own file: the part's source for the source language, the first translation into any other |
| `Compilation.ReferenceOf` | l10n/build.rs:77-128 | every generated reference stands for one source entry: its key, its arguments, and at its index in every pack what that language says |
| `Compilation.CompilationPreservesMeaning` | l10n/build.rs:74-118 | for every catalogue that builds without problems, every message, language, count and arguments: reading the packs never panics and gives the meaning of the source message, English where the language lacks it, `other` where the count's category is absent |
| `Compilation.FillMeans` | l10n/src/lib.rs:218-240 | a message filled by name reads the source text with each named value, the count filling its own placeholder unless it is named |
| `Compilation.FillNothing` | l10n/src/lib.rs:218-240 | a message of any language filled with nothing reads as its source text is displayed |
| `Compilation.TextIsNeverEmpty` | l10n/src/lib.rs:173-181 | a generated function without arguments returns the displayed source text, never the empty string |
| `Check.ShippedRules` | l10n/src/check.rs:290-296 | one complaint for each shipped language without a plural rule, in order, and none exactly when all have one |
| `Check.NoRulesAre` | l10n/src/check.rs:290-296 | those complaints are of exactly the languages without a rule |
| `Check.Duplicates` | l10n/src/check.rs:252-269 | the scan over a map of keys seen is silent if and only if no key is in two places |
| `Check.Run` | l10n/src/check.rs:197-296 | the check is silent if and only if categories, placeholders and rules are all in order |
| `Check.CategoriesCovered` | l10n/src/check.rs:197-215 | in a language with a rule a plural passes if and only if it has a variant for each category the language needs and for no other |
| `Check.OwnVariant` | l10n/src/check.rs:197-215 | a plural the category check accepts has a variant of its own for every count |
| `Check.SilenceCarriesOver` | l10n/src/check.rs:477-478 | a check silent on all it loads, every language and TypeScript's own parts, is silent on what the build loads |
| `Check.SilenceIsSound` | l10n/src/check.rs:199-233 | when the build succeeds and the check is silent on all it loads, a language that has a plural reads its own variant for every count, never `other` in its place nor English, with every index inside the argument list |
| `Plural.CategoryIsCldr` | l10n/src/plural.rs:56-108 | in every language and for every count, a category is picked if and only if the count meets that category's CLDR condition in that language (Language Plural Rules, section 5 of UTS #35 Part 3): sixteen languages, Portugal's Portuguese apart, and `other` alone in any further one |
| `Plural.CategoriesAre` | l10n/src/plural.rs:73-80 | the categories a plural must cover are each language's own, and unknown exactly outside the sixteen |
| `Android.WriteText` | l10n/src/android.rs:94-141 | the escaping loop writes the resource text as the function of the pieces says |
| `Android.CollapseOfText` | l10n/src/android.rs:121-136 | a space left unescaped is never at an end or beside another, so white-space collapsing restores the text |
| `Android.EscapingIsExact` | l10n/src/android.rs:94-141 | reading the resource gives back the text if and only if it has only characters XML carries |
| `Android.FormatReadsAtoms` | l10n/src/android.rs:106-131 | the formatter's view of a formatted text is the original characters and placeholders, a doubled percent sign being one |
| `Android.ResourceKeepsPieces` | l10n/src/android.rs:94-141 | a left inverse: a formatted resource gives back the compiled pattern it was written from |
| `Android.CountIsNumber` | l10n/src/android.rs:96-110 | the formatter asks for a number exactly where the count stands, and for text at every other argument |
| `Apple.WriteFormat` | l10n/src/apple.rs:279-294 | the loop writes the format string as the function of the pieces says |
| `Apple.FormatInterpolates` | l10n/src/apple.rs:279-294 | the system's formatting of it gives the interpolated text, the counted number in its substitution |
| `Apple.FormsFor` | l10n/src/apple.rs:249-258 | a category has a plural form exactly when the message has the variant, and the form is that variant's format string |
| `Apple.AccessorPassesInOrder` | l10n/src/apple.rs:341-363 | in both branches the accessor interpolates every parameter once, in index order |
| `Apple.DefaultIsEnglish` | l10n/src/apple.rs:341-363 | the accessor's default value is the English when that shows the arguments once and in order, and the arguments alone when not |
| `BackEnds.BackEndsAgree` | l10n/src/apple.rs:244-277 | for one compiled message and arguments in index order, the Rust body, the Apple entry and the Android resource read as the same text |
| `BackEnds.UnformattedAgreesIff` | l10n/src/android.rs:32-46 | a translation without arguments of a message with some reads right on Android for all arguments if and only if it holds no percent sign |
| `BackEnds.PercentBreaksAndroid` | l10n/src/android.rs:32-46 | it happens: `{n} left` translated as `50%` compiles, reads right in Rust, and no argument makes Android's formatter take it |
| `BackEnds.ReturnIsLost` | l10n/src/android.rs:94-141 | a message with a carriage return compiles, reads right in Rust, and reads as something else on Android |
| `BackEnds.CheckedIsAndroidSafe` | l10n/src/check.rs:217-233 | the placeholder check rules that case out |
| `BackEnds.AppleFallbackAgreesIff` | l10n/src/apple.rs:203-221 | the English forms under a language without the message read as Rust's fallback if and only if the two plural rules agree on `one` for the count |
| `BackEnds.AppleFallbackDiffers` | l10n/src/apple.rs:217-221 | they do differ: an English plural not yet in French, at a count of 0 |
| `Lookup.BinarySearch` | l10n/src/lib.rs:195-200 | over keys in order, binary search finds an index exactly when linear search does |
| `Lookup.Get` | l10n/src/lib.rs:193-200 | searching the tables in turn equals the linear search of them all |
| `Lookup.RowsAscending` | l10n/src/catalog.rs:467-505 | a part's rows are strictly sorted by key |
| `Lookup.GetFindsCompiled` | l10n/src/lib.rs:193-200 | `get` finds a message if and only if a part that is built has the key, and then one of that key |
| `Lookup.BuildSucceedsIff` | l10n/build.rs:55-144 | the build has no problem if and only if no part it builds is TypeScript's alone and each of their messages compiles and packs in every shipped language that has it |
| `Lookup.KeyNamesOneMessage` | l10n/src/check.rs:252-269 | when the duplicate check is silent a key names one message across all parts |
| `Language.PickTag` | l10n/src/lib.rs:112-127 | the truncating loop ends and finds the first match among a tag's truncations |
| `Language.Pick` | l10n/src/lib.rs:109-129 | the result is the first match among all candidates in order, 0 when there is none |
| `Language.TruncationsAre` | l10n/src/lib.rs:122-125 | the candidates of a tag are exactly its prefixes cut at a hyphen, strictly shortening |
| `Language.FirstMatchDecides` | l10n/src/lib.rs:109-129 | the answer is a valid index: the first candidate with any match, exact before fallback, and nothing before it matches |
| `Language.PickIs` | l10n/src/lib.rs:109-129 | the first preferred tag that means a language decides: its longest truncation that is shipped itself, or else leads to a shipped language by the fallback table; none exactly when no tag means one |
| `Json.Parser.ReadValue` | l10n/src/json.rs:102-113 | the recursive parser ends, never moves its cursor back and answers as the grammar function of the text ahead |
| `Json.Parser.ReadString` | l10n/src/json.rs:169-201 | the string loop reads escapes and raw bytes up to the closing quote, or the error the code gives |
| `Json.ParseText` | l10n/src/json.rs:61-73 | a whole text is one value and white space, or an error |
| `Json.PairReads` | l10n/src/json.rs:203-229 | two surrogate escapes are the code point beyond the first 65536 that UTF-16 writes so |
| `JsonGrammar.ParsesExactly` | l10n/src/json.rs:61-245 | a text is parsed to a value if and only if it is the spelling of a syntax tree of the grammar that means the value, white space around it: nothing else is accepted and nothing of it refused |
| `JsonPrinter.PrettyText` | l10n/src/json.rs:267-309 | the printer's appending loops write the layout the function gives |
| `JsonPrinter.ValueReads` | l10n/src/json.rs:102-309 | a printed value is read back whole with anything behind it |
| `JsonPrinter.ParseUndoesPretty` | l10n/src/json.rs:61-309 | parsing a printed value gives the value, for every value whose strings are UTF-8, whose objects have distinct keys and whose numbers are integers |
| `JsonPrinter.FieldLayout` | l10n/src/json.rs:275-309 | Xcode's layout: a field on a line, two spaces in for each level, a space on either side of the colon, commas between fields, the brace on a line of its own |
| `MessageFile.ParseMessage` | l10n/src/catalog.rs:295-369 | the reader's checks and loops answer as the function of the JSON value, each error in its place |
| `MessageFile.MessageIsRead` | l10n/src/catalog.rs:295-378 | a value is read as a message if and only if it is written as that message may be: a pattern's text, or one object with the three fields, one local among inputs, the local as selector and the variants named after it |
| `MessageFile.VariantsWellFormed` | l10n/src/catalog.rs:344-367 | the variants read are distinct categories with normal patterns that do not show the selector, one per arm |
| `MessageFile.MessageIsWellFormed` | l10n/src/catalog.rs:295-369 | every message read is well formed: normal patterns, a count that may be named, no category twice, at least one |
| `MessageFile.LoadFile` | l10n/src/catalog.rs:694-731 | a file's text gives its entries in order and a problem for each field left out |
| `MessageFile.NoneIsDropped` | l10n/src/catalog.rs:694-731 | the entries are exactly those of the fields other than `$schema` with a valid key and a readable value, the problems exactly those of the others |
| `MessageFile.ValidKeyIs` | l10n/src/catalog.rs:119-127 | a key is two or more words of small letters and digits with underscores between them, a letter first |
| `MessageFile.ValidLangIs` | l10n/src/catalog.rs:130-137 | a tag is two or three small letters, then subtags of one to eight letters and digits |
| `MessageFile.ParsedKeysDistinct` | l10n/src/json.rs:129-132 | an object the parser accepts has no key twice |
| `MessageFile.FileIsWellFormed` | l10n/src/catalog.rs:694-731 | from any text, the file read has well-formed messages under valid keys, none twice |
| `CatalogSource.MessageReadsBack` | l10n/src/catalog.rs:295-378 | a message written in the files' form, with any inputs declared and any selector name, is read back as itself |
| `CatalogSource.FileReadsBack` | l10n/src/catalog.rs:694-731 | a whole file written, printed, parsed and read gives the same entries and no problem |
| `CatalogSource.LocalesAreSound` | l10n/src/catalog.rs:591-624 | accepted languages are valid tags, the source ships first and once, every fallback leads to a shipped language |
| `CatalogSource.LocalesAreRead` | l10n/src/catalog.rs:591-624 | the languages are read if and only if they are so written: source, list and fallbacks there, every tag valid, every fallback in the list |
| `CatalogSource.CatalogIsWellFormed` | l10n/src/catalog.rs:524-587 | whatever the files hold, the catalogue read from them meets what compilation asks of it |
| `SyncEngine.NextKeeps` | plugin-kit/src/sync-engine.ts:201-274 | every step of every fibre keeps single flight, true pending marks, what a pass knows of the store and what its outcome says it did |
| `SyncEngine.RunKeeps` | plugin-kit/src/sync-engine.ts:201-274 | so does every run from any stored fingerprint |
| `SyncEngine.KeptIffPublished` | plugin-kit/src/sync-engine.ts:259-271 | at every point of a run each waiting request is pending or owed by a fibre, if and only if no finaliser dies publishing while it owes the only re-fire |
| `SyncEngine.DeathLoses` | plugin-kit/src/sync-engine.ts:265-269 | such a death does lose a request: a run that shows it |
| `SyncEngine.NoTriggerIsLost` | plugin-kit/src/sync-engine.ts:245-274 | at most one pass runs and a pending mark needs a running pass; on runs without such a death every request answered `AlreadyRunning` is pending, owed by a detached fibre or a finaliser, or covered by a pass begun after it |
| `SyncEngine.OwedIsServed` | plugin-kit/src/sync-engine.ts:259-271 | from every reachable state that lost nothing, without new requests, the engine's own steps in any order end after at most `Work` of them, and by then a pass began after every request ever refused |
| `SyncEngine.SkipIsSound` | plugin-kit/src/sync-engine.ts:209-231 | on runs without a cut between apply and record, a pass that answers `Unchanged` has the fingerprint of the latest successful apply |
| `SyncEngine.CutBreaksSkip` | plugin-kit/src/sync-engine.ts:217-226 | with such a cut it may not: a run that shows it |
| `SyncEngine.PersonIsServed` | plugin-kit/src/sync-engine.ts:93-96 | a pass whose reason is `startup` or `manual`, that computes and is not interrupted, always attempts the apply and never ends `Unchanged` |
| `SyncEngine.SkipsIffStored` | plugin-kit/src/sync-engine.ts:209-220 | in every reachable state a pass left alone up to its decision ends `Unchanged` without an apply if and only if what it computed is stored and its reason is neither of the two; otherwise it attempts the apply |
| `SyncEngine.ManualWhileBusyMaySkip` | plugin-kit/src/sync-engine.ts:248-268 | a manual request refused while busy may be served without any apply: a run that shows it |
| `SyncEngine.Engine.Acquire` | plugin-kit/src/sync-engine.ts:248-256 | the guard's read and write of the flags is the step of the state machine |
| `SyncEngine.Engine.Release` | plugin-kit/src/sync-engine.ts:259-264 | the finaliser's first step frees the guard and takes the pending mark |
| `SyncEngine.Engine.Finish` | plugin-kit/src/sync-engine.ts:265-269 | the rest publishes the status as it then is and forks what is owed, unless the store's read dies |
| `SyncEngine.Engine.DoSync` | plugin-kit/src/sync-engine.ts:201-231 | a pass ends `Unchanged` exactly when it computed what was stored and its reason is neither `startup` nor `manual`, `Applied` exactly when it applied, and stores then only; its steps are those of the state machine |
| `DrainLoop.RateIsCapped` | plugin-kit/src/sync-engine.ts:321-347 | on any run, attempts `n` apart in order are at least `n` intervals apart in time, and the queue is full exactly while a change has not been followed by an attempt |
| `DrainLoop.TrailingSyncInTime` | plugin-kit/src/sync-engine.ts:337-347 | a change queued while a sync runs is followed by an attempt one interval after that sync ends, and not before |
| `Downloads.Reporter.FlushNow` | plugin-kit/src/downloads.ts:172-182 | one send at a time; a send takes every row and the time, a second flush only marks `again` |
| `Downloads.Reporter.Set` | plugin-kit/src/downloads.ts:220-224 | a row replaces its title's and arms the timer, unless closed or unsupported |
| `Downloads.PutRowIs` | plugin-kit/src/downloads.ts:220-224 | the row stands in its title's place among the rows, behind all others when the title is new |
| `Downloads.SetRowIsSentInTime` | plugin-kit/src/downloads.ts:206-224 | a row set in an idle reporter is sent as soon as a throttle has passed since the latest send, at once when it has, and not before |
| `Downloads.Reporter.OnAnswer` | plugin-kit/src/downloads.ts:180-194 | what each answer does to the rows and to `supported` |
| `Downloads.Reporter.OnSettled` | plugin-kit/src/downloads.ts:195-204 | the clean-up frees the slot and arms the timer when a flush came meanwhile |
| `Downloads.DropSentIs` | plugin-kit/src/downloads.ts:188-193 | a row leaves an acknowledged map exactly when that very object, terminal, was in the batch |
| `Downloads.NextKeeps` | plugin-kit/src/downloads.ts:172-231 | every event keeps the reporter's invariant |
| `Downloads.UpdatesAreKept` | plugin-kit/src/downloads.ts:172-224 | in every reachable state neither closed nor unsupported, a row in no started batch has a timer armed, or a send in flight with `again` set |
| `Downloads.RowsLeaveOnlyWhenDone` | plugin-kit/src/downloads.ts:180-222 | the three ways a row can leave the map, and no other |
| `Downloads.SendsNeverOverlap` | plugin-kit/src/downloads.ts:172-204 | at every point of a run each send begun has settled, but for the one in flight |
| `Downloads.NoSendOnceGone` | plugin-kit/src/downloads.ts:172-231 | on every run, whatever follows a `close` or an answer that the host knows no downloads, no send begins and neither is taken back |
| `Downloads.TimerIsThrottled` | plugin-kit/src/downloads.ts:206-213 | timer-driven sends `n` apart in order are at least `n` throttles apart in time |
| `Downloads.SpacedIffCalm` | plugin-kit/src/downloads.ts:172-217 | all sends are a throttle apart on exactly the runs in which no flush, live heartbeat or timer armed before the latest send begins one within a throttle of it |
| `Downloads.TimerAloneIsCalm` | plugin-kit/src/downloads.ts:206-213 | on a run in which no heartbeat and no flush begins a send, all sends are a throttle apart |
| `Downloads.HeartbeatBeatsThrottle` | plugin-kit/src/downloads.ts:215-217 | a heartbeat and a timer armed before it may send in the same millisecond: a run that shows it |
| `Downloads.SentUnpromptedIff` | plugin-kit/src/downloads.ts:172-231 | a row in an open reporter's map is sent on some run without `set` and `flush` if and only if a timer is armed, a flush came during the send in flight, or a row is live |
| `Downloads.FailedTerminalWaits` | plugin-kit/src/downloads.ts:180-194 | a terminal row whose send failed is left in the map, and no run without a caller sends it: a run that ends so |
| `Usbip.SkipHandshake` | scripts/usbip-trace-analyse.py:28-46 | the skipping loop's offset, or the exception when a reply's status is cut off |
| `Usbip.FrameAt` | scripts/usbip-trace-analyse.py:56-98 | the fields, payload and extent the code reads for each command |
| `Usbip.Walk` | scripts/usbip-trace-analyse.py:49-99 | the generator's items in order |
| `Usbip.StartSkips` | scripts/usbip-trace-analyse.py:28-46 | the skip goes past every handshake message that stands there, to its very end |
| `Usbip.WalkReadsPdus` | scripts/usbip-trace-analyse.py:49-99 | after any handshake, messages of the protocol written field by field (OUT requests and IN replies with their buffers, IN requests and OUT replies without, isochronous packets where there are some, unlinks) are yielded one by one with exactly those fields, data, table and end |
| `Usbip.ItemsTile` | scripts/usbip-trace-analyse.py:49-99 | on any buffer the extents tile it, each frame at least 48 bytes on, and only the last item may be an error |
| `Usbip.DecodeSound` | scripts/usbip-trace-analyse.py:70-98 | what a clean walk decodes, written again, is the very bytes |
| `Usbip.WalkIsExact` | scripts/usbip-trace-analyse.py:49-99 | the walk is clean and ends with the buffer if and only if the buffer is such messages, one behind the other |
| `Usbip.CutFrame` | scripts/usbip-trace-analyse.py:52-55 | a cut inside a header is reported with what is left; a cut inside the last frame's data is not |
| `ConfigSet.UpsertEntry` | clients/decky/main.py:106-152 | the search, brace matching and splice of the code |
| `ConfigSet.ScanIsFirst` | clients/decky/main.py:119-128 | the search finds the very first key token that begins its line, skipping none |
| `ConfigSet.StandaloneIs` | clients/decky/main.py:117-128 | a key token is the key in quotes, in any case of its ASCII letters, with only white space in front of it on its line |
| `ConfigSet.CloseBalances` | clients/decky/main.py:132-141 | the brace loop stops at the first place where as many braces are closed as were opened |
| `ConfigSet.ReplacesOwnEntryIff` | clients/decky/main.py:120-146 | what is replaced is an entry of the key, its line, white space and its balanced block, if and only if only white space stands between the first token of its own line and the next brace, and that brace is closed |
| `ConfigSet.UntidySwallows` | clients/decky/main.py:129-146 | another key's token between the two is replaced with it |
| `ConfigSet.FieldNameSwallows` | clients/decky/main.py:129-146 | it happens: a key that names a field of one game takes the end of that game's block and the next game's entry with it |
| `ConfigSet.UpsertTouchesOnePlace` | clients/decky/main.py:106-152 | a replacement keeps every byte outside what it replaces, an insertion every byte but for white space at the end of a text without a closing brace, and of a text that does not name the config nothing is kept |
| `ConfigSet.UpsertSetsEntry` | clients/decky/main.py:112-152 | read as quoted words and braces, the result is what stood before, then the key with its type and its value in braces, then what stood behind; a text that does not name the config becomes that entry inside the config's braces |
| `ConfigSet.UpsertLooksUp` | clients/decky/main.py:106-152 | where the text was stable, looking the key up afterwards gives exactly the new block |
| `ConfigSet.SettlesIffStable` | clients/decky/main.py:106-152 | a second identical upsert changes nothing if and only if a condition a caller can check before the first |
| `ConfigSet.InsertingSettles` | clients/decky/main.py:148-152 | for an insertion: the last brace in column 0 and no token without a block above it |
| `ConfigSet.ReplacingSettles` | clients/decky/main.py:120-146 | for a replacement: the config's name stands before or behind what is replaced, or is the key, type or value written |
| `SharedReport.MakeGrid` | scripts/abr-rig/read-shared.py:200-221 | the grid filled and held in place, second by second |
| `SharedReport.GridShowsLatest` | scripts/abr-rig/read-shared.py:200-221 | for windows in order of time each second shows the latest window's rate, up to one second past the last |
| `SharedReport.Converge` | scripts/abr-rig/read-shared.py:307-325 | the least second from the join on that starts ten seconds in a row within a fifth, or none when there is none |
| `SharedReport.Recover` | scripts/abr-rig/read-shared.py:327-348 | the same for the one that stayed, against the bar |
| `SharedReport.CauchySchwarz` | scripts/abr-rig/read-shared.py:224-228 | the square of a sum is at most the count times the sum of squares, equal exactly when all are the same |
| `SharedReport.JainIsFair` | scripts/abr-rig/read-shared.py:224-228 | Jain's index lies between one over the number and one, with both ends reached exactly by one rate having all and by all being the same |
| `SharedReport.JainIsDefined` | scripts/abr-rig/read-shared.py:224-228 | it is undefined exactly when there is no rate or all are zero |
| `CargoGraph.LinkedIs` | scripts/ci/cargo_graph.py:29-33 | without `dev` an edge is followed if and only if some kind of it is not a development one |
| `CargoGraph.NextIsEdge` | scripts/ci/cargo_graph.py:23-33 | the closure follows from an id exactly the edges of the last node listed under it |
| `CargoGraph.Closure` | scripts/ci/cargo_graph.py:5-34 | the worklist ends; it fails exactly when a root names no package, and otherwise holds exactly the ids reachable from the roots over the edges kept |
| `CargoGraph.Done` | scripts/ci/cargo_graph.py:23-34 | once nothing waits, what was seen is what is reachable |

## Left out

- Loose messages of TypeScript-only parts, notes, length budgets, banned and retired words, Markdown and glossary checks: easy, or judgement calls.
- The pseudo-locale (`accent`), the generated Rust and Swift text around the data, `camel` and the accessor-name collisions, Android's directory qualifiers, app shortcuts and Info.plist tables.
- Error texts, and the JSON parser's line and column numbers; errors are told apart by kind.
- Unicode white space, case folding and control characters beyond ASCII: trimming, case-insensitive comparison and `lower()` are modelled for ASCII.
- JSON numbers that are not integers keep their literal; rounding to `f64` is not modelled, and a printed number is an integer.
- The readers of Android resources, Java formats and Apple catalogues are models of those platforms, restricted to what the generators write; argument types of `%d` and `lld` are not modelled.
- Directory listings, file reading and writing, processes, HTTP and subprocesses; thread-local and process-wide language are a language index given to each call.
- Check.Run: does not model the notes, the recorded debt, the glossary and the copy rules of the source's run, which are easy or judgement calls; silence here means categories, placeholders, duplicates and plural rules are in order.
- Effect's scheduling: taking the guard and registering its finaliser is one step, as is each store access; debouncing, the poll loop, the status feed and loop scopes are not modelled; sha256 is any function, so two lists with one fingerprint count as the same.
- A `send` that throws before it returns a promise, and the interval between heartbeats: a heartbeat may come at any time.
- The rates of the report are integers and its ratio is exact where the script divides floats; the per-client table and the cut counts are not modelled.
- The USB/IP ledger of requests and replies in `main`, its printed report, and device-list replies.
- Configset keys, types and values with quotes, braces or control characters: the upsert does not escape them, and what it then does is not stated.
