# CampBot markdown processors, in Dafny

CampBot is a maintenance bot for the camptocamp.org wiki. It fetches
documents (routes, waypoints, articles, outings…), rewrites the markdown of
their locales with a chain of *processors*, and reports recent
contributions with a set of *checkers*. This project models the core of
that machinery and proves what it does:

- the processor framework: `Converter` (one `re.sub`), a processor's
  `modify` fold, `do_tests` on its fixtures, and `__call__` on the locales
  of a document (`Processor`, `Rewrite`, `Tags`, `LineRules`);
- the L# (pitch numbering) processors: `LtagCleaner`'s normalisation of
  table rows and the `LTagNumbering` state machine behind `LtagMigrator`
  (`LtagCleaner`, `LtagNumbering`, `LtagRules`, `LtagVectors`);
- the cleaners: `MarkdownCleaner`, the placeholder protection of
  `OrthographicProcessor`, `UpperFix`, `AutomaticReplacements`,
  `RemoveColonInHeader`, `DiacriticsFix` (`Cleaners`, `UpperFix`,
  `Guard`, `GuardScan`, `GuardRestore`, `GuardAlign`, `GuardProof`),
  and the four orthographic processors run inside that protection
  (`Orthographic`);
- the BBCode converters: `ColorAndUnderlineRemover`, the typography,
  URL, picto and admonition rules of `BBCodeRemover`, and
  `InternalLinkCorrector` (`BBColor`, `TypoCleaner`, `BBUrls`, `BBIcons`,
  `BBAdmonitions`, `InternalLinks`, `LinkShapes`, `LinkFixtures`);
- the automatic-replacement configuration reader and the processor order
  (`Config`);
- the document differ `flatten` / `get_diff_report` (`Differ`, `Json`);
- the contribution checkers and reports (`Checkers`);
- the wiki objects: type letters, URL paths, locales, lengths, validity
  (`Objects`);
- the id-file reader, the forum post-id parser and the grouping of recent
  changes by document (`IdFile`, `Bot`, `Grouping`);
- string helpers shared by all of them (`Text`, `Wrappers`).

A regular expression is modelled as a *matcher*: a function that, given the
text and a position, says whether the pattern matches there, where the
match ends and what it is replaced with. `Rewrite.Sub` is `re.sub` on top
of it: leftmost match first, non-overlapping, left to right. Python
exceptions are the `Failure` case of `Result`, carrying the exception's
class name (`"IndexError"`, `"KeyError"`, …). Mutable Python objects whose
fields the code updates (`LTagNumbering`, `MarkdownProcessor`'s locales,
`flatten`'s result dictionary, the reports, the placeholder table,
`BotObject`) are Dafny classes; each of their methods is proved equal to a
function of the old state, and the properties are proved about those
functions.

## Model

| member | source | states |
|---|---|---|
| Rewrite.SubOneMatch | campbot/processors/core.py:5-12 | a converter whose pattern matches at exactly one place replaces that span and copies the rest |
| Rewrite.SubFromNoMatch | campbot/processors/core.py:5-12 | a converter whose pattern matches nowhere returns the text unchanged |
| Rewrite.SubFromFlatMap | campbot/processors/core.py:5-12 | if every replacement agrees with the text it replaces under a character map, the whole substitution does |
| Tags.Converters | campbot/processors/core.py:5-12 | one converter per pattern, in the same order |
| Tags.ConvertersFireOnce | campbot/processors/bbcode.py:324-326 | in a chain of converters, when only one pattern applies and the later ones leave its output alone, the chain's result is that one rewrite |
| Tags.ConvertersFixed | campbot/processors/bbcode.py:324-326 | a text no pattern of the chain matches comes back unchanged |
| LineRules.SubByLines | campbot/processors/cleaners.py:18 | a converter anchored at line starts acts on each line separately: the result is the text split at newlines, each line rewritten by the rule, joined again |
| LineRules.LinesSub | campbot/processors/cleaners.py:18 | the same, stated for text built from lines without newlines |
| Processor.ApplyAllShape | campbot/processors/core.py:65-71 | with no modifiers `modify` is the identity; one more modifier is applied to the result of the others |
| Processor.ApplyAllAppend | campbot/processors/core.py:65-71 | running modifiers `a + b` is running `b` on the result of `a` |
| Processor.ApplyAllFixed | campbot/processors/core.py:65-71 | a text that every modifier leaves unchanged is left unchanged by `modify` |
| Processor.Modify | campbot/processors/core.py:65-71 | the loop returns the fold of the modifiers over the text |
| Processor.DoTests | campbot/processors/core.py:29-39 | no error exactly when every fixture's source is modified into its expected text; otherwise the error is `TEST FAILED` |
| Processor.MarkdownProcessor.Create | campbot/processors/core.py:22-24 | a processor is built exactly when all its fixtures pass, with the given modifiers and languages |
| Processor.FieldsFromSpec | campbot/processors/core.py:45-51 | rewriting the fields of a locale keeps its keys, replaces each present, non-empty, non-title text field by its modified text, keeps every other field, and raises the flag exactly when some text changed |
| Processor.TitleNeverRewritten | campbot/processors/core.py:46 | the title and every field that is not a locale text field are never changed; the locale changes exactly when one of its text fields is modified |
| Processor.MarkdownProcessor.RewriteFields | campbot/processors/core.py:45-51 | the loop over the fields leaves the locale and the flag that the field fold describes, and touches no attribute |
| Processor.MarkdownProcessor.RewriteLocale | campbot/processors/core.py:45-51 | the fields of `get_locale_fields` are rewritten as the field fold says, and the locale's attributes are kept |
| Processor.MarkdownProcessor.ProcessLocale | campbot/processors/core.py:44-51 | with a language list, a locale without `lang` raises `AttributeError` and is left as it was; otherwise it is rewritten exactly when there is no list or its language is in it, and the answer says whether it changed |
| Processor.MarkdownProcessor.Call | campbot/processors/core.py:41-53 | `__call__` raises exactly when some locale raises, with the error of the first one, the locales before it rewritten and the others untouched; otherwise every selected locale is rewritten, the others keep their data, and the result is true exactly when some locale changed |
| LtagNumbering.ParseLeading | campbot/processors/ltagmigrator.py:166-205 | a row is read as an L# cell exactly when it starts with `L#` or `R#`; the cell's type is the row's first letter and the cell ends at or after the `#` |
| LtagNumbering.FirstOffset | campbot/processors/ltagmigrator.py:309-317 | an accepted first offset of a range is a string of digits |
| LtagNumbering.LastOffset | campbot/processors/ltagmigrator.py:320-325 | an accepted last offset of a range is a string of digits |
| LtagNumbering.ComputeSpec | campbot/processors/ltagmigrator.py:245-285 | the `supported` switch can only go from on to off; when it is off the row comes back as it was; an exception escapes only from a supported numbering on an L# row |
| LtagNumbering.RunRows | campbot/processors/ltagmigrator.py:422-428 | a run over the rows that does not raise gives one output row per input row, and never turns the switch back on |
| LtagNumbering.RunRowsFailurePersists | campbot/processors/ltagmigrator.py:422-428 | once a row raises, the whole conversion raises that exception |
| LtagNumbering.LTagNumbering.constructor | campbot/processors/ltagmigrator.py:226-240 | both counters start at 0, the switch is on, labels are allowed and none has been seen |
| LtagNumbering.LTagNumbering.Compute | campbot/processors/ltagmigrator.py:245-285 | the object's counters, switch and flags, and the returned row, are exactly those of the row step from the old state |
| LtagNumbering.LTagNumbering.ConvertRow | campbot/processors/ltagmigrator.py:423-428 | one row of `convert`: L#/R# rows go through `compute` with the row's own type, other rows are kept |
| LtagNumbering.LTagNumbering.HandleRange | campbot/processors/ltagmigrator.py:296-332 | a range cell updates the counter and renders the row as the range step says |
| LtagNumbering.LTagNumbering.HandleSingle | campbot/processors/ltagmigrator.py:334-392 | a single cell updates the counter and renders the row as the single-cell step says |
| LtagNumbering.Convert | campbot/processors/ltagmigrator.py:419-433 | `convert` returns what the row-by-row specification gives: the renumbered rows, or the input itself when numbering became unsupported |
| LtagRules.ParseSingle | campbot/processors/ltagmigrator.py:189-191 | `L#` followed by an optional `+` and digits, then a character that cannot continue the cell, is read as a single value without label |
| LtagRules.ParseLabelled | campbot/processors/ltagmigrator.py:177-191 | a value followed by a label is read as a single value with that label |
| LtagRules.ParseLocalRef | campbot/processors/ltagmigrator.py:193-196 | a `!` after the value is read as a local reference |
| LtagRules.ParseRange | campbot/processors/ltagmigrator.py:178-186 | two offsets around a `-` are read as a range with those offsets |
| LtagRules.SingleEmptyRule | campbot/processors/ltagmigrator.py:352-356 | a bare `L#` adds one to its counter and shows the new number; the rest of the row is kept |
| LtagRules.SinglePlusRule | campbot/processors/ltagmigrator.py:358-367 | `L#+N` adds N to the counter and a bare `L#+` adds 1; the row shows the new number |
| LtagRules.SingleAbsoluteRule | campbot/processors/ltagmigrator.py:372-379 | `L#N` sets the counter to N and leaves the row as written |
| LtagRules.RangeRule | campbot/processors/ltagmigrator.py:309-332 | an empty or `+` first offset means `+1`; relative offsets are added to the counter; the counter ends at the last value and the row shows both numbers |
| LtagRules.HeaderAndFreeTextKept | campbot/processors/ltagmigrator.py:263-267 | `L#=` and `L#~` rows are kept as written and leave the state alone |
| LtagRules.OtherRowsKept | campbot/processors/ltagmigrator.py:423-428 | rows that do not start with `L#`/`R#` are kept and leave the state alone |
| LtagRules.TailKept | campbot/processors/ltagmigrator.py:201-205 | only the leading cell is rewritten: whatever follows it on the row is kept |
| LtagRules.OtherCounterKept | campbot/processors/ltagmigrator.py:229 | an L row never changes the R counter and an R row never changes the L counter |
| LtagRules.LabelUnsupported | campbot/processors/ltagmigrator.py:287-294 | any label makes numbering unsupported: the switch goes off and the row comes back as it was |
| LtagRules.LocalRefUnsupported | campbot/processors/ltagmigrator.py:261 | a local reference makes numbering unsupported |
| LtagRules.NegativeFirstUnsupported | campbot/processors/ltagmigrator.py:317 | a negative first offset makes numbering unsupported |
| LtagRules.EmptyLastOffsetRaises | campbot/processors/ltagmigrator.py:320 | a range with an empty last offset raises `IndexError`, which `compute` does not catch |
| LtagRules.RunRowsAppend | campbot/processors/ltagmigrator.py:422-428 | the row loop over `a + b` is the loop over `b` from the state the loop over `a` reached |
| LtagRules.UnsupportedStays | campbot/processors/ltagmigrator.py:254-255 | once unsupported, every later row comes back as it was and the switch stays off |
| LtagRules.Rollback | campbot/processors/ltagmigrator.py:430-431 | when numbering becomes unsupported anywhere, `convert` returns its input unchanged |
| LtagRules.CaughtRun | campbot/processors/ltagmigrator.py:280-285 | catching `IndexError` as well gives a run that never raises, agrees with the original wherever that does not raise, and turns the switch off where it would |
| LtagRules.IntendedAsWritten | campbot/processors/ltagmigrator.py:419-433 | the corrected conversion agrees with `convert` whenever `convert` does not raise |
| LtagRules.IntendedRollsBack | campbot/processors/ltagmigrator.py:246-250 | where `convert` raises, the corrected conversion returns the input unchanged |
| LtagVectors.HeaderVector | campbot/processors/ltagmigrator.py:400-401 | the header, bare, bare-then-labelled-cell and free-text rows become header, 1, 2 (the labelled second cell kept), free text |
| LtagVectors.LabelVector | campbot/processors/ltagmigrator.py:403-404 | a label before a relative cell rolls the whole text back |
| LtagVectors.OffsetVector | campbot/processors/ltagmigrator.py:406-407 | `L#`, `L#+2`, `L#`, `L#6`, `L#+2`, `L#+`, `L#` become 1, 3, 4, 6, 8, 9, 10 |
| LtagVectors.RangeVector | campbot/processors/ltagmigrator.py:409-410 | `L#\nL#+1-+1\nL#-+1` becomes `L#1\nL#2-3\nL#4-5` |
| LtagVectors.TrailingTextVector | campbot/processors/ltagmigrator.py:412-413 | `L#-+7` followed by a second cell becomes `L#1-8` with the cell kept, and the next `L#` becomes `L#9` |
| LtagVectors.EmptyLastVectors | campbot/processors/ltagmigrator.py:320 | `L#5-` and `L#-` make `convert` raise `IndexError` |
| LtagVectors.EmptyLastIntended | campbot/processors/ltagmigrator.py:320 | the corrected conversion returns `L#5-` unchanged |
| LtagCleaner.NoCarriageReturn | campbot/processors/ltagmigrator.py:122-123 | after the line-ending normalisation no carriage return is left |
| LtagCleaner.EndingsUnchanged | campbot/processors/ltagmigrator.py:122-123 | text without carriage returns is not changed by the normalisation |
| LtagCleaner.MergeOnlyDropsNewlines | campbot/processors/ltagmigrator.py:95-101 | merging blank lines between L#/R# rows only deletes newlines (and may upper-case the `l#`/`r#` it matched case-insensitively) |
| LtagCleaner.BlankAtHasBlankLine | campbot/processors/ltagmigrator.py:95-101 | a merge only happens where the row is followed by an empty line |
| LtagCleaner.MergeNoBlankLine | campbot/processors/ltagmigrator.py:95-101 | text without an empty line is not changed by the merge |
| LtagCleaner.JoinContinuations | campbot/processors/ltagmigrator.py:128-148 | the loop's result equals the joined-rows function |
| LtagCleaner.JoinRowsGrouped | campbot/processors/ltagmigrator.py:131-146 | each L#/R# row absorbs the continuation lines after it, joined by `<br>`; every other line stays on its own |
| LtagCleaner.CollapseKeepsSingleColons | campbot/processors/ltagmigrator.py:116-119 | a line with no bar and no `::` is not changed by the separator rule |
| LtagCleaner.CollapseKeepsText | campbot/processors/ltagmigrator.py:116-119 | on a line without `<br>`, the separator rule changes nothing but separators and the spaces around them stay |
| LtagCleaner.CollapseNoDoubleSep | campbot/processors/ltagmigrator.py:116-119 | on a line without `<br>`, no two separators are adjacent afterwards |
| LtagCleaner.LeadingColonRule | campbot/processors/ltagmigrator.py:105-107 | a run of colons after the first cell becomes one bar |
| LtagCleaner.MissingSeparatorRule | campbot/processors/ltagmigrator.py:110-113 | spaces followed by text after the first cell get a bar inserted |
| LtagCleaner.CleanRows | campbot/processors/ltagmigrator.py:150-161 | cleaning keeps the number of lines |
| LtagCleaner.CleanAllRows | campbot/processors/ltagmigrator.py:150-161 | the loop's result equals the row-cleaning function |
| LtagCleaner.CleanRowsFailsOnBareRow | campbot/processors/ltagmigrator.py:154 | cleaning raises exactly when some line is `L#` or `R#` alone, and the exception is `IndexError` |
| LtagCleaner.Modify | campbot/processors/ltagmigrator.py:121-161 | the modifier returns what its specification gives: normalise endings, merge, join, clean |
| LtagCleaner.TextWithoutTablesUnchanged | campbot/processors/ltagmigrator.py:121-161 | text with no carriage return, no empty line and no L#/R# line comes back unchanged |
| LtagCleaner.BareRowRaises | campbot/processors/ltagmigrator.py:154 | `L#` and `R#` alone make the modifier raise `IndexError` |
| LtagCleaner.IntendedAgrees | campbot/processors/ltagmigrator.py:154 | the corrected modifier agrees with the original wherever that does not raise |
| LtagCleaner.IntendedBareRow | campbot/processors/ltagmigrator.py:154 | the corrected line cleaning leaves `L#` and `R#` alone |
| Cleaners.BlankLinesSpec | campbot/processors/cleaners.py:15 | after the first rule no three newlines follow each other, and apart from newlines the text is unchanged |
| Cleaners.BlankLinesKeep | campbot/processors/cleaners.py:15 | text without three newlines in a row is unchanged by it |
| Cleaners.LeadingSpec | campbot/processors/cleaners.py:16 | the second rule strips the leading newlines |
| Cleaners.TrailingSpec | campbot/processors/cleaners.py:17 | the third rule strips the trailing newlines |
| Cleaners.HeaderLineSpec | campbot/processors/cleaners.py:18 | on a header line the `#` run is kept and followed by exactly one space; apart from spaces the line is unchanged; other lines are kept |
| Cleaners.HeaderLineIdempotent | campbot/processors/cleaners.py:18 | applying the header rule twice is applying it once |
| Cleaners.HeaderSpaceLines | campbot/processors/cleaners.py:18 | the header rule acts line by line |
| Cleaners.MarkdownCleanerSteps | campbot/processors/cleaners.py:13-19 | `MarkdownCleaner` collapses blank runs, strips newlines at both ends, then fixes every header line |
| Cleaners.DiacriticsSteps | campbot/processors/cleaners.py:154-161 | `DiacriticsFix` is the five letter-plus-accent replacements in order |
| Cleaners.DiacriticsComposed | campbot/processors/cleaners.py:154-161 | afterwards none of the five decomposed pairs is left |
| Cleaners.DiacriticsKeepsText | campbot/processors/cleaners.py:154-161 | decomposing the result gives the decomposed input: only the spelling of the accents changes |
| Cleaners.DiacriticsUntouched | campbot/processors/cleaners.py:154-161 | text without those pairs is unchanged |
| Cleaners.DiacriticsVectors | campbot/processors/cleaners.py:156-160 | each pair becomes its precomposed letter |
| Cleaners.ColonSecondHeaderKept | campbot/processors/cleaners.py:146 | as written, of two adjacent header lines ending in `:` only the first loses its colon |
| Cleaners.ColonAsWrittenLine | campbot/processors/cleaners.py:146 | on a single line the rule as written drops the header's final colon |
| Cleaners.ColonCutSpec | campbot/processors/cleaners.py:146 | the rule applies exactly to a line starting with `#` that ends in a colon and spaces |
| Cleaners.DropColonSpec | campbot/processors/cleaners.py:146 | the rule changes a line exactly when it applies, and then only removes the trailing colon and spaces |
| Cleaners.RemoveColonLines | campbot/processors/cleaners.py:146 | the corrected processor applies the colon rule to each line |
| Cleaners.RemoveColonBothHeaders | campbot/processors/cleaners.py:146 | the corrected processor drops the colon of both adjacent headers |
| Cleaners.InitModifiers | campbot/processors/cleaners.py:133-137 | one whole-word converter per replacement pair, in the configured order |
| Cleaners.ReplacementsInOrder | campbot/processors/cleaners.py:133-137 | the replacements are applied one after the other, the last one to the result of the others |
| Cleaners.WordAlone | campbot/processors/cleaners.py:137 | a word on its own is replaced |
| Cleaners.WholeWordOnly | campbot/processors/cleaners.py:137 | a different run of word characters is never touched, even when it contains the word |
| Cleaners.WordInText | campbot/processors/cleaners.py:137 | the only occurrence of the word, between word boundaries, is replaced and the rest of the text is kept |
| Cleaners.EveryOccurrence | campbot/processors/cleaners.py:137 | every occurrence of the word between word boundaries is replaced, and the text between occurrences is kept |
| Orthographic.MarkFreeUnprotected | campbot/processors/cleaners.py:43-49 | none of the five protected patterns starts in a text without `[`, `:` and `.` |
| Orthographic.NothingProtected | campbot/processors/cleaners.py:23-56 | when nothing is protected, `modify` is the plain fold of the modifiers |
| Orthographic.UnprotectedProcessors | campbot/processors/cleaners.py:23-56 | on such text `UpperFix`, `AutomaticReplacements`, `RemoveColonInHeader` and `DiacriticsFix` do what their modifiers do |
| Orthographic.HeadAbsentKept | campbot/processors/cleaners.py:137 | a word whose first letter is absent from the text is not replaced |
| Orthographic.WordRulesKept | campbot/processors/cleaners.py:133-137 | replacements whose words all start with a letter absent from the text leave it unchanged |
| Orthographic.EmojiWhole | campbot/processors/cleaners.py:49 | `:w:`, with `w` a run of word characters, is protected whole as placeholder 0 |
| Orthographic.UrlWhole | campbot/processors/cleaners.py:44 | `http://` followed by URL characters is protected whole as placeholder 0 |
| Orthographic.WikiHeadOnly | campbot/processors/cleaners.py:46-48 | only the head `[[kind/id…|` of a wiki link is protected; the label after it stays in the text |
| Orthographic.LabelRewritten | campbot/processors/cleaners.py:137 | in the protected wiki link the label's `deja` is replaced |
| Orthographic.PlainWordVector | tests/test_processors.py:324 | `AutomaticReplacements` turns `deja` into `déjà` |
| Orthographic.EmojiVector | tests/test_processors.py:325 | `:deja:` is left as it is |
| Orthographic.WikiLabelVector | tests/test_processors.py:326 | `[[route/123/fr/deja|deja]]` becomes `[[route/123/fr/deja|déjà]]` |
| Orthographic.UrlVector | tests/test_processors.py:330 | `http://deja.com` is left as it is |
| Guard.Repl | campbot/processors/cleaners.py:27-33 | a span seen before gets its old placeholder back; a new span gets the next numbered placeholder and is recorded |
| Guard.ReplKeeps | campbot/processors/cleaners.py:27-33 | the placeholder table only grows, keeps its entries, and records the span with the placeholder returned |
| Guard.ProtectFromKeeps | campbot/processors/cleaners.py:26-35 | protecting keeps the table's entries and numbers every new placeholder by its position |
| Guard.Placeholders.Protect | campbot/processors/cleaners.py:26-35 | the object's table and the returned text are those of the protection pass |
| Guard.Placeholders.Restore | campbot/processors/cleaners.py:53-54 | the restore loop puts the spans back in the table's order |
| Guard.Placeholders.RestoreNewestFirst | campbot/processors/cleaners.py:53-54 | the corrected loop puts the spans back newest first |
| Guard.GuardedModify | campbot/processors/cleaners.py:23-56 | `modify` protects links, URLs, `www.` addresses, wiki-link heads and emoji codes, runs the modifiers, and restores as written |
| Guard.GuardedModifyFixed | campbot/processors/cleaners.py:23-56 | the same with the newest-first restoration |
| GuardScan.ScanAll | campbot/processors/cleaners.py:35 | one protection pass over text whose earlier placeholders are whole keeps the text it stands for, with every placeholder still whole |
| GuardRestore.ReplaceHole | campbot/processors/cleaners.py:54 | replacing one placeholder by a text is substituting it in the text's structure |
| GuardRestore.RestoreFromFlat | campbot/processors/cleaners.py:53-54 | when no protected span holds an older placeholder, in-order restoration gives back every span |
| GuardRestore.RestoreBackNested | campbot/processors/cleaners.py:53-54 | newest-first restoration expands nested placeholders completely |
| GuardProof.ProtectAllAtoms | campbot/processors/cleaners.py:43-49 | after the five protection passes, expanding the placeholders gives back the input |
| GuardProof.FixedRestores | campbot/processors/cleaners.py:23-56 | with newest-first restoration, every protected stretch the modifiers left whole comes back as it was |
| GuardProof.FixedRoundTrip | campbot/processors/cleaners.py:23-56 | with no modifiers the corrected `modify` returns its input |
| GuardProof.AsWrittenFlat | campbot/processors/cleaners.py:53-54 | when no protected span contains an older placeholder, the as-written and corrected restorations agree |
| GuardProof.AsWrittenNestedUrl | campbot/processors/cleaners.py:53-54 | as written, `http://[a](b)` comes back with a placeholder left in it |
| GuardProof.FixedNestedUrl | campbot/processors/cleaners.py:53-54 | with newest-first restoration it comes back unchanged |
| UpperFix.Upper | campbot/processors/cleaners.py:64-65 | the lower-case letters the rules target are raised; every other character is kept |
| UpperFix.UpperHeaderSpec | campbot/processors/cleaners.py:91 | on a header line only the first letter after the `#` run and spaces is raised |
| UpperFix.UpperHeaderLines | campbot/processors/cleaners.py:91 | the header rule acts line by line |
| UpperFix.ParagraphSpec | campbot/processors/cleaners.py:92 | exactly the letters that start the text or follow an empty line are raised |
| UpperFix.CellSpec | campbot/processors/cleaners.py:70 | in a line of an L# block, exactly the first letters of the cells outside a wiki link are raised |
| UpperFix.FlagInBlock | campbot/processors/cleaners.py:72-81 | the loop's flag on a line is "some L#/R# line at or before it, with no empty line in between" |
| UpperFix.LtagConvert | campbot/processors/cleaners.py:67-88 | the loop returns the text with the cells of the block lines fixed and every other line kept |
| UpperFix.LtagLines | campbot/processors/cleaners.py:73-86 | one output line per input line |
| UpperFix.UpperFixRaised | campbot/processors/cleaners.py:90-94 | the three rules together only raise letters: the text keeps its length and every character is kept or raised |
| TypoCleaner.TypoClean | campbot/processors/bbcode.py:316-320 | the cleaner is the fold of the sixteen converters of bbcode.py:218-314 in their order, the 4-, 5- and 6-line rules as written |
| TypoCleaner.RulesNeedBracket | campbot/processors/bbcode.py:218-314 | no typography rule matches in text without `[` |
| TypoCleaner.NoBracketUntouched | campbot/processors/bbcode.py:218-314 | text without `[` is not changed by the cleaner, as written or corrected |
| TypoCleaner.LazyFirst | campbot/processors/bbcode.py:265-268 | the lazy `.*?` stops at the first closing tag |
| TypoCleaner.PairDeleted | campbot/processors/bbcode.py:230-233 | an empty `[tag][/tag]` pair is deleted |
| TypoCleaner.SingleLine | campbot/processors/bbcode.py:265-268 | `[tag]x[/tag]` on one line becomes the markdown marker around `x` |
| TypoCleaner.MultiLineRewrite | campbot/processors/bbcode.py:270-311 | a multi-line rule puts the markers around the lines it keeps |
| TypoCleaner.MultiLineKeepsLines | campbot/processors/bbcode.py:270-311 | the corrected rules keep every line of a 2- to 6-line span |
| TypoCleaner.AsWrittenDropsLines | campbot/processors/bbcode.py:283-311 | as written, the 4-, 5- and 6-line rules keep only the first three lines |
| TypoCleaner.FourLineBoldAsWritten | campbot/processors/bbcode.py:283-289 | as written, `[b]a\nb\nc\nd[/b]` becomes `**a\nb\nc**` |
| TypoCleaner.FourLineBoldIntended | campbot/processors/bbcode.py:283-289 | the corrected rule gives `**a\nb\nc\nd**` |
| BBColor.DeletesOneTag | campbot/processors/bbcode.py:18-21 | a match is one bracketed colour or underline tag and is replaced by nothing |
| BBColor.TagsDeleted | campbot/processors/bbcode.py:18-21 | text made of plain pieces and such tags loses the tags and keeps the pieces |
| BBColor.FixturePasses | campbot/processors/bbcode.py:9-14 | the processor's fixture passes |
| BBUrls.BareLink | campbot/processors/bbcode.py:367-369 | `[url]x[/url]` becomes the address followed by a space |
| BBUrls.EmptyLink | campbot/processors/bbcode.py:371-373 | `[url=]t[/url]` becomes the text between spaces |
| BBUrls.LabelledLink | campbot/processors/bbcode.py:375-377 | `[url=l]t[/url]` becomes the markdown link `[t](l)` |
| BBUrls.EmailLink | campbot/processors/bbcode.py:379-381 | `[email]x[/email]` becomes a mailto link |
| BBUrls.EmailLabelledLink | campbot/processors/bbcode.py:383-385 | `[email=l]t[/email]` becomes a mailto link labelled `t` |
| BBUrls.KeptLink | campbot/processors/bbcode.py:367-369 | a bare tag whose content is not an address is kept |
| BBUrls.BareFixturePasses | campbot/processors/bbcode.py:110-111 | the bare-link fixture passes |
| BBUrls.BareEmptyOpenerFixturePasses | campbot/processors/bbcode.py:106-107 | the fixture with an empty `[url=]` opener passes |
| BBUrls.LabelledFixturePasses | campbot/processors/bbcode.py:118-119 | the labelled-link fixture passes |
| BBUrls.KeptFixturePasses | campbot/processors/bbcode.py:130-131 | the fixture whose content is not an address passes |
| BBUrls.EmailFixturePasses | campbot/processors/bbcode.py:146-147 | the email fixture passes |
| BBUrls.EmailLabelledFixturePasses | campbot/processors/bbcode.py:150-151 | the labelled email fixture passes |
| BBIcons.IconsKeepPlain | campbot/processors/bbcode.py:433-499 | text without `[` is not changed by the picto rules |
| BBIcons.PictoBecomesEmoji | campbot/processors/bbcode.py:433-499 | each of the 17 `[picto …]` tags becomes its emoji code and the surrounding text is kept |
| BBIcons.ImgBecomesEmoji | campbot/processors/bbcode.py:433-463 | each of the 8 `[img=picto/….png /]` tags becomes the same emoji as its activity picto |
| BBAdmonitions.NoBracketKept | campbot/processors/bbcode.py:501-558 | text without `[` is not changed by an admonition rule |
| BBAdmonitions.OnlyAtOpener | campbot/processors/bbcode.py:501-558 | an admonition rule only matches at the newlines before an opening tag |
| BBAdmonitions.BlockBecomesAdmonition | campbot/processors/bbcode.py:501-558 | an `[important]` block of at most 7 lines or a `[warning]` block of at most 6 becomes the admonition of its kind over its lines, absorbing the newlines around it |
| BBAdmonitions.LongBlockKept | campbot/processors/bbcode.py:501-558 | a longer block is left as written |
| InternalLinks.NoTypeAtHead | campbot/processors/bbcode.py:603-620 | a head made of `[[`, optional spaces, an optional slash, digits and a bar is matched with those digits |
| InternalLinks.NoTypeAtShape | campbot/processors/bbcode.py:603-620 | every match of the no-type pattern has that shape |
| InternalLinks.NoTypeRepl | campbot/processors/bbcode.py:603-620 | the replacement raises `KeyError` exactly when the id's type is known and is not one of `riawbc` |
| InternalLinks.UnknownHeadReads | campbot/processors/bbcode.py:603-620 | an id of unknown type keeps its head as written |
| InternalLinks.KnownHeadType | campbot/processors/bbcode.py:603-620 | an id of known type gets the plural path of its type |
| InternalLinks.FixNoTypeAgrees | campbot/processors/bbcode.py:603-620 | when no type can raise, the fixer is the plain substitution |
| InternalLinks.FixNoTypeFails | campbot/processors/bbcode.py:603-620 | a failure comes from a link head whose id has a type outside `riawbc` |
| InternalLinks.FixNoTypeRaises | campbot/processors/bbcode.py:603-620 | such a head anywhere makes the fixer raise |
| InternalLinks.CorrectModify | campbot/processors/bbcode.py:600-601 | when no type can raise, the corrector is its three fixers in order |
| InternalLinks.CorrectFails | campbot/processors/bbcode.py:600-620 | the corrector raises `KeyError` exactly when some link head's id has a type outside `riawbc` |
| InternalLinks.CorrectNoLink | campbot/processors/bbcode.py:600-601 | text without a `[[` link is unchanged |
| LinkShapes.TypedAtShape | campbot/processors/bbcode.py:622-652 | every typed-path match is a type, digits and a tail, rewritten to the current type name |
| LinkShapes.SlashInternalAtHead | campbot/processors/bbcode.py:638-652 | a `[[/type/id…` head is matched and rewritten without the slash |
| LinkShapes.SlashInternalAtShape | campbot/processors/bbcode.py:638-652 | every slash-head match has that shape |
| LinkShapes.FalseInternalAtHead | campbot/processors/bbcode.py:622-636 | a `[[http(s)://…camptocamp.org/type/id…` head is matched and rewritten as an internal link |
| LinkFixtures.FalseLinkCorrected | campbot/processors/bbcode.py:622-636 | the corrector turns such a head into an internal link and keeps the caption |
| LinkFixtures.SlashLinkCorrected | campbot/processors/bbcode.py:638-652 | the corrector drops the leading slash |
| LinkFixtures.NoTypeLinkCorrected | campbot/processors/bbcode.py:603-620 | the corrector gives an untyped head its type's path |
| LinkFixtures.SiteLink | campbot/processors/bbcode.py:622-636 | a link to the old site becomes the internal link with the same path |
| LinkFixtures.FixtureRouteId | campbot/processors/bbcode.py:568-569 | the link to id 786432 with caption `patate`, a route, gets the `routes/` path |
| LinkFixtures.FixtureUnknownId | campbot/processors/bbcode.py:603-620 | with no known type it is kept |
| LinkFixtures.FixtureOtherLetter | campbot/processors/bbcode.py:603-620 | with a user type it raises `KeyError` |
| LinkFixtures.FixtureSlash | campbot/processors/bbcode.py:572-573 | the link `[[/routes/786432…` loses its leading slash |
| LinkFixtures.FixtureArticle | campbot/processors/bbcode.py:576-577 | the article fixture passes |
| LinkFixtures.FixtureRoute | campbot/processors/bbcode.py:580-581 | the route fixture passes |
| LinkFixtures.FixtureImage | campbot/processors/bbcode.py:584-585 | the image fixture passes |
| LinkFixtures.FixtureAnchor | campbot/processors/bbcode.py:588-589 | the fixture with an anchor passes |
| Config.ParseDescription | campbot/processors/__init__.py:26-39 | the loop over the description's lines gives what the line-by-line reader gives |
| Config.ReadGroups | campbot/processors/__init__.py:17-39 | reading every locale gives what the reader over the locales gives |
| Config.ParseGroups | campbot/processors/__init__.py:26-39 | one group per header line, in order, each with the locale's language; earlier groups are kept |
| Config.StepGroups | campbot/processors/__init__.py:26-39 | one line adds a group exactly when it is a header and only touches the open group |
| Config.ParseFailsAt | campbot/processors/__init__.py:35-39 | an indented, non-blank line after a header that does not split into exactly two parts at `>>` makes reading raise |
| Config.ParseFailsWhere | campbot/processors/__init__.py:35-39 | reading raises only `ValueError`, and only when there is such a line |
| Config.NoHeaderNoGroups | campbot/processors/__init__.py:31-39 | a description without a header line adds nothing, whatever its other lines |
| Config.EntryAdds | campbot/processors/__init__.py:35-39 | `old >> new` adds the stripped pair to the last group |
| Config.HeaderComment | campbot/processors/__init__.py:31-33 | a header opens a group whose comment is the line without its leading `#` and spaces |
| Config.Filled | campbot/processors/__init__.py:44-48 | only groups with replacements become processors, in order |
| Config.BuildProcessors | campbot/processors/__init__.py:41-59 | `DiacriticsFix`, then one `AutomaticReplacements` per filled group, then the three BBCode processors when asked, then the five fixed tail processors |
| Config.GetAutomaticReplacements | campbot/processors/__init__.py:16-61 | raises exactly when the description is malformed; otherwise the processor list has that order |
| Differ.Flattener.constructor | campbot/differ.py:44 | the result dictionary starts empty |
| Differ.Flattener.Worker | campbot/differ.py:46-62 | the worker succeeds exactly when the reference flattening does, and leaves its result |
| Differ.Flattener.WorkEntries | campbot/differ.py:53-55 | the loop over a dictionary's entries agrees with the reference |
| Differ.Flattener.WorkItems | campbot/differ.py:57-59 | the loop over a list's items agrees with the reference |
| Differ.FlattenDocument | campbot/differ.py:38-66 | `flatten` returns the reference flattening |
| Differ.FlattenIsLeaves | campbot/differ.py:38-66 | flattening succeeds exactly when every value is `None`, a scalar, a dictionary or a list, and then writes every scalar leaf at its dotted/indexed path |
| Differ.FailureIsException | campbot/differ.py:61-62 | an unsupported value raises `Exception` |
| Differ.LeavesUnderPath | campbot/differ.py:53-59 | every leaf's path starts with the path of the value containing it |
| Differ.GetDiffReport | campbot/differ.py:4-35 | the report loop returns the reference report |
| Differ.ReportKeys | campbot/differ.py:11-33 | the loop over the sorted keys returns the reference report |
| Differ.ReportSound | campbot/differ.py:11-33 | every line describes a real addition, removal or change of its key |
| Differ.ReportComplete | campbot/differ.py:11-33 | every key that differs gets a line |
| Differ.ReportOrdered | campbot/differ.py:11 | the lines come in sorted key order |
| Differ.ReportFailure | campbot/differ.py:19-20 | the report raises exactly when a string value becomes a number or boolean: `TypeError` for a short string, `AttributeError` for a long one |
| Differ.ReportOfSame | campbot/differ.py:18 | comparing a flattening with itself gives no line |
| Differ.SameDocumentNoReport | campbot/differ.py:4-35 | a document compared with itself gives an empty report |
| Differ.DiffReportSpec | campbot/differ.py:4-35 | the report is sound, sorted and complete |
| Differ.TypeChangeRaises | campbot/differ.py:19-20 | a key going from `"a"` to `1` raises `TypeError` |
| Differ.IntendedAgrees | campbot/differ.py:18-22 | the corrected report agrees with the original wherever that does not raise |
| Differ.IntendedSound | campbot/differ.py:18-22 | the corrected report is sound and reports every type change |
| Differ.UnionKeys | campbot/differ.py:8 | every key is a key of one side |
| Json.ReprString | campbot/differ.py:13 | `repr` of a string is quoted |
| Json.ReprPlain | campbot/differ.py:13 | `repr` of a printable string without backslash or single quote is the string between single quotes |
| Json.ReprPrintable | campbot/differ.py:13 | `repr` writes only printable characters: every other one is escaped |
| Json.ReprNoBreakSpace | campbot/differ.py:13 | a no-break space is written `\xa0` |
| Json.Sorted | campbot/differ.py:11 | `sorted` lists every key once, in increasing code-point order |
| Json.LessTotal | campbot/differ.py:11 | string order is total |
| Json.LessTrans | campbot/differ.py:11 | string order is transitive |
| Checkers.FormatDeltaReadsBack | campbot/checkers.py:27-34 | `**=**` exactly for zero; `<del>` for a loss, `<ins>` for a gain, and the signed number inside reads back as the delta |
| Checkers.DiffUrlParts | campbot/checkers.py:37-48 | the diff URL is the UI URL followed by path, `diff`, id, language, previous and current version |
| Checkers.VersionCallSpec | campbot/checkers.py:301-315 | a side without a document counts as fine; a side is bad only when the test says so on it; an error comes from one side's test |
| Checkers.ContributionCallSpec | campbot/checkers.py:321-338 | the old side is always fine; without both documents both sides are fine; otherwise the new side is the test's answer |
| Checkers.LengthVerdictIsRatio | campbot/checkers.py:355-356 | the new text passes exactly when the old length is zero or the new length is at least half of it |
| Checkers.LengthVerdictMonotone | campbot/checkers.py:355-356 | a longer new text still passes |
| Checkers.QualityTestSpec | campbot/checkers.py:487-488 | the quality test passes exactly when both sides have the same quality; it is symmetric |
| Checkers.OldSideAlwaysFine | campbot/checkers.py:361-372 | the length and quality tests never blame the old side, and the newbie test blames the new side exactly for newbies |
| Checkers.ContributionReport.Create | campbot/checkers.py:51-82 | the report's markers, flag and delta are those of the test outcomes and locale lengths; an error of a test or length is passed on |
| Checkers.ContributionReport.Add | campbot/checkers.py:72-79 | one outcome appends its marker and raises the flag on a regression |
| Checkers.OutcomeStep | campbot/checkers.py:72-79 | the markers of outcomes `+ [o]` are those of the outcomes plus o's; the flag is raised by o's regression |
| Checkers.OutcomesSpec | campbot/checkers.py:72-73 | the outcomes exist exactly when every test answers, one per test in order |
| Checkers.OutcomesStop | campbot/checkers.py:72-73 | the first test that raises stops the report |
| Checkers.EmojisSpec | campbot/checkers.py:72-79 | a regression shows its fail marker, a repair its success marker, and no other marker appears |
| Checkers.NothingChanged | campbot/checkers.py:75-79 | when no test changes its answer there is no marker and no report |
| Checkers.DocumentReport.constructor | campbot/checkers.py:137-145 | a document needs a report exactly when one of its contributions does |
| Checkers.ReStep | campbot/checkers.py:259-265 | only a `* Erreur` or `* Corrigé` line can raise: `IndexError` when it has no colon, `AttributeError` when no test has been opened yet |
| Checkers.WithPatterns | campbot/checkers.py:247-267 | only the tests with patterns are kept |
| Checkers.GetReTests | campbot/checkers.py:247-267 | the loop returns the reference reading, keeping the tests with patterns |
| Checkers.ReadLine | campbot/checkers.py:247-267 | one line is read as the reference step says |
| Checkers.ReadTestsCount | campbot/checkers.py:247-267 | one test per header line, earlier names kept |
| Checkers.ReadTestsNonBlank | campbot/checkers.py:247-267 | every pattern kept by the reader is non-blank once stripped |
| Checkers.ReTestsSpec | campbot/checkers.py:247-267 | a successful reading has one test per `#` header line, every test kept by `get_re_tests` is one of them and has a pattern, and every pattern is non-blank once stripped |
| Checkers.ReadTestsFails | campbot/checkers.py:247-267 | reading raises exactly when some marker line comes before every test, or has no colon and is not a pattern line |
| Objects.ConstructorLetters | campbot/objects.py:38-50 | the ten type letters give their document type and back; any other letter raises `KeyError` |
| Objects.UrlPath | campbot/objects.py:328-424 | every URL path is a non-empty path segment |
| Objects.UrlPathInjective | campbot/objects.py:328-424 | two document types never share a URL path |
| Objects.Attr | campbot/objects.py:63-75 | an attribute is read exactly when the key is present and not private |
| Objects.BotObject.constructor | campbot/objects.py:58-61 | an object holds its data and no attribute |
| Objects.BotObject.SetAttr | campbot/objects.py:77-81 | a key of the data updates the data; any other key becomes an attribute |
| Objects.LocaleTitle | campbot/objects.py:148-158 | with a prefix the title is `prefix : title`, without it the title itself; it raises when there is no title |
| Objects.LocaleFieldsDistinct | campbot/objects.py:160-175 | a locale has 13 distinct text fields |
| Objects.LocaleLength | campbot/objects.py:177-189 | the loop returns the total length of the text fields |
| Objects.TextLocaleHasLength | campbot/objects.py:177-189 | a locale whose text fields are strings or absent has a length |
| Objects.LengthIgnoresOtherFields | campbot/objects.py:177-189 | fields outside the list do not count |
| Objects.LengthOfUpdate | campbot/objects.py:177-189 | setting one text field changes the length by the difference of the two texts |
| Objects.FindLocaleFirst | campbot/objects.py:235-247 | the locale found is the first one in the language; none means no locale is; a locale without `lang` raises |
| Objects.GetLocaleSpec | campbot/objects.py:235-247 | a document without locales has none; the one returned is a locale of the document in that language |
| Objects.GetUrlParts | campbot/objects.py:209-219 | the URL is the UI URL followed by path, id and optional language |
| Objects.GetHistoryUrlParts | campbot/objects.py:221-229 | the history URL is the UI URL followed by path, `history`, id and language |
| Objects.IsValid | campbot/objects.py:299-304 | a document is valid exactly when it has no invalidity reason |
| Objects.WaypointReasons | campbot/objects.py:391-398 | a hut or gîte without custodianship, then a waypoint without elevation other than indoor climbing, are the invalid waypoints |
| Objects.WaypointScenario | campbot/objects.py:391-398 | a summit without elevation is invalid, with one it is valid, and a hut without custodianship is not |
| Objects.PersonalKinds | campbot/objects.py:306-427 | users, reports and outings are personal; areas, waypoints, maps, books and routes are not; articles and images depend on their type |
| IdFile.Clean | campbot/utils.py:5 | no space or newline is left |
| IdFile.KeyForSpec | campbot/utils.py:8-16 | a key exists exactly for the nine letters, and different letters give different keys |
| IdFile.ParseLine | campbot/utils.py:5-16 | a line reads as an id and a key when it has exactly two parts, an integer and a letter; otherwise `ValueError` or `KeyError` |
| IdFile.ParseFormatted | campbot/utils.py:5-16 | an id, a bar and a letter, with any padding, reads back as that id and the letter's key |
| IdFile.ParseTabbed | campbot/utils.py:5-20 | tabs and carriage returns around the id, which the cleaning keeps, are ignored by `int` |
| IdFile.GetIdsFromFile | campbot/utils.py:1-22 | the loop returns what the reference reading gives |
| IdFile.ReadSpec | campbot/utils.py:18-20 | each key maps to its ids in file order |
| IdFile.ReadFromFails | campbot/utils.py:4-20 | reading raises exactly when some line is malformed |
| IdFile.ReadFromError | campbot/utils.py:4-20 | the exception is that of the first malformed line |
| Grouping.AppendAllSpec | campbot/core.py:468-472 | each key's list is its old list followed by its values in order |
| Grouping.InsertAllSpec | campbot/core.py:468-472 | the keys are the old ones followed by the new ones once each, in first-seen order |
| Grouping.FirstAtIsFirst | campbot/core.py:469 | the first position of a key has no earlier copy |
| Bot.UiUrlOfCamptocamp | campbot/core.py:106-108 | the UI URL of the camptocamp API is the `www` site |
| Bot.PostIds | campbot/core.py:246-252 | the parser raises only `IndexError`, `AssertionError` or `ValueError` |
| Bot.PostIdsOfTopic | campbot/core.py:246-252 | a topic URL gives its topic id and its post number, 1 when absent |
| Bot.PostIdsNeedTopic | campbot/core.py:248 | a URL that is not a topic raises `AssertionError` |
| Bot.GetModifiedDocuments | campbot/core.py:461-474 | the loop returns the reference grouping |
| Bot.CollectIsGrouping | campbot/core.py:461-474 | the grouping is the kept contributions grouped by document |
| Bot.ModifiedDocuments | campbot/core.py:461-474 | the documents come once each in first-seen order, and each keeps its contributions in order |
| Bot.GroupedAreKept | campbot/core.py:464-466 | every grouped contribution is in the language, not of an image, outing or report, and not by an excluded user |
| Text.JoinSplit | campbot/processors/ltagmigrator.py:148 | joining a split text with its separator gives the text back |
| Text.SplitJoinChar | campbot/processors/ltagmigrator.py:150 | splitting joined lines without the separator gives the lines back |
| Text.NatToStringValue | campbot/processors/ltagmigrator.py:392 | the decimal string of a number reads back as the number |
| Text.NatToStringInjective | campbot/processors/ltagmigrator.py:392 | different numbers have different decimal strings |
| Text.CanonicalRoundTrip | campbot/processors/ltagmigrator.py:318 | a digit string without leading zero is the string of its value |
| Text.ParseIntToString | campbot/utils.py:20 | `int` reads back `str` of an integer |
| Text.DigitsParse | campbot/utils.py:20 | a digit string, bare or after `+` or `-`, reads as its value |
| Text.ParsePadded | campbot/utils.py:20 | `int` ignores whitespace around the number |
| Text.ParseUnderscore | campbot/utils.py:20 | an underscore between digit groups does not change the value |
| Text.LStrip | campbot/processors/cleaners.py:16 | the result is a suffix whose first character is not stripped, and everything before it is |
| Text.RStrip | campbot/processors/cleaners.py:17 | the result is a prefix whose last character is not stripped, and everything after it is |

## Left out

- Everything that talks to the outside world: HTTP sessions, login,
  paging of the API, the CSV and console output, reading the id file from
  disk (the lines are a parameter), and the forum bot.
- `InternalLinkCorrector.__init__` dumps the document types from a file;
  the id-to-type map is a parameter.
- The `difflib` branch of `get_diff_report` and `print_diff`: a change of a
  long string is reported as one `LongChange` line, without its rendered
  line diff.
- Floating point: float scalars in `flatten`, `DistanceTest`, and the
  length ratio of `LengthTest`, which is stated on exact real numbers.
- Dates and the report formatting (`get_multi_report`, `get_mono_report`).
- `HistoryTest`, `MainWaypointTest`, `RouteTypeTest` and the other checker
  tests beyond length, quality and newbie.
- The regular expression engine itself: each pattern is written as a
  matcher that follows the pattern's structure, with `\d` and `isdigit`
  read as ASCII digits and `\w` approximated by letters, digits and `_`.
- The other `BBCodeRemover` rules (tables, lists, headers, quotes, other
  tags), and `invalid_killer`, which the source defines but never uses.
- `MultiplicationSign`, `SpaceBetweenNumberAndUnit` and
  `FixFakeExternalLinks`: only their place in the processor order is
  modelled.
- `LtagCleaner`'s own fixture list and its `do_tests` printing are not
  restated; its modifier is modelled and proved instead.
- `_tests = None` on a processor without fixtures: fixtures are always a
  sequence, possibly empty.
- Cleaners.InitModifiers: the configured `old` is matched as literal
  text, which is what `re` does only when it holds no regular-expression
  metacharacter; `new` is inserted verbatim, without `re.sub`'s backslash
  templates; an empty `old` replaces nothing, where `\b\b` matches at
  every word boundary.
- Cleaners.ReplacementsInOrder: stated over the same literal rules.
- Cleaners.WordAlone: stated for a literal word.
- Cleaners.WholeWordOnly: stated for a literal word.
- Cleaners.WordInText: stated for a literal word.
- Cleaners.EveryOccurrence: stated for a literal word with no border, that
  is no proper prefix that is also a suffix (`deja` has none, `aa` has
  one); bordered words are not covered.
- Json.ReprString: unassigned code points count as printable, where
  Python escapes them; the other non-printable categories follow
  Unicode 15.
- Text.ParseInt: reads ASCII digits only; the other Unicode decimal
  digits `int` accepts are the `ValueError` case.
- IdFile.ReadFromFails: through `Text.ParseInt`, an id in non-ASCII digits
  counts as malformed.
- IdFile.ReadFromError: the same.
- Bot.PostIds: the same for the post number.
- Processor.MarkdownProcessor.Call: requires the locale objects to be
  distinct; the same object listed twice is not modelled.
- Processor.FieldsFromSpec: a truthy field that is not a string is left
  alone, where `modify` would fail on it.
- LtagNumbering.LTagNumbering.Compute: `is_first_cell` is always true, as
  `convert` is the only caller; the other branch is not modelled.
- Checkers.OldSideAlwaysFine: whether a user is a newbie is a parameter.
- GuardProof.FixedRestores: stated for texts that do not contain the
  start-of-text control character the placeholders use.
- Python's backtracking corner cases beyond those each matcher follows.

## Findings

| source | as written | input that shows it | evidently intended | confidence | as-written member | corrected member |
|---|---|---|---|---|---|---|
| campbot/processors/ltagmigrator.py:320 | `last_offset[0]` on an empty last offset raises `IndexError`, which `compute` does not catch | `L#5-`, `L#-` | numbering becomes unsupported and the text is returned as it was, as `compute`'s docstring says of errors | not executed | LtagVectors.EmptyLastVectors | LtagVectors.EmptyLastIntended |
| campbot/processors/ltagmigrator.py:154 | `line[2]` on a two-character row raises `IndexError` | `L#` | a bare row is left alone | not executed | LtagCleaner.BareRowRaises | LtagCleaner.IntendedBareRow |
| campbot/processors/cleaners.py:146 | the pattern consumes the newline after the first header, so the next header cannot match | `# a:\n# b:` gives `# a\n# b:` | both colons are dropped | not executed | Cleaners.ColonSecondHeaderKept | Cleaners.RemoveColonBothHeaders |
| campbot/processors/cleaners.py:53-54 | placeholders are restored oldest first, so a placeholder inside a newer protected span is never restored | `http://[a](b)` with no modifier | the text comes back unchanged | not executed | GuardProof.AsWrittenNestedUrl | GuardProof.FixedNestedUrl |
| campbot/processors/bbcode.py:283-311 | the 4-, 5- and 6-line rules only write back the first three groups | `[b]a\nb\nc\nd[/b]` gives `**a\nb\nc**` | every line is kept | not executed | TypoCleaner.FourLineBoldAsWritten | TypoCleaner.FourLineBoldIntended |
| campbot/differ.py:19-20 | `len` of a number raises when a string value becomes a number | `"a"` becoming `1` raises `TypeError` | the change is reported | not executed | Differ.TypeChangeRaises | Differ.IntendedSound |
