# ABL index analyser, modelled in Dafny

The ABL index analyser reads Progress 4GL (ABL) programs and Progress data-definition (`.df`)
schemas. It reports, for each table access in the programs, which index of the table serves the
access. When no index does, it suggests a new index as an `ADD INDEX` block in `.df` format.
This project models its four sequential, I/O-free parts, and the glue between them, in Dafny:

- **Statement extraction** (`abl_analyzer.dfy`, module `AblAnalyzer`).
  - Three scanning passes find `FOR EACH|FIRST|LAST <table>`, `FIND [FIRST|LAST] <table>` and
    `CAN-FIND( [FIRST] <table> WHERE … )`.
  - Each statement gets its type, its table, a 1-based line number and its trimmed text.
  - CAN-FIND statements also get the de-duplicated `<table>.<field>` names of their where block.
  - The source-file and zip-file name tests are modelled too.
  - Each regular expression is a hand-written deterministic scanner over `seq<char>`; its doc
    comment gives the backtracking argument that justifies it.
  - Each `while (regex.exec(text))` loop is a method. It is proved equal to a function over the
    leftmost-match semantics of `exec`.
- **The `.df` parser** (`df_parser.dfy`, module `DfParser`).
  - A line-by-line state machine over `ADD TABLE`, `ADD FIELD … OF … AS`, `ADD INDEX … ON`,
    `PRIMARY` and `INDEX-FIELD`.
  - The TypeScript keeps the index being built as an object it has already pushed into the table,
    and mutates it through that alias. Here the current index is a (table, position) pair, and
    `ValidState` says it always names that table's last index.
- **The index advisor** (`index_advisor.dfy`, module `IndexAdvisor`).
  - `extractWhereFields` is a loop over a scanner for
    `\b(?:ident\.)?(ident)\s*(?:=|<>|>=|<=|>|<)`.
  - `analyzeIndexUsage` merges the schemas by overwrite, looks up each statement's table and
    derives its used fields.
  - It scores every index by its longest used prefix, keeps the first strict maximum, and falls
    back to a suggestion.
- **The suggestion generator** (`index_generator.dfy`, module `IndexGenerator`).
  - The LOGICAL and DATE heuristics.
  - `filterFieldsForIndex`: equality fields, then range fields, then logical fields up to seven in
    all.
  - `generateIndexDF`, which renders the block.
- **The round trip** (`round_trip.dfy`, module `RoundTrip`) connects the generator, the parser and
  the analyser. A generated block read back by the `.df` parser is exactly the index it describes.
  For any statement the analyser extracts, the advisor's suggestion reads back as the
  suggested index, and that index is compatible with the statement.

Shared pieces:

- `text.dfy` (module `Text`) holds the JavaScript string operations the code relies on:
  - `trim`, `trimEnd`, `split(/\r?\n/)`, `indexOf`, `includes` and `endsWith`;
  - ASCII case mapping;
  - `\s` as JavaScript defines it;
  - decimal rendering.
- `sequences.dfy` (module `Sequences`) holds `includes`-guarded `push`, which is also
  `Array.from(new Set(…))`.
- `wrappers.dfy` (module `Wrappers`) holds `Option`.

Where a behaviour of the code differs from what its comments suggest, the model follows the code:

- JavaScript `\s` matches line breaks, so `FOR\nEACH t …` is a FOR statement. The raw text of a
  FOR or FIND statement can therefore contain a line break between the keywords. What the model
  proves instead: the text from the table onward has no line break, and the FOR and FIND passes
  each yield at most one statement per line.
- In the pipeline, `filterFieldsForIndex(dfTable, used)` receives the parser's table, whose
  `fields` is an array. The lookup `fields[field]` then finds an entry only for a canonical array
  index such as `"0"`. For a field with a real name, the heuristics fall back to the
  `lg-`/`dt-` naming conventions (`PipelineLookup`, `NamedFieldsClassifiedByName`).
- The CAN-FIND field pattern at src/parsers/ablAnalyzer.ts:103 is built by pasting the table name
  into a `RegExp`. The table group `[A-Za-z0-9_\-]+` admits no metacharacter except `-`, which
  matches itself outside a class. So the model matches the table name literally, ignoring case.

## Model

| member | source | states |
|---|---|---|
| `AblAnalyzer.SourceAndZipExclusive` | src/parsers/ablAnalyzer.ts:26-38 | no file name is both an ABL source file (`.p`, `.w`, `.i`, `.cls`) and a zip archive |
| `AblAnalyzer.SourceFileIgnoresCase` | src/parsers/ablAnalyzer.ts:26-38 | both extension tests give the same answer for a name and its upper-cased form |
| `AblAnalyzer.IsSourceFile` | src/parsers/ablAnalyzer.ts:26-34 | computes whether the lower-cased name ends in `.p`, `.w`, `.i` or `.cls` |
| `AblAnalyzer.IsZipFile` | src/parsers/ablAnalyzer.ts:36-38 | computes whether the lower-cased name ends in `.zip` |
| `AblAnalyzer.SeparatorsAreLineBreaks` | src/parsers/ablAnalyzer.ts:56-59 | the separators `split(/\r\n\|\r\|\n/)` consumes, scanning left to right, are the line breaks counted from the end, with `\r\n`, lone `\r` and lone `\n` each counted once |
| `AblAnalyzer.LineNumberMonotone` | src/parsers/ablAnalyzer.ts:56-59 | `getLineNumber` is at least 1 and never decreases as the offset grows |
| `AblAnalyzer.LineNumberIncreases` | src/parsers/ablAnalyzer.ts:56-59 | a line break between two offsets gives the later offset a strictly larger line number |
| `AblAnalyzer.LineNumber` | src/parsers/ablAnalyzer.ts:56-59 | computes one more than the number of line breaks `split(/\r\n\|\r\|\n/)` finds in the text before the offset |
| `AblAnalyzer.ForAt` | src/parsers/ablAnalyzer.ts:44-45 | a FOR match starts with `FOR`, in any letter case, at a word boundary, and captures a non-empty `[A-Za-z0-9_-]` table inside the match; from the table on it runs to the end of the line |
| `AblAnalyzer.FindAt` | src/parsers/ablAnalyzer.ts:47-48 | the same for `FIND` with its optional qualifier |
| `AblAnalyzer.ForQualifierSpelling` | src/parsers/ablAnalyzer.ts:45 | a FOR qualifier, upper-cased, is `EACH`, `FIRST` or `LAST` |
| `AblAnalyzer.FindQualifierSpelling` | src/parsers/ablAnalyzer.ts:48 | a FIND qualifier, when present, upper-cased, is `FIRST` or `LAST` |
| `AblAnalyzer.CanFindTail` | src/parsers/ablAnalyzer.ts:50-52 | after the table, a CAN-FIND match ends at a `)` that is the first `)` after `where`: its where block holds no `)` |
| `AblAnalyzer.CanFindAt` | src/parsers/ablAnalyzer.ts:50-52 | a CAN-FIND match starts with `can-find` at a word boundary, captures its table, and ends at the first `)` of its where block |
| `AblAnalyzer.FirstMatch` | src/parsers/ablAnalyzer.ts:64 | `exec` from `lastIndex` reports a match of the scanner at or after `lastIndex` |
| `AblAnalyzer.FirstMatchIsLeftmost` | src/parsers/ablAnalyzer.ts:64 | no earlier offset at or after `lastIndex` matches |
| `AblAnalyzer.FirstMatchNone` | src/parsers/ablAnalyzer.ts:64 | when `exec` fails, no offset from `lastIndex` to the end matches |
| `AblAnalyzer.AllMatches` | src/parsers/ablAnalyzer.ts:64-75 | every match the loop visits is the scanner's match at its own offset, inside the text |
| `AblAnalyzer.AllMatchesOrdered` | src/parsers/ablAnalyzer.ts:64-75 | the matches the loop visits do not overlap and come in text order |
| `AblAnalyzer.AllMatchesComplete` | src/parsers/ablAnalyzer.ts:64-75 | every offset where the pattern matches is the start of a visited match or lies inside one |
| `AblAnalyzer.At` | src/parsers/ablAnalyzer.ts:44-52 | each pattern's match starts where asked and has that pattern's guarantees |
| `AblAnalyzer.ScannerReports` | src/parsers/ablAnalyzer.ts:44-52 | every match starts at the offset asked for and ends after it, within the text |
| `AblAnalyzer.Exec` | src/parsers/ablAnalyzer.ts:64 | `regex.exec(text)` with `lastIndex == from`: a match at or after `from`, with its pattern's guarantees |
| `AblAnalyzer.ExecIsLeftmost` | src/parsers/ablAnalyzer.ts:64 | the reported match is the pattern's match at its offset, and no earlier offset matches |
| `AblAnalyzer.ExecNoneMeansNoMatch` | src/parsers/ablAnalyzer.ts:64 | a failed `exec` means no offset from `from` on matches |
| `AblAnalyzer.Matches` | src/parsers/ablAnalyzer.ts:64-121 | the matches of one pass start at or after `from` and lie inside the text |
| `AblAnalyzer.MatchesFacts` | src/parsers/ablAnalyzer.ts:64-121 | each match of a pass is the pattern's match at its offset, with that pattern's guarantees |
| `AblAnalyzer.MatchesStep` | src/parsers/ablAnalyzer.ts:64-121 | one turn of a `while (exec)` loop: the match found, then the matches from its end |
| `AblAnalyzer.MatchesOrdered` | src/parsers/ablAnalyzer.ts:64-121 | the matches of a pass do not overlap and come in text order |
| `AblAnalyzer.MatchesComplete` | src/parsers/ablAnalyzer.ts:64-121 | no match of a pattern is skipped: every matching offset is covered by a visited match |
| `AblAnalyzer.FieldAt` | src/parsers/ablAnalyzer.ts:103 | `\b<table>\.([A-Za-z0-9_-]+)` at an offset ends after the offset, within the where block |
| `AblAnalyzer.FieldAtShape` | src/parsers/ablAnalyzer.ts:103 | a field match is `<table>.` (table matched case-insensitively, at a word boundary) followed by the longest run of identifier characters |
| `AblAnalyzer.FieldExec` | src/parsers/ablAnalyzer.ts:107 | the field loop's `exec` ends after `lastIndex`, within the block |
| `AblAnalyzer.FieldExecIsLeftmost` | src/parsers/ablAnalyzer.ts:107 | a reported field comes from a field match at an offset at or after `lastIndex`; a failure means no offset from `lastIndex` on matches |
| `AblAnalyzer.FieldNamesQualified` | src/parsers/ablAnalyzer.ts:103-112 | every name the field loop collects follows a `<table>.` qualifier in the where block |
| `AblAnalyzer.FieldNamesStep` | src/parsers/ablAnalyzer.ts:107-112 | one turn of the field loop: the name found, then the names from the end of its match |
| `AblAnalyzer.CollectFields` | src/parsers/ablAnalyzer.ts:103-112 | the loop with `includes`/`push` returns the de-duplicated field names of the block |
| `AblAnalyzer.CanFindFields` | src/parsers/ablAnalyzer.ts:103-112 | a CAN-FIND statement's used fields are the names the field loop collects, de-duplicated, in order of first occurrence |
| `AblAnalyzer.FieldNamesComplete` | src/parsers/ablAnalyzer.ts:103-112 | the field loop skips no match: every offset of the where block where the field pattern matches lies in the stretch one `exec` searched, from where it resumed to the end of the match it reported |
| `AblAnalyzer.FieldVisits` | src/parsers/ablAnalyzer.ts:107-111 | the `k`-th collected name comes from a field match between where the `k`-th `exec` resumed and where that match ends |
| `AblAnalyzer.StatementsOf` | src/parsers/ablAnalyzer.ts:64-121 | a pass pushes one statement per match |
| `AblAnalyzer.StatementsOfIndex` | src/parsers/ablAnalyzer.ts:64-121 | the `k`-th statement of a pass is built from the `k`-th match |
| `AblAnalyzer.StatementOf` | src/parsers/ablAnalyzer.ts:64-121 | computes the record a pass pushes for one match: its type from the qualifier, its table, the line of its start, its trimmed text (with ` [CAN-FIND]` and the de-duplicated field names for CAN-FIND) |
| `AblAnalyzer.Pass` | src/parsers/ablAnalyzer.ts:64-121 | computes one pass: the record of every match of its pattern, in text order |
| `AblAnalyzer.ForStatements` | src/parsers/ablAnalyzer.ts:64-75 | the FOR loop returns the FOR pass |
| `AblAnalyzer.FindStatements` | src/parsers/ablAnalyzer.ts:80-91 | the FIND loop returns the FIND pass |
| `AblAnalyzer.CanFindStatements` | src/parsers/ablAnalyzer.ts:96-121 | the CAN-FIND loop returns the CAN-FIND pass |
| `AblAnalyzer.ExtractStatementsFromSource` | src/parsers/ablAnalyzer.ts:40-124 | `extractStatementsFromSource` returns the FOR pass, then the FIND pass, then the CAN-FIND pass |
| `AblAnalyzer.ExtractedStatements` | src/parsers/ablAnalyzer.ts:40-124 | computes the FOR pass, then the FIND pass, then the CAN-FIND pass |
| `AblAnalyzer.StatementOfShape` | src/parsers/ablAnalyzer.ts:64-121 | a statement built from a match has its pass's type, table, line and raw-text shape |
| `AblAnalyzer.PassShape` | src/parsers/ablAnalyzer.ts:64-121 | FOR statements are typed FOR EACH/FIRST/LAST and FIND statements FIND [FIRST/LAST], both without used fields; CAN-FIND statements are typed FIND, end in ` [CAN-FIND]` and carry distinct used fields; every line number is at least 1 |
| `AblAnalyzer.ExtractionGroupedByPass` | src/parsers/ablAnalyzer.ts:64-121 | the output is grouped by pass, not merged by position: all FOR statements, then all FIND statements, then all CAN-FIND statements |
| `AblAnalyzer.ConcatenatedShapes` | src/parsers/ablAnalyzer.ts:64-121 | concatenating the three passes keeps each statement's pass shape at its position |
| `AblAnalyzer.ForTypeOfQualifier` | src/parsers/ablAnalyzer.ts:65-72 | `EACH`, `FIRST` and `LAST`, in any letter case, give FOR EACH, FOR FIRST and FOR LAST, each exactly for its qualifier |
| `AblAnalyzer.FindTypeOfQualifier` | src/parsers/ablAnalyzer.ts:81-88 | FIND comes from an absent qualifier and FIND FIRST/FIND LAST from `FIRST`/`LAST` in any case |
| `AblAnalyzer.ForType` | src/parsers/ablAnalyzer.ts:65-72 | computes FOR FIRST for `FIRST`, FOR LAST for `LAST` and FOR EACH otherwise, after upper-casing |
| `AblAnalyzer.FindType` | src/parsers/ablAnalyzer.ts:81-88 | computes FIND FIRST for `FIRST`, FIND LAST for `LAST` and FIND otherwise (an absent qualifier), after upper-casing |
| `AblAnalyzer.PassTypesFollowQualifier` | src/parsers/ablAnalyzer.ts:64-91 | every FOR statement's type is FOR EACH, FOR FIRST or FOR LAST exactly when its match's qualifier is `EACH`, `FIRST` or `LAST`; every FIND statement's type is FIND exactly when its match has no qualifier, FIND FIRST or FIND LAST exactly when it is `FIRST` or `LAST` |
| `AblAnalyzer.PassLinesIncrease` | src/parsers/ablAnalyzer.ts:44-91 | FOR and FIND matches run to the end of their line, so in each of those passes line numbers strictly increase: at most one statement per line |
| `AblAnalyzer.LaterLineMatch` | src/parsers/ablAnalyzer.ts:44-91 | a FOR or FIND match starting at or after another's end lies on a later line |
| `DfParser.Spaces1` | src/parsers/dfParser.ts:27 | `\s+` consumes at least one character and stays within the text |
| `DfParser.QuotedAt` | src/parsers/dfParser.ts:27 | `"([^"]+)"` captures the non-empty, quote-free text between two quotes |
| `DfParser.AddTableRecord` | src/parsers/dfParser.ts:27 | computes the `ADD TABLE` record with its quoted name, when `^ADD TABLE\s+"([^"]+)"` matches, ignoring case |
| `DfParser.AddFieldRecord` | src/parsers/dfParser.ts:38-40 | computes the `ADD FIELD` record with its name, table and type, when the `ADD FIELD … OF … AS` pattern matches |
| `DfParser.AddIndexRecord` | src/parsers/dfParser.ts:59 | computes the `ADD INDEX` record with its name and table, when the `ADD INDEX … ON` pattern matches |
| `DfParser.IsPrimaryRecord` | src/parsers/dfParser.ts:79 | computes whether the line is `PRIMARY` and nothing else, ignoring case |
| `DfParser.IndexFieldRecord` | src/parsers/dfParser.ts:85 | computes the `INDEX-FIELD` record with its quoted field, when that pattern matches |
| `DfParser.ClassifyLine` | src/parsers/dfParser.ts:24-89 | computes the record of a trimmed line: blank when empty, else the first of the five patterns that matches, tried in the parser's order, else unrecognised |
| `DfParser.Step` | src/parsers/dfParser.ts:22-89 | every record keeps the current index pointing at the last index of an existing table |
| `DfParser.Parse` | src/parsers/dfParser.ts:22-90 | the fold over all lines keeps that invariant |
| `DfParser.ParseDf` | src/parsers/dfParser.ts:14-93 | the loop over the trimmed lines returns the fold of their records |
| `DfParser.ParseDfText` | src/parsers/dfParser.ts:14-93 | computes the tables of the fold of the records of the text's lines |
| `DfParser.ApplyRecord` | src/parsers/dfParser.ts:26-89 | the loop body's updates of `result.tables`, `currentTable` and `currentIndex` are one step of the state machine |
| `DfParser.WhiteSpaceLineIsBlank` | src/parsers/dfParser.ts:23-24 | a line of white space alone is skipped |
| `DfParser.StepIgnoresOtherLines` | src/parsers/dfParser.ts:23-24 | blank and unrecognised lines change nothing, not even the current index |
| `DfParser.StepAddTable` | src/parsers/dfParser.ts:27-35 | `ADD TABLE` makes the table exist, keeps what it held, leaves other tables alone and clears the current index |
| `DfParser.StepAddField` | src/parsers/dfParser.ts:38-56 | `ADD FIELD` appends `{name, lowercase(type)}` to the OF table, made if absent, whatever the current table, and keeps indexes and the current index |
| `DfParser.StepAddIndex` | src/parsers/dfParser.ts:59-76 | `ADD INDEX` appends a non-primary index with no fields to the ON table, made if absent, and makes it current |
| `DfParser.StepPrimary` | src/parsers/dfParser.ts:79-82 | without a current index `PRIMARY` leaves the state unchanged; with one, it sets that index's `primary` and keeps its name and fields, while every other table, the table's fields, its other indexes and the current table and index stay as they were |
| `DfParser.StepIndexField` | src/parsers/dfParser.ts:85-88 | without a current index `INDEX-FIELD` leaves the state unchanged; with one, that index's fields become the old fields plus the new field, its name and `primary` stay, and nothing else in the state changes |
| `DfParser.StepGrows` | src/parsers/dfParser.ts:22-89 | no record drops, renames or reorders a table, field or index, nor clears `primary` |
| `DfParser.StepKeys` | src/parsers/dfParser.ts:26-76 | a record makes a table exist exactly when it names that table |
| `DfParser.StepFields` | src/parsers/dfParser.ts:38-56 | a record adds to a table's fields exactly the field it declares for that table |
| `DfParser.StepIndexNames` | src/parsers/dfParser.ts:59-76 | a record adds to a table's index names exactly the index it declares on that table |
| `DfParser.IndexNames` | src/parsers/dfParser.ts:59-76 | one name per index |
| `DfParser.IndexNamesAgree` | src/parsers/dfParser.ts:79-88 | updating an index's flag or fields leaves the index names unchanged |
| `DfParser.ParseTableKeys` | src/parsers/dfParser.ts:22-90 | a table is in the result exactly when some record names it |
| `DfParser.ParseFieldsInOrder` | src/parsers/dfParser.ts:38-56 | a table's fields are exactly its `ADD FIELD` records, in text order |
| `DfParser.ParseIndexesInOrder` | src/parsers/dfParser.ts:59-76 | a table's indexes are exactly its `ADD INDEX` records, in text order, so there are as many as such lines |
| `IndexGenerator.DatetimeIsDate` | src/utils/indexGenerator.ts:34-38 | a type containing `DATETIME` contains `DATE`, so the `DATETIME` test never decides |
| `IndexGenerator.ClassOfCases` | src/utils/indexGenerator.ts:4-48 | the logical test is made before the date test: logical iff `isLogicalField`; range iff not logical and `DATE`, `D` or the `dt` tag; equality otherwise |
| `IndexGenerator.HasTag` | src/utils/indexGenerator.ts:18 | computes `/^ab[-_]/i`: at least three characters, the first two `a` and `b` in any case, then `-` or `_` |
| `IndexGenerator.IsLogicalField` | src/utils/indexGenerator.ts:4-23 | computes whether the upper-cased schema type contains `LOGICAL` or is `L`, or the name carries the `lg` tag |
| `IndexGenerator.IsDateField` | src/utils/indexGenerator.ts:25-48 | computes whether the upper-cased schema type contains `DATE` or `DATETIME` or is `D`, or the name carries the `dt` tag |
| `IndexGenerator.ClassOf` | src/utils/indexGenerator.ts:64-76 | computes the list a field is pushed onto: logical first, then range, else equality |
| `IndexGenerator.TagClasses` | src/utils/indexGenerator.ts:13-45 | for a field without a schema type: logical exactly when it carries the `lg` tag, range exactly when it carries the `dt` tag, equality exactly when it carries neither; no name carries both |
| `IndexGenerator.TagIgnoresCaseAndRest` | src/utils/indexGenerator.ts:18 | the `/^ab[-_]/i` tag test gives the same answer for a name and its upper-cased form, and looks only at the first three characters |
| `IndexGenerator.OfClass` | src/utils/indexGenerator.ts:64-76 | each of the three lists holds only fields of its class |
| `IndexGenerator.FilterFieldsForIndex` | src/utils/indexGenerator.ts:54-87 | the loop pushing into three lists, then the cut, returns the filtered fields |
| `IndexGenerator.OfClassConcat` | src/utils/indexGenerator.ts:64-76 | sorting a concatenation sorts each part |
| `IndexGenerator.OfClassUniform` | src/utils/indexGenerator.ts:64-76 | fields all of one class go whole to that class's list |
| `IndexGenerator.OfClassPartition` | src/utils/indexGenerator.ts:64-76 | the three lists together hold each input field exactly as often as the input |
| `IndexGenerator.PartitionStep` | src/utils/indexGenerator.ts:64-76 | one field of the loop keeps that partition |
| `IndexGenerator.OfClassMembers` | src/utils/indexGenerator.ts:64-76 | a field is in a class's list exactly when it is an input field of that class |
| `IndexGenerator.FilteredFieldsGroups` | src/utils/indexGenerator.ts:78-86 | the result is all equality fields, then all range fields, then the first `min(logical, 7 - base)` logical fields |
| `IndexGenerator.FilteredFields` | src/utils/indexGenerator.ts:78-86 | computes the equality and range fields, followed, when they number fewer than seven, by the first logical fields up to seven in all |
| `IndexGenerator.FilteredFieldsRanked` | src/utils/indexGenerator.ts:78-86 | in the result, equality fields come before range fields, and range fields before logical fields |
| `IndexGenerator.FilteredFieldsKeepOrder` | src/utils/indexGenerator.ts:64-86 | each group keeps its input order |
| `IndexGenerator.GroupsOfClass` | src/utils/indexGenerator.ts:78-86 | sorting three single-class groups gives each group back |
| `IndexGenerator.FilteredFieldsDropOnlyLogical` | src/utils/indexGenerator.ts:58-86 | every output field is an input field, used at most as often; every non-logical input field is kept |
| `IndexGenerator.FilteredFieldsLength` | src/utils/indexGenerator.ts:78-86 | with at least seven equality and range fields, exactly those; otherwise seven fields, or all when fewer than seven are used |
| `IndexGenerator.FewFieldsAllKept` | src/utils/indexGenerator.ts:62-86 | with at most seven used fields, the result is a permutation of them |
| `IndexGenerator.SubMultisetOfSameSize` | src/utils/indexGenerator.ts:62-86 | a sub-multiset of the same size is the whole multiset |
| `IndexGenerator.IndexDfLines` | src/utils/indexGenerator.ts:103-110 | four header lines plus one line per field |
| `IndexGenerator.GenerateIndexDF` | src/utils/indexGenerator.ts:93-113 | the `df +=` lines with `trimEnd` return the block's lines joined with line feeds, none after the last |
| `IndexGenerator.TrimEndOfTerminated` | src/utils/indexGenerator.ts:112 | `trimEnd` removes exactly the final line feed, since the last line ends in `"` or `G` |
| `IndexGenerator.TerminatedStep` | src/utils/indexGenerator.ts:103-110 | each `+=` appends one line and its line feed |
| `IndexGenerator.TerminatedJoin` | src/utils/indexGenerator.ts:103-112 | lines each followed by a line feed are the joined lines plus one line feed |
| `IndexGenerator.JoinLinesSnoc` | src/utils/indexGenerator.ts:103-112 | joining one more line adds a line feed and that line |
| `IndexGenerator.JoinLinesLastChar` | src/utils/indexGenerator.ts:112 | the joined text ends with the last line's last character |
| `IndexGenerator.TrimEndNewline` | src/utils/indexGenerator.ts:112 | `trimEnd` of a text plus a line feed, when the text ends outside white space, is the text |
| `IndexGenerator.SafeIndexNameShape` | src/utils/indexGenerator.ts:99-100 | a given non-empty name is kept; otherwise the name is `<table>__ai` and four digits whose value is the suffix |
| `IndexGenerator.EffectiveIndexNumNonZero` | src/utils/indexGenerator.ts:101 | the index number is never 0; it is 99 exactly when absent, 0 or 99 |
| `IndexGenerator.SafeIndexName` | src/utils/indexGenerator.ts:99-100 | computes the given name when present and non-empty, else `<table>__ai` and the four-digit suffix |
| `IndexGenerator.EffectiveIndexNum` | src/utils/indexGenerator.ts:101 | computes the given number when present and non-zero, else 99 |
| `IndexGenerator.HeaderLines` | src/utils/indexGenerator.ts:103-106 | computes the `ADD INDEX`, `AREA`, `INDEX-NUM` and `FOREIGN-NAME` lines |
| `IndexGenerator.IndexFieldLine` | src/utils/indexGenerator.ts:108-110 | computes the `INDEX-FIELD "<field>" ASCENDING` line |
| `IndexGenerator.IndexDfText` | src/utils/indexGenerator.ts:93-113 | computes the header and field lines under the chosen name and number, joined with line feeds |
| `IndexAdvisor.OperatorLength` | src/parsers/indexAdvisor.ts:28 | an operator found at an offset lies within the text |
| `IndexAdvisor.FieldAt` | src/parsers/indexAdvisor.ts:27-28 | a where-field match captures identifier characters and ends after a comparison operator |
| `IndexAdvisor.FieldAtShape` | src/parsers/indexAdvisor.ts:27-28 | the field stands at the match start or right after `qualifier.`, is an identifier, and is followed by optional white space and an operator |
| `IndexAdvisor.ExecBy` | src/parsers/indexAdvisor.ts:33 | `exec` from `lastIndex` reports a match at or after `lastIndex`, within the clause |
| `IndexAdvisor.CapturesBySound` | src/parsers/indexAdvisor.ts:33-36 | every field the loop collects is captured by a match inside the clause |
| `IndexAdvisor.ExecByLeftmost` | src/parsers/indexAdvisor.ts:33 | no offset between `lastIndex` and the reported match matches |
| `IndexAdvisor.MatchesBy` | src/parsers/indexAdvisor.ts:33-36 | every match the loop visits is the scanner's match at its own offset, at or after the start and inside the clause |
| `IndexAdvisor.CapturesByMatches` | src/parsers/indexAdvisor.ts:33-36 | the `k`-th field the loop collects is the capture of the `k`-th visited match |
| `IndexAdvisor.CapturesByOrdered` | src/parsers/indexAdvisor.ts:33-36 | the visited matches do not overlap and come in text order |
| `IndexAdvisor.CapturesByComplete` | src/parsers/indexAdvisor.ts:33-36 | every offset where the scanner matches lies inside a visited match |
| `IndexAdvisor.ExecByNone` | src/parsers/indexAdvisor.ts:33 | `exec` fails only when no offset from `lastIndex` on matches |
| `IndexAdvisor.FieldScannerWithin` | src/parsers/indexAdvisor.ts:27-28 | the where-field scanner reports matches only where asked, within the clause |
| `IndexAdvisor.FieldExec` | src/parsers/indexAdvisor.ts:33 | the where-field `exec` ends after `lastIndex`, within the clause |
| `IndexAdvisor.FieldsFromStep` | src/parsers/indexAdvisor.ts:33-36 | one turn of the loop: the field found, then the fields from the end of its match |
| `IndexAdvisor.WhereClauseStart` | src/parsers/indexAdvisor.ts:21-24 | there is no clause exactly when `where` occurs nowhere in any letter case; otherwise the clause starts just after its first occurrence |
| `IndexAdvisor.ExtractWhereFields` | src/parsers/indexAdvisor.ts:20-39 | the `exec` loop returns the where fields |
| `IndexAdvisor.WhereFieldsSound` | src/parsers/indexAdvisor.ts:20-39 | no `where` gives no fields; the fields are empty exactly when nothing in the clause matches; every field is an identifier captured by a match in the clause |
| `IndexAdvisor.ClauseFieldsInOrder` | src/parsers/indexAdvisor.ts:27-36 | the `k`-th field of a clause is the capture of the `k`-th visited where-field match, and these matches come in text order without overlap |
| `IndexAdvisor.ClauseFieldsComplete` | src/parsers/indexAdvisor.ts:27-36 | every offset of a clause where the where-field pattern matches lies inside a visited match |
| `IndexAdvisor.WhereFieldsComplete` | src/parsers/indexAdvisor.ts:20-39 | after `where`, the fields are the captures of the visited matches, one each, in text order and not de-duplicated, and every offset of the clause where the pattern matches lies inside a visited match |
| `IndexAdvisor.WhereFields` | src/parsers/indexAdvisor.ts:20-39 | computes no fields without `where`, else the fields of the loop over the text after its first occurrence |
| `IndexAdvisor.MatchCount` | src/parsers/indexAdvisor.ts:109-121 | `matchCount` is the length of the longest all-used prefix of the index fields, at most their number, and the next field is unused |
| `IndexAdvisor.MatchCountUnique` | src/parsers/indexAdvisor.ts:109-121 | those facts determine the count |
| `IndexAdvisor.MatchCountBounded` | src/parsers/indexAdvisor.ts:109-124 | for an index without repeated fields the count is at most the number of used fields; a perfect match covers exactly the used fields |
| `IndexAdvisor.BestIndexFor` | src/parsers/indexAdvisor.ts:107-135 | the index loop with its early `break` returns the chosen index |
| `IndexAdvisor.ChooseBestNone` | src/parsers/indexAdvisor.ts:123-137 | no index is chosen exactly when no index starts with a used field, which includes a table without indexes |
| `IndexAdvisor.ChooseBestFirstMaximum` | src/parsers/indexAdvisor.ts:123-134 | the chosen index has a positive count that no index exceeds, and every earlier index counts strictly less: ties go to the earliest |
| `IndexAdvisor.PickFirstMaximum` | src/parsers/indexAdvisor.ts:123-134 | the `!bestMatch \|\| matchCount > bestMatch.matchCount` test over the candidates' counts keeps the first strictly positive maximum, and ties never replace it |
| `IndexAdvisor.ChooseBestPerfect` | src/parsers/indexAdvisor.ts:124 | `isPerfect` holds exactly when the count equals the number of used fields |
| `IndexAdvisor.ChooseBest` | src/parsers/indexAdvisor.ts:107-135 | computes the loop's choice: each index, in order, with a positive count replaces the best so far when it has none or counts strictly more |
| `IndexAdvisor.Pick` | src/parsers/indexAdvisor.ts:123-134 | computes the same replacement rule over a list of candidates |
| `IndexAdvisor.NamedFieldsClassifiedByName` | src/utils/indexGenerator.ts:4-20 | in the pipeline, a field name with a non-digit finds no schema type, so only its `lg-`/`dt-` prefix classifies it |
| `IndexAdvisor.PipelineLookup` | src/utils/indexGenerator.ts:5-8 | computes `fields[field]` on the parser's array of fields: the type of the entry at a canonical array index below the length, nothing for any other key |
| `IndexAdvisor.Suffix` | src/utils/indexGenerator.ts:100 | the random part of a generated name lies in 1000..9999 |
| `IndexAdvisor.Analyses` | src/parsers/indexAdvisor.ts:69-157 | one report line per statement |
| `IndexAdvisor.AnalyzeStatement` | src/parsers/indexAdvisor.ts:71-156 | the body of the statement loop returns that statement's report line |
| `IndexAdvisor.AnalyzeIndexUsage` | src/parsers/indexAdvisor.ts:45-161 | `analyzeIndexUsage` returns the single warning line without schemas, else the report lines of all statements, file by file |
| `IndexAdvisor.IndexUsage` | src/parsers/indexAdvisor.ts:45-161 | computes the no-DF line without schemas, else the report line of every statement of every file over the merged tables |
| `IndexAdvisor.StatementAnalysis` | src/parsers/indexAdvisor.ts:71-156 | computes one report line: the missing-table warning, the not-enough-filters warning, the best index, or the no-compatible-index warning with its suggestion |
| `IndexAdvisor.AnalysesSnoc` | src/parsers/indexAdvisor.ts:69-157 | one more statement adds its report line at the end |
| `IndexAdvisor.MergeTablesLastWins` | src/parsers/indexAdvisor.ts:63-67 | a table is known exactly when some schema declares it, and the last schema that declares it supplies its definition |
| `IndexAdvisor.MergeTables` | src/parsers/indexAdvisor.ts:63-67 | computes the tables of every schema in turn, a later table replacing an earlier one of the same name |
| `IndexAdvisor.IndexUsageLines` | src/parsers/indexAdvisor.ts:52-157 | without schemas the report is one line with the no-DF warning and no used fields; otherwise one line per statement, in file and statement order, naming its table and text |
| `IndexAdvisor.FlattenCons` | src/parsers/indexAdvisor.ts:69-70 | the statements of all files are the first file's, then the rest |
| `IndexAdvisor.StatementAnalysisCases` | src/parsers/indexAdvisor.ts:71-156 | a line carries exactly one of a best index and a warning; a suggestion comes only with "No compatible index found."; the missing-table and not-enough-filters warnings arise exactly in their cases; used fields are reported exactly when the table exists and some field is used |
| `IndexAdvisor.UsedFieldsFacts` | src/parsers/indexAdvisor.ts:85-94 | the used fields are distinct, exactly the collected fields, in order of first use |
| `IndexAdvisor.UsedFields` | src/parsers/indexAdvisor.ts:85-94 | computes the de-duplicated analyser fields when there are some, else the de-duplicated where fields |
| `IndexAdvisor.BestIndexChosen` | src/parsers/indexAdvisor.ts:107-156 | a reported best index is the first with the largest positive count, perfect exactly when it covers all used fields |
| `IndexAdvisor.SuggestionMade` | src/parsers/indexAdvisor.ts:137-148 | a suggestion is made only for an existing table with used fields and no index starting with a used field; it is the block for the filtered used fields |
| `RoundTrip.IndexLineLaidOut` | src/utils/indexGenerator.ts:103 | where the name and the table stand on the first line |
| `RoundTrip.IndexLineMatch` | src/parsers/dfParser.ts:59-62 | the `ADD INDEX` pattern takes the name and the table back from that line |
| `RoundTrip.IndexLineRecord` | src/parsers/dfParser.ts:22-76 | the line is already trimmed and is an `ADD INDEX` record, not `ADD TABLE` or `ADD FIELD` |
| `RoundTrip.AreaLine` | src/utils/indexGenerator.ts:104 | the AREA line is no record |
| `RoundTrip.IndexNumLine` | src/utils/indexGenerator.ts:105 | the INDEX-NUM line is no record, whatever the number |
| `RoundTrip.ForeignNameLine` | src/utils/indexGenerator.ts:106 | the FOREIGN-NAME line is no record |
| `RoundTrip.FieldLineRecord` | src/parsers/dfParser.ts:85-88 | a generated field line is the `INDEX-FIELD` record of its field |
| `RoundTrip.IndexFieldLineRecord` | src/utils/indexGenerator.ts:108-110 | each `INDEX-FIELD` line trims to the record adding its field |
| `RoundTrip.BlockLine` | src/utils/indexGenerator.ts:103-110 | each line of a block is plain and holds its expected record |
| `RoundTrip.BlockLines` | src/utils/indexGenerator.ts:103-110 | a block's records are the index declaration, three ignored lines and one field record per field |
| `RoundTrip.ParseBlockRecords` | src/parsers/dfParser.ts:22-90 | folding those records builds one table with one index holding the fields read so far |
| `RoundTrip.ParseBlockField` | src/parsers/dfParser.ts:84-89 | an `INDEX-FIELD` line appends its field to the index the block opened and changes nothing else |
| `RoundTrip.ParseGeneratedBlock` | src/utils/indexGenerator.ts:103-112 | parsing a block whose names are non-empty and free of `"` and line feeds gives one table with no fields and one non-primary index with that name and exactly those fields, in order |
| `RoundTrip.BlockTextRecords` | src/parsers/dfParser.ts:15-24 | the generated block, split into lines and trimmed, classifies into its opening record, three ignored lines and one field record per field |
| `RoundTrip.ParseGeneratedIndexDf` | src/utils/indexGenerator.ts:93-113 | the same for `generateIndexDF`, under the name it chooses |
| `RoundTrip.SuggestionParsesBack` | src/parsers/indexAdvisor.ts:137-148 | a suggestion for an identifier table and identifier fields parses back to that table with one index named `<table>__ai<suffix>` over the filtered used fields |
| `RoundTrip.SuggestionIsCompatible` | src/parsers/indexAdvisor.ts:107-148 | the suggested index is never empty; as the table's only index it is chosen with all its fields matched, and it is perfect exactly when it keeps every used field |
| `RoundTrip.FieldNamesAreIdentifiers` | src/parsers/ablAnalyzer.ts:103-112 | every CAN-FIND used field is an identifier |
| `RoundTrip.PassNamesAreIdentifiers` | src/parsers/ablAnalyzer.ts:64-121 | every statement of a pass has an identifier table and identifier used fields |
| `RoundTrip.ExtractedNamesAreIdentifiers` | src/parsers/ablAnalyzer.ts:40-124 | the same for everything `extractStatementsFromSource` returns |
| `RoundTrip.ExtractedSuggestionParsesBack` | src/parsers/indexAdvisor.ts:137-148 | for every extracted statement, a suggestion parses back to exactly the suggested index |
| `Text.SkipSpaces` | src/parsers/dfParser.ts:27 | `\s*` stops at the first non-space |
| `Text.IdentEnd` | src/parsers/ablAnalyzer.ts:45 | `[A-Za-z0-9_\-]*` stops at the first non-identifier character |
| `Text.IndexOf` | src/parsers/indexAdvisor.ts:21 | `indexOf` finds the first occurrence, or -1 when there is none |
| `Text.TrimStartShape` | src/parsers/dfParser.ts:23 | `trim` removes exactly the leading white space |
| `Text.TrimEndShape` | src/utils/indexGenerator.ts:112 | `trimEnd` removes exactly the trailing white space |
| `Text.UpperOfMatch` | src/parsers/ablAnalyzer.ts:65 | a piece of text that matches a word ignoring case upper-cases to the word upper-cased |
| `Text.SplitJoinLines` | src/parsers/dfParser.ts:15 | `split(/\r?\n/)` gives back lines joined with line feeds when none holds a line feed or ends in `\r` |
| `Text.SplitFirstLine` | src/parsers/dfParser.ts:15 | `split(/\r?\n/)` takes off exactly the first line, up to the first line feed, when that line holds no line feed and does not end in `\r` |
| `Text.DigitsValueOfNatToString` | src/utils/indexGenerator.ts:100 | the decimal rendering of a number reads back as that number |
| `Sequences.Dedup` | src/parsers/indexAdvisor.ts:94 | de-duplication keeps exactly the same elements, without repetition |
| `Sequences.DedupFirstOccurrenceOrder` | src/parsers/indexAdvisor.ts:94 | de-duplication keeps elements in order of first occurrence |
| `Sequences.DedupOfDistinct` | src/parsers/indexAdvisor.ts:94 | de-duplicating a list without repetitions changes nothing |

## Left out

- File reading and zip expansion are not modelled: `readSourceFile`, `readSourceFilesFromZip`,
  `analyzeProgramFiles` (src/parsers/ablAnalyzer.ts:126-200) and `parseDfFiles`
  (src/parsers/dfParser.ts:95-110) are asynchronous I/O. The model takes the texts as inputs.
- The React UI (src/App.tsx, src/components/) has no algorithmic content.
- Logging callbacks and `console` output are left out.
- `Math.random` becomes the parameter `draw`, and report line `n` uses `1000 + draw(n) % 9000`. Any
  sequence of random draws is one such function, so every behaviour of the code is covered.
- JavaScript `Record` prototype keys, such as a table named `constructor` or `__proto__`: tables
  are a Dafny `map`, which has no inherited keys.
- Case mapping is ASCII only: `toLowerCase` and `toUpperCase` are modelled on `A`–`Z`. Some
  non-ASCII mappings are not modelled: those that change the length (`İ` lowercases to two code
  units, `ß` uppercases to `SS`) and those that land in ASCII (the Kelvin sign lowercases to `k`).
  Such a mapping can shift the offset where `extractWhereFields` cuts its clause, or change a type
  or qualifier comparison. The `/i` patterns themselves are exact: a non-unicode JavaScript
  regular expression never folds a non-ASCII character onto an ASCII one.
- `RoundTrip.ParseGeneratedBlock`: the round trip is stated only for table, index and field names
  that are non-empty and hold no `"` and no line feed. Other names do not read back, because the
  `.df` patterns capture `[^"]+`. A `\r` inside a name is harmless: every generated line ends in
  `"`, a digit or `G`, so `split(/\r?\n/)` never takes it as part of a line break.
- `IndexGenerator.EffectiveIndexNum`: `indexNum || 99` is modelled for integers only. A `NaN` or
  fractional `indexNum`, and how JavaScript prints it, are not modelled. The advisor always omits
  the number.
