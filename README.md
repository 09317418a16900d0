# ACFT score calculator — Dafny model

This project models the scoring core of an Army Combat Fitness Test (ACFT)
calculator. The calculator reads a scoring standards table: one header line,
then one data row per points value from 100 down to 0, with one column per
event. It converts each event's column into a *points mapping*, which is an
ordered list of `(points, value)` pairs. A raw result (pounds, repetitions
or a minutes:seconds time) is scored by scanning that mapping for the first
entry the result meets.

The model has six modules, one per source file or component:

- `Errors` (`errors.dfy`): the `csvReadingFailure` error with its four
  reasons, plus `Option` and `Result`. These stand in for Swift's failable
  initialisers and thrown errors.
- `Text` (`text.dfy`): `components(separatedBy:)` with a one-character
  separator, its inverse `Join`, and the integer initialiser `Int(String)`
  used by `StringInitializable`.
- `RecordedTimes` (`recorded_time.dfy`): the `RecordedTime` value, its
  lexicographic `<` and its `"M:S"` parser.
- `CSV` (`csv_reader.dfy`): `CSVReader.readRows` and `readColumn`. The file
  contents are passed in as a string.
- `Scoring` (`scoring.dfy`): `compactMapACFTColumnToPointsMapping` and the
  generic lookup `calculatePoints(forValue:pointsMapping:order:)`. The lookup
  is a recursive specification function, `Lookup`, plus the scanning loop,
  `CalculatePointsForValue`, which is proved equal to it.
- `Calculator` (`acft_calculator.dfy`): the `ACFTEvent` cases, the
  calculator's tables, `init()` and `calculatePoints(for:)`.

Modelling choices:

- **Immutable calculator.** The Swift calculator is a class whose `let`
  fields are set once in `init` and never changed. It is modelled as an
  immutable datatype, and `init() throws` becomes `Init`, a function that
  returns a `Result`.
- **One lookup for both types.** The lookup is written once over a value
  type `T` and its `<`. Ascending columns test `input <= value` and
  descending columns test `input >= value`. Both tests are derived from `<`
  the way Swift's `Comparable` derives them: `a <= b` is `!(b < a)`.
- **The scan keeps its loop.** The early-return `for`-in scan is a `method`
  with a loop invariant. `Score` is the function that specifies the event
  dispatch, and `CalculatePoints` is the method that runs it.
- **Behaviour of this revision the model keeps:**
  - Only six events are scored. The standing power throw column is read
    and kept as raw strings but never scored.
  - The time parser applies no seconds range check: `"1:75"` parses.
  - A column whose cells are all blank gives an empty mapping, with no
    error. Every result in that event then scores 0.
  - `invalidData` carries no payload.
  - `dataConversionFailed` carries the target type and the cell's text.

## Model

| member | source | states |
|---|---|---|
| `Text.Split` | ACFTCalculator/Sources/ACFTCalculator/Models/CSVReader.swift:40 | splitting always yields at least one piece, so removing the header never empties a non-existent list |
| `Text.SplitCount` | ACFTCalculator/Sources/ACFTCalculator/Models/CSVReader.swift:40-44 | the number of pieces is the number of separators plus one |
| `Text.SplitPiecesExcludeSeparator` | ACFTCalculator/Sources/ACFTCalculator/Models/CSVReader.swift:40-46 | no piece contains the separator |
| `Text.JoinSplit` | ACFTCalculator/Sources/ACFTCalculator/Models/CSVReader.swift:40-46 | joining the pieces with the separator gives back the original text |
| `Text.SplitJoin` | ACFTCalculator/Sources/ACFTCalculator/Models/RecordedTime.swift:35 | splitting undoes joining when no piece contains the separator |
| `Text.ParseInt` | ACFTCalculator/Sources/ACFTCalculator/Protocols/StringInitializable.swift:15-22 | a successful parse comes from an optional sign followed by decimal digits, and its value fits a 64-bit `Int` |
| `Text.ParseIntToString` | ACFTCalculator/Sources/ACFTCalculator/Protocols/StringInitializable.swift:15-22 | every 64-bit `Int`, written in decimal, parses back to itself |
| `RecordedTimes.Less` | ACFTCalculator/Sources/ACFTCalculator/Models/RecordedTime.swift:19-27 | one time is before another exactly when its minutes are smaller, or its minutes are equal and its seconds smaller; a time is never before itself and never before a time with fewer minutes |
| `RecordedTimes.ComparableExamples` | ACFTCalculator/Tests/ACFTCalculatorTests/RecordedTimeTests.swift:14-26 | 1:30 is before 10:30, 10:29 is before 10:30, and 1:30 equals itself and is before itself in neither direction |
| `RecordedTimes.LessIsStrictOrder` | ACFTCalculator/Sources/ACFTCalculator/Models/RecordedTime.swift:19-27 | `<` is irreflexive and transitive |
| `RecordedTimes.LessTrichotomy` | ACFTCalculator/Sources/ACFTCalculator/Models/RecordedTime.swift:10-27 | exactly one of `a < b`, `a == b`, `b < a` holds (memberwise `==`) |
| `RecordedTimes.LessMatchesElapsedTime` | ACFTCalculator/Sources/ACFTCalculator/Models/RecordedTime.swift:19-27 | on times whose seconds lie in 0..59, `<` agrees with comparing elapsed seconds |
| `RecordedTimes.LessIgnoresSecondsOverflow` | ACFTCalculator/Sources/ACFTCalculator/Models/RecordedTime.swift:19-27 | with seconds unchecked, 1:75 orders before 2:10 although it is the longer time |
| `RecordedTimes.Parse` | ACFTCalculator/Sources/ACFTCalculator/Models/RecordedTime.swift:34-47 | a parsed time came from text with exactly one colon; minutes and seconds are the integer values of the two components |
| `RecordedTimes.ParseNeedsOneColon` | ACFTCalculator/Sources/ACFTCalculator/Models/RecordedTime.swift:35-37 | text with no colon, or with more than one, does not parse |
| `RecordedTimes.ParseComponents` | ACFTCalculator/Sources/ACFTCalculator/Models/RecordedTime.swift:34-47 | `"M:S"` parses to minutes M and seconds S exactly when both are integers, with no range check |
| `RecordedTimes.ParseFormat` | ACFTCalculator/Sources/ACFTCalculator/Models/RecordedTime.swift:34-47 | rendering any time as `"M:S"` and parsing it gives the same time |
| `RecordedTimes.ParseLeadingZeroSeconds` | ACFTCalculator/Sources/ACFTCalculator/Models/RecordedTime.swift:34-47 | `"3:05"` parses to 3 minutes 5 seconds |
| `RecordedTimes.ParseSecondsOutOfRange` | ACFTCalculator/Sources/ACFTCalculator/Models/RecordedTime.swift:34-47 | `"1:75"` parses to 1 minute 75 seconds |
| `RecordedTimes.ParseWrongComponentCount` | ACFTCalculator/Sources/ACFTCalculator/Models/RecordedTime.swift:35-37 | `"3:5:2"` and `"305"` do not parse |
| `RecordedTimes.ParseNonNumericMinutes` | ACFTCalculator/Sources/ACFTCalculator/Models/RecordedTime.swift:38-42 | `"abc:12"` does not parse |
| `CSV.ProjectColumn` | ACFTCalculator/Sources/ACFTCalculator/Models/CSVReader.swift:55-61 | succeeds exactly when every row has a cell at the index; the result holds that cell of each row in row order; otherwise `columnOutOfBounds(index)` |
| `CSV.CSVReader.ReadRows` | ACFTCalculator/Sources/ACFTCalculator/Models/CSVReader.swift:39-47 | there is one row per line, minus the header when it is removed; every row has at least one cell; no cell holds `","` or `"\n"`; with the header kept, joining the rows reproduces the contents |
| `CSV.CSVReader.ReadColumn` | ACFTCalculator/Sources/ACFTCalculator/Models/CSVReader.swift:54-62 | succeeds exactly when every row has cell `index`; element j is cell `index` of row j; otherwise `columnOutOfBounds(index)` |
| `CSV.HeaderRemovalDropsFirstRow` | ACFTCalculator/Sources/ACFTCalculator/Models/CSVReader.swift:42-44 | removing headers drops exactly the first row |
| `CSV.TrailingNewlineBreaksColumns` | ACFTCalculator/Sources/ACFTCalculator/Models/CSVReader.swift:46-59 | contents ending in `"\n"` end with the one-cell row `[""]`, so reading any column other than 0 fails with `columnOutOfBounds` |
| `CSV.ReadTwoRowsOfThree` | ACFTCalculator/Sources/ACFTCalculator/Models/CSVReader.swift:34-47 | two lines of three cells, as in the documented example, read as two three-cell rows, or as the second row alone without the header |
| `Scoring.Lookup` | ACFTCalculator/Sources/ACFTCalculator/Models/ACFTCalculator.swift:115-133 | the result is 0 or the points of some entry of the mapping |
| `Scoring.CalculatePointsForValue` | ACFTCalculator/Sources/ACFTCalculator/Models/ACFTCalculator.swift:115-133 | the early-return scan returns exactly the points `Lookup` specifies |
| `Scoring.LookupFirstMatch` | ACFTCalculator/Sources/ACFTCalculator/Models/ACFTCalculator.swift:118-128 | the points of the first entry the input meets (`<=` ascending, `>=` descending) are returned |
| `Scoring.LookupNoMatch` | ACFTCalculator/Sources/ACFTCalculator/Models/ACFTCalculator.swift:118-132 | an input meeting no entry scores 0 |
| `Scoring.LookupInRange` | ACFTCalculator/Sources/ACFTCalculator/Models/ACFTCalculator.swift:109-133 | on a valid mapping the points lie in 0..100 |
| `Scoring.QualifiesForBetter` | ACFTCalculator/Sources/ACFTCalculator/Models/ACFTCalculator.swift:118-128 | under a strict total order, a result at least as good as one that meets an entry meets it too |
| `Scoring.LookupMonotone` | ACFTCalculator/Sources/ACFTCalculator/Models/ACFTCalculator.swift:118-132 | on a mapping whose points strictly decrease, a better input never scores fewer points, for either order |
| `Scoring.LookupAtOrBeyondBest` | ACFTCalculator/Sources/ACFTCalculator/Models/ACFTCalculator.swift:118-128 | an input at least as good as the first value earns the first entry's points |
| `Scoring.LookupBeyondWorst` | ACFTCalculator/Sources/ACFTCalculator/Models/ACFTCalculator.swift:118-132 | with strictly ordered values, an input worse than the last value scores 0 |
| `Scoring.LookupAtListedValue` | ACFTCalculator/Sources/ACFTCalculator/Models/ACFTCalculator.swift:118-128 | with strictly ordered values, an input equal to a listed value earns that entry's points |
| `Scoring.ConvertCells` | ACFTCalculator/Sources/ACFTCalculator/Models/ACFTCalculator.swift:148-165 | succeeds exactly when every non-blank cell parses; then the entries are the non-blank cells in column order, each worth 100 minus its index and holding its cell's parse; otherwise the error names a non-blank cell that does not parse |
| `Scoring.ConvertCellsStep` | ACFTCalculator/Sources/ACFTCalculator/Models/ACFTCalculator.swift:150-164 | a blank cell adds nothing and a parsed cell adds one entry in front |
| `Scoring.CompactMapColumnToPointsMapping` | ACFTCalculator/Sources/ACFTCalculator/Models/ACFTCalculator.swift:142-166 | fails with `invalidData` exactly when the column does not have 101 cells; succeeds exactly when it does and every non-blank cell parses; then points lie in 0..100 and strictly decrease, the length is the number of non-blank cells (at most 101), and each entry holds the parse of cell `100 - points`; with 101 cells, failure names a non-blank cell that does not parse |
| `Scoring.ConversionFailsAtFirstBadCell` | ACFTCalculator/Sources/ACFTCalculator/Models/ACFTCalculator.swift:148-157 | the first non-blank cell that does not parse aborts conversion with `dataConversionFailed` carrying that cell's text |
| `Scoring.EveryFilledCellHasEntry` | ACFTCalculator/Sources/ACFTCalculator/Models/ACFTCalculator.swift:148-164 | every non-blank cell at index i has an entry worth `100 - i` points |
| `Scoring.ConvertCellsCoversFilledCells` | ACFTCalculator/Sources/ACFTCalculator/Models/ACFTCalculator.swift:148-164 | from any starting index, every later non-blank cell i has an entry worth `100 - i`, and the lemma names its position |
| `Calculator.TimeLessIsStrictTotalOrder` | ACFTCalculator/Sources/ACFTCalculator/Models/RecordedTime.swift:17-27 | `RecordedTime`'s `<` is a strict total order, as `Comparable` requires |
| `Calculator.ACFTCalculator.Score` | ACFTCalculator/Sources/ACFTCalculator/Models/ACFTCalculator.swift:80-106 | when every table is a valid mapping, any event scores between 0 and 100 |
| `Calculator.ACFTCalculator.CalculatePoints` | ACFTCalculator/Sources/ACFTCalculator/Models/ACFTCalculator.swift:80-106 | dispatching through the scan gives `Score`, within 0..100 on valid tables |
| `Calculator.TableOfRows` | ACFTCalculator/Sources/ACFTCalculator/Models/ACFTCalculator.swift:142-166 | reading column `col` and converting it succeeds exactly when there are 101 rows, every row has the column and every non-blank cell converts. On success the mapping is valid; its entry worth p points is the converted cell of row 100 − p, and every non-blank cell has an entry. A row without the column fails with `columnOutOfBounds(col)`. Wide enough rows that are not 101 fail with `invalidData`. Otherwise the error is `dataConversionFailed` with the text of a non-blank cell that does not convert |
| `Calculator.ReadTable` | ACFTCalculator/Sources/ACFTCalculator/Models/ACFTCalculator.swift:50-51 | the same success condition, table contents and errors, for one column of the scoring standards with the header removed |
| `Calculator.Init` | ACFTCalculator/Sources/ACFTCalculator/Models/ACFTCalculator.swift:47-69 | succeeds exactly when there are 101 data rows, every row has all eight columns and every non-blank cell of the six scored columns converts (`Int` for weights and repetitions, `M:S` for times). On success all six tables are valid; each holds exactly the converted non-blank cells of its column, each worth 100 minus its row index; the standing power throw holds column 2 of each data row, unchanged |
| `Calculator.InitRejectsRowMissingDeadlift` | ACFTCalculator/Sources/ACFTCalculator/Models/ACFTCalculator.swift:50 | a data row with no deadlift cell makes `init` fail with `columnOutOfBounds(1)` |
| `Calculator.ConvertedColumnFacts` | ACFTCalculator/Sources/ACFTCalculator/Models/ACFTCalculator.swift:142-166 | converting a column projected out of the rows succeeds exactly when there are 101 rows and every non-blank cell converts; on success the table holds exactly those cells; on failure the error names a cell that does not convert |
| `Calculator.ScoreMonotone` | ACFTCalculator/Sources/ACFTCalculator/Models/ACFTCalculator.swift:81-106 | on valid tables, more pounds, more repetitions, a longer plank, or a faster sprint-drag-carry or two-mile run never scores fewer points |
| `Calculator.ScoreReadsOwnTable` | ACFTCalculator/Sources/ACFTCalculator/Models/ACFTCalculator.swift:81-106 | an event's score depends only on its own table |
| `Calculator.InitRejectsWrongRowCount` | ACFTCalculator/Sources/ACFTCalculator/Models/ACFTCalculator.swift:143-146 | contents with wide enough rows but a number of data rows other than 101 fail with `invalidData` |
| `Calculator.DeadliftScenario` | ACFTCalculator/Tests/ACFTCalculatorTests/ACFTCalculatorTests.swift:15-51 | on a fixture table with 140 lb worth 60 and 130 lb worth 50: 140 lb scores 60, 139 lb scores 50, and 0 lb scores 0 |
| `Calculator.SprintDragCarryScenario` | ACFTCalculator/Tests/ACFTCalculatorTests/ACFTCalculatorTests.swift:136-171 | on a fixture table whose best time 3:00 is worth 60: 0:30 (faster than every listed time) scores 60 and 10:00 scores 0 |

## Left out

- Loading the file is left out. `CSVReader.init(csvFileName:)` and
  `acftScoringStandardsReader` look up a bundled resource and read it from
  disk. The model takes the contents as a string instead. The
  `fileNotFound` reason is declared but nothing in the model produces it.
- The real scoring standards data is not part of this model. The test
  scenarios (140 lb → 60, 3:00 → 60, …) are stated only for a hand-built
  fixture, not for the real table.
- The standing power throw is not scored. Its column holds `Float`
  distances, and this revision stores it as raw strings without scoring it.
  The model reads it, as the source does, and keeps the strings.
- `Text.ParseInt` stands in for Swift's library `Int(String)`, which is not
  part of this model. It accepts an optional `+` or `-` followed by ASCII
  digits, and fails outside the 64-bit range.
- Strings are modelled as sequences of characters. Swift groups `"\r\n"`
  into one `Character`; the model does not.
- The other `RecordedTime` initialisers are not part of this model: the
  failable `RecordedTime(minutes:seconds:)` and the normalising
  `RecordedTime(seconds:)`. They belong to a revision whose source is not
  shown.
- Raw results and table values are unbounded integers. The source never
  does arithmetic on them, so 64-bit `Int` adds nothing beyond the
  parser's range check.
- Error payloads are simplified. The `dataConversionFailed` type payload
  (`Any.Type`) is modelled as a two-valued tag, `ValueType`, and its value
  payload as the cell's text.
- `Calculator.ACFTCalculator.Score`: its own contract states only the
  0..100 bound. Its per-event direction is stated by
  `Calculator.ScoreMonotone`, and its first-match behaviour by the
  `Scoring.Lookup…` lemmas.
