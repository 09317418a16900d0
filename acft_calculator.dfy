/**
 * `ACFTCalculator`: the scoring tables of the six scored events, read once
 * from the scoring standards text, and the per-event lookup that turns a raw
 * result into 0..100 points.
 */
module Calculator {
  import opened Errors
  import opened Text
  import opened RecordedTimes
  import opened CSV
  import opened Scoring

  // The columns of the scoring standards file, in order.
  const PointsColumn: int := 0
  const DeadliftColumn: int := 1
  const StandingPowerThrowColumn: int := 2
  const HandReleasePushUpColumn: int := 3
  const SprintDragCarryColumn: int := 4
  const LegTuckColumn: int := 5
  const PlankColumn: int := 6
  const TwoMileRunColumn: int := 7

  /** An event together with the test-taker's raw result in it. */
  datatype ACFTEvent =
    | ThreeRepetitionMaximumDeadlift(pounds: int)
    | HandReleasePushUp(repetitions: int)
    | SprintDragCarry(time: RecordedTime)
    | LegTuck(repetitions: int)
    | Plank(time: RecordedTime)
    | TwoMileRun(time: RecordedTime)

  /** `<` on `Int`. */
  function IntLess(a: int, b: int): bool
  {
    a < b
  }

  lemma IntLessIsStrictTotalOrder()
    ensures StrictTotalOrder(IntLess)
  {
  }

  lemma TimeLessIsStrictTotalOrder()
    ensures StrictTotalOrder(Less)
  {
    forall a: RecordedTime, b: RecordedTime, c: RecordedTime
      ensures !Less(a, a)
      ensures Less(a, b) && Less(b, c) ==> Less(a, c)
      ensures a != b ==> Less(a, b) || Less(b, a)
    {
      LessIsStrictOrder(a, b, c);
      LessTrichotomy(a, b);
    }
  }

  /**
   * The table for column `col` was built from the data rows: the entry worth
   * `p` points is the parsed, non-blank cell `col` of data row `100 - p`, and
   * every non-blank cell of the column has its entry.
   */
  ghost predicate TableFromColumn<T>(table: seq<Entry<T>>, rows: seq<seq<string>>, col: int,
                                     parse: string -> Option<T>)
  {
    && (forall k :: 0 <= k < |table| ==>
          var i := 100 - table[k].points;
          && 0 <= i < |rows| && 0 <= col < |rows[i]|
          && |rows[i][col]| > 0 && parse(rows[i][col]) == Some(table[k].value))
    && (forall i :: 0 <= i < |rows| && 0 <= col < |rows[i]| && |rows[i][col]| > 0 ==>
          exists k :: 0 <= k < |table| && table[k].points == 100 - i)
  }

  /** Every non-blank cell in column `col` converts. */
  predicate ColumnParses<T>(rows: seq<seq<string>>, col: int, parse: string -> Option<T>)
  {
    forall i :: 0 <= i < |rows| && HasCell(rows[i], col) && |rows[i][col]| > 0 ==> parse(rows[i][col]).Some?
  }

  datatype ACFTCalculator = ACFTCalculator(
    deadliftPounds: seq<Entry<int>>,
    standingPowerThrowMeters: seq<string>,
    handReleasePushUpRepetitions: seq<Entry<int>>,
    sprintDragCarryTimes: seq<Entry<RecordedTime>>,
    legTuckRepetitions: seq<Entry<int>>,
    plankTimes: seq<Entry<RecordedTime>>,
    twoMileRunTimes: seq<Entry<RecordedTime>>)
  {
    /** Every scored table is a valid points mapping. */
    predicate Valid()
    {
      && ValidPointsMapping(deadliftPounds)
      && ValidPointsMapping(handReleasePushUpRepetitions)
      && ValidPointsMapping(sprintDragCarryTimes)
      && ValidPointsMapping(legTuckRepetitions)
      && ValidPointsMapping(plankTimes)
      && ValidPointsMapping(twoMileRunTimes)
    }

    /**
     * The points an event earns: its own table, scanned with its own order.
     * Heavier lifts, more repetitions and longer planks score higher
     * (descending columns); faster sprint-drag-carry and two-mile run times
     * score higher (ascending columns).
     */
    function Score(event: ACFTEvent): (points: int)
      ensures Valid() ==> 0 <= points <= 100
    {
      match event
      case ThreeRepetitionMaximumDeadlift(pounds) => Lookup(pounds, deadliftPounds, Descending, IntLess)
      case HandReleasePushUp(repetitions) => Lookup(repetitions, handReleasePushUpRepetitions, Descending, IntLess)
      case SprintDragCarry(time) => Lookup(time, sprintDragCarryTimes, Ascending, Less)
      case LegTuck(repetitions) => Lookup(repetitions, legTuckRepetitions, Descending, IntLess)
      case Plank(time) => Lookup(time, plankTimes, Descending, Less)
      case TwoMileRun(time) => Lookup(time, twoMileRunTimes, Ascending, Less)
    }

    /** `calculatePoints(for:)`: dispatch the event to the scan over its table. */
    method CalculatePoints(event: ACFTEvent) returns (points: int)
      ensures points == Score(event)
      ensures Valid() ==> 0 <= points <= 100
    {
      match event {
        case ThreeRepetitionMaximumDeadlift(pounds) =>
          points := CalculatePointsForValue(pounds, deadliftPounds, Descending, IntLess);
        case HandReleasePushUp(repetitions) =>
          points := CalculatePointsForValue(repetitions, handReleasePushUpRepetitions, Descending, IntLess);
        case SprintDragCarry(time) =>
          points := CalculatePointsForValue(time, sprintDragCarryTimes, Ascending, Less);
        case LegTuck(repetitions) =>
          points := CalculatePointsForValue(repetitions, legTuckRepetitions, Descending, IntLess);
        case Plank(time) =>
          points := CalculatePointsForValue(time, plankTimes, Descending, Less);
        case TwoMileRun(time) =>
          points := CalculatePointsForValue(time, twoMileRunTimes, Ascending, Less);
      }
    }
  }

  /**
   * `readColumn(col)` followed by `compactMapACFTColumnToPointsMapping()`,
   * on rows already read: the column's cells, one per row, converted into a
   * points mapping, failing with the first error met.
   */
  function TableOfRows<T>(rows: seq<seq<string>>, col: nat, parse: string -> Option<T>, valueType: ValueType)
    : (r: Result<seq<Entry<T>>>)
    ensures r.Success? <==> |rows| == 101 && AllRowsHave(rows, col) && ColumnParses(rows, col, parse)
    ensures r.Success? ==> ValidPointsMapping(r.value) && TableFromColumn(r.value, rows, col, parse)
    ensures !AllRowsHave(rows, col) ==> r == Failure(CsvReadingFailure(ColumnOutOfBounds(col)))
    ensures AllRowsHave(rows, col) && |rows| != 101 ==> r == Failure(CsvReadingFailure(InvalidData))
    ensures AllRowsHave(rows, col) && |rows| == 101 && r.Failure? ==>
              exists i :: 0 <= i < |rows| && HasCell(rows[i], col) && |rows[i][col]| > 0
                          && parse(rows[i][col]).None?
                          && r.error == CsvReadingFailure(DataConversionFailed(valueType, rows[i][col]))
  {
    var column :- ProjectColumn(rows, col);
    ConvertedColumnFacts(rows, col, parse, valueType, column);
    CompactMapColumnToPointsMapping(column, parse, valueType)
  }

  /** What converting column `col`, projected out of the rows, says about the rows. */
  lemma ConvertedColumnFacts<T>(rows: seq<seq<string>>, col: nat, parse: string -> Option<T>,
                                valueType: ValueType, column: seq<string>)
    requires |column| == |rows|
    requires forall j :: 0 <= j < |rows| ==> HasCell(rows[j], col) && column[j] == rows[j][col]
    ensures var m := CompactMapColumnToPointsMapping(column, parse, valueType);
            && (m.Success? <==> |rows| == 101 && ColumnParses(rows, col, parse))
            && (m.Success? ==> TableFromColumn(m.value, rows, col, parse))
            && (|rows| != 101 ==> m == Failure(CsvReadingFailure(InvalidData)))
            && (|rows| == 101 && m.Failure? ==>
                  exists i :: 0 <= i < |rows| && HasCell(rows[i], col) && |rows[i][col]| > 0
                              && parse(rows[i][col]).None?
                              && m.error == CsvReadingFailure(DataConversionFailed(valueType, rows[i][col])))
  {
    var m := CompactMapColumnToPointsMapping(column, parse, valueType);
    if m.Success? {
      forall i | 0 <= i < |rows| && 0 <= col < |rows[i]| && |rows[i][col]| > 0
        ensures exists k :: 0 <= k < |m.value| && m.value[k].points == 100 - i
      {
        EveryFilledCellHasEntry(column, parse, valueType, i);
      }
    }
  }

  /** One scored column of the scoring standards, header removed, as a points mapping. */
  function ReadTable<T>(csvContents: string, col: nat, parse: string -> Option<T>, valueType: ValueType)
    : (r: Result<seq<Entry<T>>>)
    ensures var rows := CSVReader(csvContents).ReadRows(true);
            r.Success? <==> |rows| == 101 && AllRowsHave(rows, col) && ColumnParses(rows, col, parse)
    ensures r.Success? ==>
              && ValidPointsMapping(r.value)
              && TableFromColumn(r.value, CSVReader(csvContents).ReadRows(true), col, parse)
    ensures !AllRowsHave(CSVReader(csvContents).ReadRows(true), col) ==>
              r == Failure(CsvReadingFailure(ColumnOutOfBounds(col)))
    ensures var rows := CSVReader(csvContents).ReadRows(true);
            AllRowsHave(rows, col) && |rows| != 101 ==> r == Failure(CsvReadingFailure(InvalidData))
    ensures var rows := CSVReader(csvContents).ReadRows(true);
            AllRowsHave(rows, col) && |rows| == 101 && r.Failure? ==>
              exists i :: 0 <= i < |rows| && HasCell(rows[i], col) && |rows[i][col]| > 0
                          && parse(rows[i][col]).None?
                          && r.error == CsvReadingFailure(DataConversionFailed(valueType, rows[i][col]))
  {
    TableOfRows(CSVReader(csvContents).ReadRows(true), col, parse, valueType)
  }

  /**
   * `init()`: read every column of the scoring standards (header removed),
   * convert the scored ones, and fail with the first error met.
   */
  function Init(csvContents: string): (r: Result<ACFTCalculator>)
    ensures var rows := CSVReader(csvContents).ReadRows(true);
            r.Success? <==>
              && |rows| == 101
              && AllRowsHave(rows, TwoMileRunColumn)
              && ColumnParses(rows, DeadliftColumn, ParseInt)
              && ColumnParses(rows, HandReleasePushUpColumn, ParseInt)
              && ColumnParses(rows, SprintDragCarryColumn, Parse)
              && ColumnParses(rows, LegTuckColumn, ParseInt)
              && ColumnParses(rows, PlankColumn, Parse)
              && ColumnParses(rows, TwoMileRunColumn, Parse)
    ensures r.Success? ==> r.value.Valid()
    ensures r.Success? ==>
              var rows := CSVReader(csvContents).ReadRows(true);
              && |rows| == 101
              && AllRowsHave(rows, TwoMileRunColumn)
              && |r.value.standingPowerThrowMeters| == 101
              && (forall j :: 0 <= j < 101 ==>
                    r.value.standingPowerThrowMeters[j] == rows[j][StandingPowerThrowColumn])
              && TableFromColumn(r.value.deadliftPounds, rows, DeadliftColumn, ParseInt)
              && TableFromColumn(r.value.handReleasePushUpRepetitions, rows, HandReleasePushUpColumn, ParseInt)
              && TableFromColumn(r.value.sprintDragCarryTimes, rows, SprintDragCarryColumn, Parse)
              && TableFromColumn(r.value.legTuckRepetitions, rows, LegTuckColumn, ParseInt)
              && TableFromColumn(r.value.plankTimes, rows, PlankColumn, Parse)
              && TableFromColumn(r.value.twoMileRunTimes, rows, TwoMileRunColumn, Parse)
  {
    AllRowsHaveEarlierColumns(CSVReader(csvContents).ReadRows(true));
    var deadliftPounds :- ReadTable(csvContents, DeadliftColumn, ParseInt, IntValue);
    var standingPowerThrowMeters :- CSVReader(csvContents).ReadColumn(StandingPowerThrowColumn, true);
    var handReleasePushUpRepetitions :- ReadTable(csvContents, HandReleasePushUpColumn, ParseInt, IntValue);
    var sprintDragCarryTimes :- ReadTable(csvContents, SprintDragCarryColumn, Parse, RecordedTimeValue);
    var legTuckRepetitions :- ReadTable(csvContents, LegTuckColumn, ParseInt, IntValue);
    var plankTimes :- ReadTable(csvContents, PlankColumn, Parse, RecordedTimeValue);
    var twoMileRunTimes :- ReadTable(csvContents, TwoMileRunColumn, Parse, RecordedTimeValue);
    Success(ACFTCalculator(deadliftPounds, standingPowerThrowMeters, handReleasePushUpRepetitions,
                           sprintDragCarryTimes, legTuckRepetitions, plankTimes, twoMileRunTimes))
  }

  /** Rows wide enough for the last column have every earlier one. */
  lemma AllRowsHaveEarlierColumns(rows: seq<seq<string>>)
    ensures AllRowsHave(rows, TwoMileRunColumn) ==>
              forall c :: 0 <= c <= TwoMileRunColumn ==> AllRowsHave(rows, c)
  {
  }

  /** `better` is a result in the same event at least as good as `worse`. */
  predicate AtLeastAsGoodResult(better: ACFTEvent, worse: ACFTEvent)
  {
    match (better, worse)
    case (ThreeRepetitionMaximumDeadlift(b), ThreeRepetitionMaximumDeadlift(w)) => b >= w
    case (HandReleasePushUp(b), HandReleasePushUp(w)) => b >= w
    case (SprintDragCarry(b), SprintDragCarry(w)) => !Less(w, b)
    case (LegTuck(b), LegTuck(w)) => b >= w
    case (Plank(b), Plank(w)) => !Less(b, w)
    case (TwoMileRun(b), TwoMileRun(w)) => !Less(w, b)
    case _ => false
  }

  /** A result at least as good as another in the same event never scores fewer points. */
  lemma ScoreMonotone(calculator: ACFTCalculator, better: ACFTEvent, worse: ACFTEvent)
    requires calculator.Valid()
    requires AtLeastAsGoodResult(better, worse)
    ensures calculator.Score(worse) <= calculator.Score(better)
  {
    IntLessIsStrictTotalOrder();
    TimeLessIsStrictTotalOrder();
    match (better, worse)
    case (ThreeRepetitionMaximumDeadlift(b), ThreeRepetitionMaximumDeadlift(w)) =>
      LookupMonotone(b, w, calculator.deadliftPounds, Descending, IntLess);
    case (HandReleasePushUp(b), HandReleasePushUp(w)) =>
      LookupMonotone(b, w, calculator.handReleasePushUpRepetitions, Descending, IntLess);
    case (SprintDragCarry(b), SprintDragCarry(w)) =>
      LookupMonotone(b, w, calculator.sprintDragCarryTimes, Ascending, Less);
    case (LegTuck(b), LegTuck(w)) =>
      LookupMonotone(b, w, calculator.legTuckRepetitions, Descending, IntLess);
    case (Plank(b), Plank(w)) =>
      LookupMonotone(b, w, calculator.plankTimes, Descending, Less);
    case (TwoMileRun(b), TwoMileRun(w)) =>
      LookupMonotone(b, w, calculator.twoMileRunTimes, Ascending, Less);
  }

  /** The two calculators hold the same table for the event's kind. */
  predicate SameTableFor(c1: ACFTCalculator, c2: ACFTCalculator, event: ACFTEvent)
  {
    match event
    case ThreeRepetitionMaximumDeadlift(_) => c1.deadliftPounds == c2.deadliftPounds
    case HandReleasePushUp(_) => c1.handReleasePushUpRepetitions == c2.handReleasePushUpRepetitions
    case SprintDragCarry(_) => c1.sprintDragCarryTimes == c2.sprintDragCarryTimes
    case LegTuck(_) => c1.legTuckRepetitions == c2.legTuckRepetitions
    case Plank(_) => c1.plankTimes == c2.plankTimes
    case TwoMileRun(_) => c1.twoMileRunTimes == c2.twoMileRunTimes
  }

  /** Each event reads only its own table. */
  lemma ScoreReadsOwnTable(c1: ACFTCalculator, c2: ACFTCalculator, event: ACFTEvent)
    requires SameTableFor(c1, c2, event)
    ensures c1.Score(event) == c2.Score(event)
  {
  }

  /**
   * Scoring standards whose data rows number other than 101 (every row
   * wide enough) are rejected as invalid data.
   */
  lemma InitRejectsWrongRowCount(csvContents: string)
    requires Count('\n', csvContents) != 101
    requires forall j :: 0 <= j < |CSVReader(csvContents).ReadRows(true)| ==>
               |CSVReader(csvContents).ReadRows(true)[j]| > TwoMileRunColumn
    ensures Init(csvContents) == Failure(CsvReadingFailure(InvalidData))
  {
  }

  /** A data row with no deadlift cell fails the first column read, with its index. */
  lemma InitRejectsRowMissingDeadlift(csvContents: string, j: int)
    requires 0 <= j < |CSVReader(csvContents).ReadRows(true)|
    requires !HasCell(CSVReader(csvContents).ReadRows(true)[j], DeadliftColumn)
    ensures Init(csvContents) == Failure(CsvReadingFailure(ColumnOutOfBounds(DeadliftColumn)))
  {
    assert !AllRowsHave(CSVReader(csvContents).ReadRows(true), DeadliftColumn);
  }

  /**
   * A hand-built calculator whose deadlift table lists 140 lb for 60 points
   * and 130 lb for 50, and whose sprint-drag-carry table lists 3:00 for 60.
   */
  function Fixture(): (c: ACFTCalculator)
    ensures c.Valid()
  {
    ACFTCalculator([Entry(60, 140), Entry(50, 130)], [], [],
                   [Entry(60, RecordedTime(3, 0))], [], [], [])
  }

  /** A listed weight earns its points, one pound less drops to the next row, nothing scores 0. */
  lemma DeadliftScenario()
    ensures Fixture().Score(ThreeRepetitionMaximumDeadlift(140)) == 60
    ensures Fixture().Score(ThreeRepetitionMaximumDeadlift(139)) == 50
    ensures Fixture().Score(ThreeRepetitionMaximumDeadlift(0)) == 0
  {
  }

  /** Faster than the best listed time earns the best listed points; far slower earns 0. */
  lemma SprintDragCarryScenario()
    ensures Fixture().Score(SprintDragCarry(RecordedTime(0, 30))) == 60
    ensures Fixture().Score(SprintDragCarry(RecordedTime(10, 0))) == 0
  {
  }
}
