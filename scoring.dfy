/**
 * The scoring engine's two generic pieces: turning one raw column of the
 * scoring standards into a points mapping, and looking a raw result up in
 * such a mapping. Both are written once for any value type, given its `<`
 * (`Int`'s and `RecordedTime`'s both qualify).
 */
module Scoring {
  import opened Errors

  /** How the values of a column run as points fall from 100 to 0. */
  datatype Order = Ascending | Descending

  /** One `(points, value)` pair of a points mapping. */
  datatype Entry<T> = Entry(points: int, value: T)

  /**
   * Whether `input` earns the points of an entry with value `threshold`:
   * `input <= threshold` for ascending columns and `input >= threshold` for
   * descending ones, both derived from `<` the way `Comparable` derives them.
   */
  predicate Qualifies<T>(order: Order, input: T, threshold: T, less: (T, T) -> bool)
  {
    match order
    case Ascending => !less(threshold, input)
    case Descending => !less(input, threshold)
  }

  /** `x` is at least as good a result as `y`: larger when descending, smaller when ascending. */
  predicate AtLeastAsGood<T>(order: Order, x: T, y: T, less: (T, T) -> bool)
  {
    match order
    case Ascending => !less(y, x)
    case Descending => !less(x, y)
  }

  /** `x` is a strictly better result than `y`. */
  predicate StrictlyBetter<T>(order: Order, x: T, y: T, less: (T, T) -> bool)
  {
    match order
    case Ascending => less(x, y)
    case Descending => less(y, x)
  }

  /** `less` is irreflexive, transitive and total on distinct values. */
  ghost predicate StrictTotalOrder<T(!new)>(less: (T, T) -> bool)
  {
    && (forall a :: !less(a, a))
    && (forall a, b, c :: less(a, b) && less(b, c) ==> less(a, c))
    && (forall a, b :: a != b ==> less(a, b) || less(b, a))
  }

  /** Every entry's points lie in 0..100 and points strictly fall along the mapping. */
  predicate ValidPointsMapping<T>(mapping: seq<Entry<T>>)
  {
    && (forall i :: 0 <= i < |mapping| ==> 0 <= mapping[i].points <= 100)
    && (forall i, j :: 0 <= i < j < |mapping| ==> mapping[j].points < mapping[i].points)
  }

  /** Each value is a strictly better result than every value after it. */
  ghost predicate ThresholdsOrdered<T>(mapping: seq<Entry<T>>, order: Order, less: (T, T) -> bool)
  {
    forall i, j :: 0 <= i < j < |mapping| ==> StrictlyBetter(order, mapping[i].value, mapping[j].value, less)
  }

  // ---------------------------------------------------------------------
  // Lookup

  /**
   * The points of the first entry whose value `input` qualifies for, or 0
   * when it qualifies for none.
   */
  function Lookup<T>(input: T, mapping: seq<Entry<T>>, order: Order, less: (T, T) -> bool): (points: int)
    ensures points == 0 || exists i :: 0 <= i < |mapping| && mapping[i].points == points
  {
    if |mapping| == 0 then 0
    else if Qualifies(order, input, mapping[0].value, less) then mapping[0].points
    else
      var points := Lookup(input, mapping[1..], order, less);
      assert points != 0 ==> exists i :: 1 <= i < |mapping| && mapping[i].points == points by {
        if points != 0 {
          var i :| 0 <= i < |mapping[1..]| && mapping[1..][i].points == points;
          assert mapping[i + 1].points == points;
        }
      }
      points
  }

  /**
   * `calculatePoints(forValue:pointsMapping:order:)`: scan the mapping in
   * order and return the points of the first entry the input qualifies for.
   */
  method CalculatePointsForValue<T>(inputValue: T, pointsMapping: seq<Entry<T>>, order: Order,
                                    less: (T, T) -> bool)
    returns (points: int)
    ensures points == Lookup(inputValue, pointsMapping, order, less)
  {
    var i := 0;
    while i < |pointsMapping|
      invariant 0 <= i <= |pointsMapping|
      invariant Lookup(inputValue, pointsMapping, order, less)
                == Lookup(inputValue, pointsMapping[i..], order, less)
    {
      var entry := pointsMapping[i];
      match order {
        case Ascending =>
          if !less(entry.value, inputValue) {
            return entry.points;
          }
        case Descending =>
          if !less(inputValue, entry.value) {
            return entry.points;
          }
      }
      assert pointsMapping[i..][1..] == pointsMapping[i + 1..];
      i := i + 1;
    }
    return 0;
  }

  /** The first entry the input qualifies for decides the points. */
  lemma {:induction false} LookupFirstMatch<T>(input: T, mapping: seq<Entry<T>>, order: Order,
                                               less: (T, T) -> bool, i: int)
    requires 0 <= i < |mapping| && Qualifies(order, input, mapping[i].value, less)
    requires forall j :: 0 <= j < i ==> !Qualifies(order, input, mapping[j].value, less)
    ensures Lookup(input, mapping, order, less) == mapping[i].points
  {
    if i > 0 {
      assert !Qualifies(order, input, mapping[0].value, less);
      LookupFirstMatch(input, mapping[1..], order, less, i - 1);
    }
  }

  /** An input that qualifies for no entry scores 0. */
  lemma {:induction false} LookupNoMatch<T>(input: T, mapping: seq<Entry<T>>, order: Order,
                                            less: (T, T) -> bool)
    requires forall j :: 0 <= j < |mapping| ==> !Qualifies(order, input, mapping[j].value, less)
    ensures Lookup(input, mapping, order, less) == 0
  {
    if |mapping| > 0 {
      assert !Qualifies(order, input, mapping[0].value, less);
      LookupNoMatch(input, mapping[1..], order, less);
    }
  }

  /** On a valid mapping the points lie in 0..100. */
  lemma LookupInRange<T>(input: T, mapping: seq<Entry<T>>, order: Order, less: (T, T) -> bool)
    requires ValidPointsMapping(mapping)
    ensures 0 <= Lookup(input, mapping, order, less) <= 100
  {
  }

  /** A result at least as good as a qualifying one qualifies too. */
  lemma QualifiesForBetter<T(!new)>(order: Order, x: T, y: T, threshold: T, less: (T, T) -> bool)
    requires StrictTotalOrder(less)
    requires AtLeastAsGood(order, x, y, less) && Qualifies(order, y, threshold, less)
    ensures Qualifies(order, x, threshold, less)
  {
  }

  /**
   * Monotonicity: on a valid mapping, a result at least as good as another
   * never scores fewer points.
   */
  lemma {:induction false} LookupMonotone<T(!new)>(x: T, y: T, mapping: seq<Entry<T>>, order: Order,
                                             less: (T, T) -> bool)
    requires StrictTotalOrder(less) && ValidPointsMapping(mapping)
    requires AtLeastAsGood(order, x, y, less)
    ensures Lookup(y, mapping, order, less) <= Lookup(x, mapping, order, less)
  {
    if |mapping| > 0 {
      var first := mapping[0];
      if Qualifies(order, x, first.value, less) {
        if !Qualifies(order, y, first.value, less) {
          var rest := Lookup(y, mapping[1..], order, less);
          if rest != 0 {
            var i :| 0 <= i < |mapping[1..]| && mapping[1..][i].points == rest;
            assert mapping[i + 1].points < first.points;
          }
        }
      } else {
        if Qualifies(order, y, first.value, less) {
          QualifiesForBetter(order, x, y, first.value, less);
        }
        LookupMonotone(x, y, mapping[1..], order, less);
      }
    }
  }

  /** A result at least as good as the first value earns the first entry's points. */
  lemma LookupAtOrBeyondBest<T>(input: T, mapping: seq<Entry<T>>, order: Order, less: (T, T) -> bool)
    requires |mapping| > 0 && AtLeastAsGood(order, input, mapping[0].value, less)
    ensures Lookup(input, mapping, order, less) == mapping[0].points
  {
  }

  /** With strictly ordered values, a result worse than the last value scores 0. */
  lemma LookupBeyondWorst<T(!new)>(input: T, mapping: seq<Entry<T>>, order: Order, less: (T, T) -> bool)
    requires StrictTotalOrder(less) && ThresholdsOrdered(mapping, order, less)
    requires |mapping| > 0 && StrictlyBetter(order, mapping[|mapping| - 1].value, input, less)
    ensures Lookup(input, mapping, order, less) == 0
  {
    var last := |mapping| - 1;
    forall j | 0 <= j < |mapping| ensures !Qualifies(order, input, mapping[j].value, less) {
      if j < last {
        assert StrictlyBetter(order, mapping[j].value, mapping[last].value, less);
      }
    }
    LookupNoMatch(input, mapping, order, less);
  }

  /** With strictly ordered values, a listed value earns exactly its own points. */
  lemma LookupAtListedValue<T(!new)>(mapping: seq<Entry<T>>, order: Order, less: (T, T) -> bool, i: int)
    requires StrictTotalOrder(less) && ThresholdsOrdered(mapping, order, less)
    requires 0 <= i < |mapping|
    ensures Lookup(mapping[i].value, mapping, order, less) == mapping[i].points
  {
    forall j | 0 <= j < i ensures !Qualifies(order, mapping[i].value, mapping[j].value, less) {
      assert StrictlyBetter(order, mapping[j].value, mapping[i].value, less);
    }
    LookupFirstMatch(mapping[i].value, mapping, order, less, i);
  }

  // ---------------------------------------------------------------------
  // Column conversion

  /** The number of non-empty cells. */
  function NonEmptyCount(cells: seq<string>): (n: nat)
    ensures n <= |cells|
  {
    if |cells| == 0 then 0 else (if |cells[0]| > 0 then 1 else 0) + NonEmptyCount(cells[1..])
  }

  /**
   * The `compactMap` over the enumerated cells from index `from` on: blank
   * cells are skipped, the others parsed into entries worth `100 - index`
   * points; the first cell that does not parse stops the conversion.
   */
  function ConvertCells<T>(column: seq<string>, from: nat, parse: string -> Option<T>,
                           valueType: ValueType): (r: Result<seq<Entry<T>>>)
    requires from <= |column|
    decreases |column| - from
    ensures r.Success? <==> forall i :: from <= i < |column| && |column[i]| > 0 ==> parse(column[i]).Some?
    ensures r.Success? ==>
              && |r.value| == NonEmptyCount(column[from..])
              && (forall k :: 0 <= k < |r.value| ==>
                    var i := 100 - r.value[k].points;
                    from <= i < |column| && |column[i]| > 0 && parse(column[i]) == Some(r.value[k].value))
              && (forall k, l :: 0 <= k < l < |r.value| ==> r.value[l].points < r.value[k].points)
    ensures r.Failure? ==>
              exists i :: from <= i < |column| && |column[i]| > 0 && parse(column[i]).None?
                          && r.error == CsvReadingFailure(DataConversionFailed(valueType, column[i]))
  {
    if from == |column| then Success([])
    else if |column[from]| == 0 then
      assert column[from..][1..] == column[from + 1..];
      ConvertCells(column, from + 1, parse, valueType)
    else match parse(column[from])
      case None => Failure(CsvReadingFailure(DataConversionFailed(valueType, column[from])))
      case Some(value) =>
        assert column[from..][1..] == column[from + 1..];
        var rest :- ConvertCells(column, from + 1, parse, valueType);
        Success([Entry(100 - from, value)] + rest)
  }

  /**
   * `compactMapACFTColumnToPointsMapping`: a column must hold exactly 101
   * cells, for 100 points down to 0; the non-blank ones become the mapping.
   */
  function CompactMapColumnToPointsMapping<T>(column: seq<string>, parse: string -> Option<T>,
                                              valueType: ValueType): (r: Result<seq<Entry<T>>>)
    ensures r == Failure(CsvReadingFailure(InvalidData)) <==> |column| != 101
    ensures r.Success? <==>
              |column| == 101 && forall i :: 0 <= i < |column| && |column[i]| > 0 ==> parse(column[i]).Some?
    ensures r.Success? ==>
              && ValidPointsMapping(r.value)
              && |r.value| == NonEmptyCount(column) <= 101
              && forall k :: 0 <= k < |r.value| ==>
                   var i := 100 - r.value[k].points;
                   0 <= i < |column| && |column[i]| > 0 && parse(column[i]) == Some(r.value[k].value)
    ensures r.Failure? && |column| == 101 ==>
              exists i :: 0 <= i < |column| && |column[i]| > 0 && parse(column[i]).None?
                          && r.error == CsvReadingFailure(DataConversionFailed(valueType, column[i]))
  {
    if |column| != 101 then Failure(CsvReadingFailure(InvalidData))
    else
      assert column[0..] == column;
      ConvertCells(column, 0, parse, valueType)
  }

  /** The first non-blank cell that does not parse is the one reported. */
  lemma {:induction false} ConvertCellsFailsAtFirstBadCell<T>(column: seq<string>, from: nat,
                                                              parse: string -> Option<T>,
                                                              valueType: ValueType, i: int)
    requires from <= i < |column| && |column[i]| > 0 && parse(column[i]).None?
    requires forall j :: from <= j < i && |column[j]| > 0 ==> parse(column[j]).Some?
    ensures ConvertCells(column, from, parse, valueType)
            == Failure(CsvReadingFailure(DataConversionFailed(valueType, column[i])))
    decreases i - from
  {
    if from < i {
      ConvertCellsFailsAtFirstBadCell(column, from + 1, parse, valueType, i);
    }
  }

  /** A 101-cell column fails on the first non-blank cell that does not parse, with that cell's text. */
  lemma ConversionFailsAtFirstBadCell<T>(column: seq<string>, parse: string -> Option<T>,
                                         valueType: ValueType, i: int)
    requires |column| == 101
    requires 0 <= i < |column| && |column[i]| > 0 && parse(column[i]).None?
    requires forall j :: 0 <= j < i && |column[j]| > 0 ==> parse(column[j]).Some?
    ensures CompactMapColumnToPointsMapping(column, parse, valueType)
            == Failure(CsvReadingFailure(DataConversionFailed(valueType, column[i])))
  {
    ConvertCellsFailsAtFirstBadCell(column, 0, parse, valueType, i);
  }

  /** Every non-blank cell of a converted column has its entry. */
  lemma EveryFilledCellHasEntry<T>(column: seq<string>, parse: string -> Option<T>,
                                   valueType: ValueType, i: int)
    requires CompactMapColumnToPointsMapping(column, parse, valueType).Success?
    requires 0 <= i < |column| && |column[i]| > 0
    ensures exists k :: 0 <= k < |CompactMapColumnToPointsMapping(column, parse, valueType).value|
                        && CompactMapColumnToPointsMapping(column, parse, valueType).value[k].points == 100 - i
  {
    assert column[0..] == column;
    var k := ConvertCellsCoversFilledCells(column, 0, parse, valueType, i);
  }

  /** One step of the conversion: a blank cell is skipped, a parsed one is prepended. */
  lemma ConvertCellsStep<T>(column: seq<string>, from: nat, parse: string -> Option<T>,
                            valueType: ValueType)
    requires from < |column|
    requires ConvertCells(column, from, parse, valueType).Success?
    ensures ConvertCells(column, from + 1, parse, valueType).Success?
    ensures |column[from]| == 0 ==>
              ConvertCells(column, from, parse, valueType) == ConvertCells(column, from + 1, parse, valueType)
    ensures |column[from]| > 0 ==>
              && parse(column[from]).Some?
              && ConvertCells(column, from, parse, valueType).value
                 == [Entry(100 - from, parse(column[from]).value)] + ConvertCells(column, from + 1, parse, valueType).value
  {
  }

  /** From any starting cell, each later non-blank cell has its entry; `k` is where. */
  lemma {:induction false} ConvertCellsCoversFilledCells<T>(column: seq<string>, from: nat,
                                                            parse: string -> Option<T>,
                                                            valueType: ValueType, i: int)
    returns (k: nat)
    requires from <= i < |column| && |column[i]| > 0
    requires ConvertCells(column, from, parse, valueType).Success?
    ensures k < |ConvertCells(column, from, parse, valueType).value|
    ensures ConvertCells(column, from, parse, valueType).value[k].points == 100 - i
    decreases i - from
  {
    ConvertCellsStep(column, from, parse, valueType);
    if from < i {
      var j := ConvertCellsCoversFilledCells(column, from + 1, parse, valueType, i);
      k := if |column[from]| > 0 then j + 1 else j;
    } else {
      k := 0;
    }
  }
}
