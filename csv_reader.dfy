/**
 * `CSVReader`: the text of a comma-separated file, read as rows of cells.
 * Rows are the pieces between `"\n"` characters and cells the pieces
 * between `","` characters; there is no quoting or escaping. Loading the
 * text from a bundled file is not part of this model: the contents are
 * given directly.
 */
module CSV {
  import opened Errors
  import opened Text

  /** Rows put back together: cells joined by `","`, rows by `"\n"`. */
  function JoinRows(rows: seq<seq<string>>): string
  {
    Join(seq(|rows|, j requires 0 <= j < |rows| => Join(rows[j], ',')), '\n')
  }

  /** `row.indices.contains(index)`: the row has a cell at `index`. */
  predicate HasCell(row: seq<string>, index: int)
  {
    0 <= index < |row|
  }

  /** Every row has a cell at `index`. */
  predicate AllRowsHave(rows: seq<seq<string>>, index: int)
  {
    forall j :: 0 <= j < |rows| ==> HasCell(rows[j], index)
  }

  /** One cell per row: the cell at `index`, or the out-of-bounds error. */
  function ProjectColumn(rows: seq<seq<string>>, index: int): (r: Result<seq<string>>)
    ensures r.Success? <==> forall j :: 0 <= j < |rows| ==> HasCell(rows[j], index)
    ensures r.Success? ==>
              && |r.value| == |rows|
              && forall j :: 0 <= j < |rows| ==> HasCell(rows[j], index) && r.value[j] == rows[j][index]
    ensures r.Failure? ==> r.error == CsvReadingFailure(ColumnOutOfBounds(index))
  {
    if |rows| == 0 then Success([])
    else if !HasCell(rows[0], index) then
      Failure(CsvReadingFailure(ColumnOutOfBounds(index)))
    else
      var rest :- ProjectColumn(rows[1..], index);
      Success([rows[0][index]] + rest)
  }

  datatype CSVReader = CSVReader(csvContents: string) {

    /**
     * `readRows(removeHeaders:)`: the lines of the contents, each split into
     * cells, without the first line when `removeHeaders` is set.
     */
    function ReadRows(removeHeaders: bool): (rows: seq<seq<string>>)
      ensures |rows| == Count('\n', csvContents) + (if removeHeaders then 0 else 1)
      ensures forall j :: 0 <= j < |rows| ==> |rows[j]| >= 1
      ensures forall j, k :: 0 <= j < |rows| && 0 <= k < |rows[j]| ==>
                ',' !in rows[j][k] && '\n' !in rows[j][k]
      ensures !removeHeaders ==> JoinRows(rows) == csvContents
    {
      var lines := Split(csvContents, '\n');
      SplitCount(csvContents, '\n');
      SplitPiecesExcludeSeparator(csvContents, '\n');
      var kept := if removeHeaders then lines[1..] else lines;
      var rows := seq(|kept|, j requires 0 <= j < |kept| => Split(kept[j], ','));
      assert !removeHeaders ==> JoinRows(rows) == csvContents by {
        if !removeHeaders {
          forall j | 0 <= j < |rows| ensures Join(rows[j], ',') == lines[j] {
            JoinSplit(lines[j], ',');
          }
          assert seq(|rows|, j requires 0 <= j < |rows| => Join(rows[j], ',')) == lines;
          JoinSplit(csvContents, '\n');
        }
      }
      forall j | 0 <= j < |rows|
        ensures forall k :: 0 <= k < |rows[j]| ==> ',' !in rows[j][k] && '\n' !in rows[j][k]
      {
        SplitPiecesExcludeSeparator(kept[j], ',');
        forall k | 0 <= k < |rows[j]| ensures '\n' !in rows[j][k] {
          SplitPieceWithin(kept[j], ',', k, '\n');
        }
      }
      rows
    }

    /**
     * `readColumn(atIndex:removeHeader:)`: cell `index` of every row, in row
     * order; `columnOutOfBounds(index)` when some row has no such cell.
     */
    function ReadColumn(index: int, removeHeader: bool): (r: Result<seq<string>>)
      ensures r.Success? <==> AllRowsHave(ReadRows(removeHeader), index)
      ensures r.Success? ==>
                && |r.value| == |ReadRows(removeHeader)|
                && forall j :: 0 <= j < |r.value| ==>
                     HasCell(ReadRows(removeHeader)[j], index) && r.value[j] == ReadRows(removeHeader)[j][index]
      ensures r.Failure? ==> r.error == CsvReadingFailure(ColumnOutOfBounds(index))
    {
      ProjectColumn(ReadRows(removeHeader), index)
    }
  }

  /** A character absent from a string is absent from each of its pieces. */
  lemma {:induction false} SplitPieceWithin(s: string, sep: char, k: int, c: char)
    requires 0 <= k < |Split(s, sep)|
    requires c !in s
    ensures c !in Split(s, sep)[k]
  {
    if |s| > 0 {
      var rest := Split(s[1..], sep);
      assert c !in s[1..] by { assert forall i :: 0 <= i < |s[1..]| ==> s[1..][i] == s[i + 1]; }
      if s[0] == sep {
        if k > 0 {
          SplitPieceWithin(s[1..], sep, k - 1, c);
        }
      } else {
        SplitPieceWithin(s[1..], sep, k, c);
      }
    }
  }

  /** Dropping the header removes exactly the first row. */
  lemma HeaderRemovalDropsFirstRow(reader: CSVReader)
    ensures reader.ReadRows(true) == reader.ReadRows(false)[1..]
  {
  }

  /** A trailing separator adds one empty piece at the end. */
  lemma {:induction false} SplitTrailingSeparator(p: string, sep: char)
    ensures Split(p + [sep], sep) == Split(p, sep) + [""]
  {
    if |p| == 0 {
      assert p + [sep] == [sep];
      assert [sep][1..] == [];
    } else {
      SplitTrailingSeparator(p[1..], sep);
      assert (p + [sep])[1..] == p[1..] + [sep];
      var rest := Split(p[1..], sep);
      if p[0] != sep {
        assert (rest + [""])[1..] == rest[1..] + [""];
      }
    }
  }

  /**
   * A trailing newline ends the contents with an empty line, whose single
   * empty cell makes every column after the first out of bounds.
   */
  lemma TrailingNewlineBreaksColumns(reader: CSVReader, index: int, removeHeader: bool)
    requires |reader.csvContents| >= 1 && reader.csvContents[|reader.csvContents| - 1] == '\n'
    requires index != 0
    ensures reader.ReadColumn(index, removeHeader) == Failure(CsvReadingFailure(ColumnOutOfBounds(index)))
  {
    var s := reader.csvContents;
    var p := s[..|s| - 1];
    assert s == p + ['\n'];
    SplitTrailingSeparator(p, '\n');
    var lines := Split(s, '\n');
    assert lines[|lines| - 1] == "";
    SplitCount(p, '\n');
    var rows := reader.ReadRows(removeHeader);
    assert |rows| >= 1;
    assert rows[|rows| - 1] == Split("", ',');
  }

  /**
   * Two lines of three cells each read back as two rows of three cells, as
   * in the reader's documentation (`"firstName,lastName,age\nsanta,claus,100"`).
   */
  lemma ReadTwoRowsOfThree(contents: string, header: seq<string>, row: seq<string>)
    requires |header| == 3 && |row| == 3
    requires contents == Join(header, ',') + "\n" + Join(row, ',')
    requires forall k :: 0 <= k < 3 ==> ',' !in header[k] && '\n' !in header[k]
    requires forall k :: 0 <= k < 3 ==> ',' !in row[k] && '\n' !in row[k]
    ensures CSVReader(contents).ReadRows(false) == [header, row]
    ensures CSVReader(contents).ReadRows(true) == [row]
  {
    var first, second := Join(header, ','), Join(row, ',');
    SplitJoin(header, ',');
    SplitJoin(row, ',');
    JoinExcludes(header, ',', '\n');
    JoinExcludes(row, ',', '\n');
    assert Join([first, second], '\n') == first + "\n" + second;
    SplitJoin([first, second], '\n');
  }

  /** Joining pieces without `c` by a separator other than `c` gives a string without `c`. */
  lemma {:induction false} JoinExcludes(parts: seq<string>, sep: char, c: char)
    requires c != sep
    requires forall k :: 0 <= k < |parts| ==> c !in parts[k]
    ensures c !in Join(parts, sep)
  {
    if |parts| > 1 {
      JoinExcludes(parts[1..], sep, c);
    }
  }
}
