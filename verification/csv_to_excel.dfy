/** CSV to a one-sheet workbook: a styled header row, then one row per data
    record laid out by column index. The spreadsheet library bounds the
    sheet: row numbers, column indices and cell texts past its limits make
    it throw while the sheet is being filled. */
module CsvToExcel {
  import opened Common
  import opened Records

  /** Header cells carry the bold header style; data cells the default one.
      Every cell holds a string value. */
  datatype CellStyle = HeaderStyle | DefaultStyle

  datatype Cell = Cell(text: string, style: CellStyle)

  /** rows[n] is the sheet's row number n. */
  datatype Sheet = Sheet(name: string, rows: seq<seq<Cell>>)

  datatype Workbook = Workbook(sheets: seq<Sheet>)

  const SheetName := "Data"

  /** The limits of the spreadsheet format the workbook is written in. */
  const LastRowIndex := 1048575
  const LastColumnIndex := 16383
  const MaxTextLength := 32767

  /** What CSVRecord.get(index) throws when the record has only `length` fields. */
  function OutOfBounds(index: nat, length: nat): Exception {
    Exception(ArrayIndexOutOfBounds, "Index " + NatToString(index) + " out of bounds for length " + NatToString(length))
  }

  /** What createRow throws for a row number past the last row. */
  function RowLimit(rowNum: nat): Exception {
    Exception(IllegalArgument, "Invalid row number (" + NatToString(rowNum) + ") outside allowable range (0..1048575)")
  }

  /** What createCell throws for a column index past the last column. */
  function ColumnLimit(column: nat): Exception {
    Exception(IllegalArgument, "Invalid column index (" + NatToString(column) +
      ").  Allowable column range for EXCEL2007 is (0..16383) or ('A'..'XFD')")
  }

  /** What setCellValue throws for a text longer than a cell may hold. */
  const TextLimit := Exception(IllegalArgument, "The maximum length of cell contents (text) is 32767 characters")

  /** The header row can be filled: every column index exists and every
      header name fits in a cell. */
  predicate HeaderFits(headerNames: seq<string>) {
    |headerNames| <= LastColumnIndex + 1 &&
    forall i :: 0 <= i < |headerNames| ==> |headerNames[i]| <= MaxTextLength
  }

  /** Data row `rowNum` can be filled from `record` over `width` columns: the
      row number exists, the record reaches every column, and every field
      fits in a cell. */
  predicate RowFits(rowNum: nat, record: seq<string>, width: nat) {
    rowNum <= LastRowIndex && width <= |record| &&
    forall i :: 0 <= i < width ==> |record[i]| <= MaxTextLength
  }

  /** The header loop from column i on: createCell(i) rejects a column past
      the last, then setCellValue a name too long for a cell. */
  function HeaderFailure(headerNames: seq<string>, i: nat): Option<Exception>
    decreases |headerNames| - i
  {
    if i >= |headerNames| then None
    else if i > LastColumnIndex then Some(ColumnLimit(i))
    else if |headerNames[i]| > MaxTextLength then Some(TextLimit)
    else HeaderFailure(headerNames, i + 1)
  }

  /** The cell loop of one data row from column i on: get(i) throws for a
      column the record does not reach, then setCellValue for a field too
      long for a cell. */
  function CellFailure(record: seq<string>, i: nat, width: nat): Option<Exception>
    decreases width - i
  {
    if i >= width then None
    else if i >= |record| then Some(OutOfBounds(i, |record|))
    else if |record[i]| > MaxTextLength then Some(TextLimit)
    else CellFailure(record, i + 1, width)
  }

  /** Filling one data row: createRow first, then the cells in column order. */
  function FillFailure(rowNum: nat, record: seq<string>, width: nat): Option<Exception> {
    if rowNum > LastRowIndex then Some(RowLimit(rowNum)) else CellFailure(record, 0, width)
  }

  /** Column j is the first column from i on where the header loop breaks a
      limit, and e is what it throws there. */
  predicate HeaderFailsFirstAt(headerNames: seq<string>, i: nat, j: nat, e: Exception) {
    i <= j < |headerNames| && j <= LastColumnIndex + 1 &&
    (j <= LastColumnIndex ==> |headerNames[j]| > MaxTextLength) &&
    (forall m :: i <= m < j ==> |headerNames[m]| <= MaxTextLength) &&
    e == (if j > LastColumnIndex then ColumnLimit(j) else TextLimit)
  }

  /** Column j is the first column from i on where a data row's cell loop
      breaks a limit, and e is what it throws there: the index error where
      the record ends, the text-length error for a field that is too long. */
  predicate CellFailsFirstAt(record: seq<string>, i: nat, width: nat, j: nat, e: Exception) {
    i <= j < width && j <= |record| &&
    (j < |record| ==> |record[j]| > MaxTextLength) &&
    (forall m :: i <= m < j ==> |record[m]| <= MaxTextLength) &&
    e == (if j == |record| then OutOfBounds(j, j) else TextLimit)
  }

  /** The header loop fails exactly when the header does not fit, and then
      at the first column that breaks a limit. */
  lemma {:induction false} HeaderFailureFirst(headerNames: seq<string>, i: nat)
    requires i <= |headerNames| && i <= LastColumnIndex + 1
    ensures HeaderFailure(headerNames, i).None? <==>
      |headerNames| <= LastColumnIndex + 1 &&
      forall j :: i <= j < |headerNames| ==> |headerNames[j]| <= MaxTextLength
    ensures HeaderFailure(headerNames, i).Some? ==>
      exists j :: HeaderFailsFirstAt(headerNames, i, j, HeaderFailure(headerNames, i).value)
    decreases |headerNames| - i
  {
    if i < |headerNames| && i <= LastColumnIndex && |headerNames[i]| <= MaxTextLength {
      HeaderFailureFirst(headerNames, i + 1);
      if HeaderFailure(headerNames, i).Some? {
        var j :| HeaderFailsFirstAt(headerNames, i + 1, j, HeaderFailure(headerNames, i + 1).value);
        assert HeaderFailsFirstAt(headerNames, i, j, HeaderFailure(headerNames, i).value);
      }
    } else if i < |headerNames| {
      assert HeaderFailsFirstAt(headerNames, i, i, HeaderFailure(headerNames, i).value);
    }
  }

  /** A data row fails exactly when it does not fit, and then at the first
      column that breaks a limit. */
  lemma {:induction false} CellFailureFirst(record: seq<string>, i: nat, width: nat)
    requires i <= width && i <= |record|
    ensures CellFailure(record, i, width).None? <==>
      width <= |record| && forall j :: i <= j < width ==> |record[j]| <= MaxTextLength
    ensures CellFailure(record, i, width).Some? ==>
      exists j :: CellFailsFirstAt(record, i, width, j, CellFailure(record, i, width).value)
    decreases width - i
  {
    if i < width && i < |record| && |record[i]| <= MaxTextLength {
      CellFailureFirst(record, i + 1, width);
      if CellFailure(record, i, width).Some? {
        var j :| CellFailsFirstAt(record, i + 1, width, j, CellFailure(record, i + 1, width).value);
        assert CellFailsFirstAt(record, i, width, j, CellFailure(record, i, width).value);
      }
    } else if i < width {
      assert CellFailsFirstAt(record, i, width, i, CellFailure(record, i, width).value);
    }
  }

  /** Filling a data row fails exactly when the row does not fit. */
  lemma FillFailureIffNoFit(rowNum: nat, record: seq<string>, width: nat)
    ensures FillFailure(rowNum, record, width).None? <==> RowFits(rowNum, record, width)
  {
    CellFailureFirst(record, 0, width);
  }

  function HeaderRow(headerNames: seq<string>): (row: seq<Cell>)
    ensures |row| == |headerNames|
    ensures forall i :: 0 <= i < |row| ==> row[i].text == headerNames[i] && row[i].style == HeaderStyle
  {
    seq(|headerNames|, i requires 0 <= i < |headerNames| => Cell(headerNames[i], HeaderStyle))
  }

  /** The data rows from sheet row `rowNum` on, filled in record order with
      cells 0 .. width-1; the first record whose row cannot be filled makes
      the whole loop throw that row's exception. */
  function DataRows(records: seq<seq<string>>, width: nat, rowNum: nat): (r: Result<seq<seq<Cell>>>)
    ensures r.Ok? <==> forall k :: 0 <= k < |records| ==> RowFits(rowNum + k, records[k], width)
    ensures r.Ok? ==> |r.value| == |records|
    ensures r.Ok? ==> forall k :: 0 <= k < |records| ==> |r.value[k]| == width
    ensures r.Ok? ==> forall k, i :: 0 <= k < |records| && 0 <= i < width ==>
      r.value[k][i] == Cell(records[k][i], DefaultStyle)
    ensures r.Err? ==>
      exists k :: (0 <= k < |records| &&
                   (forall m :: 0 <= m < k ==> RowFits(rowNum + m, records[m], width)) &&
                   FillFailure(rowNum + k, records[k], width) == Some(r.error))
    decreases |records|
  {
    if |records| == 0 then Ok([])
    else
      FillFailureIffNoFit(rowNum, records[0], width);
      match FillFailure(rowNum, records[0], width)
      case Some(e) => Err(e)
      case None =>
        var rest :- DataRows(records[1..], width, rowNum + 1);
        var row := seq(width, i requires 0 <= i < width => Cell(records[0][i], DefaultStyle));
        var rows := [row] + rest;
        assert forall k :: 1 <= k < |records| ==> rows[k] == rest[k - 1] && records[k] == records[1..][k - 1];
        Ok(rows)
  }

  /** CsvToExcelConverter.convert after the CSV library has read the
      header: fill the header row, then one row per record as the parser
      produces it, and only then meet the parser's own failure, if it
      stopped early. */
  function Convert(read: CsvRead): (r: Result<Workbook>)
    ensures r.Ok? <==>
      HeaderFits(read.table.headerNames) &&
      (forall k :: 0 <= k < |read.table.records| ==> RowFits(k + 1, read.table.records[k], |read.table.headerNames|)) &&
      read.stop.None?
    ensures r.Ok? ==> |r.value.sheets| == 1 && r.value.sheets[0].name == SheetName
    ensures r.Ok? ==> |r.value.sheets[0].rows| == 1 + |read.table.records|
    ensures r.Ok? ==> r.value.sheets[0].rows[0] == HeaderRow(read.table.headerNames)
    ensures r.Ok? ==> forall n :: 1 <= n < |r.value.sheets[0].rows| ==>
      |r.value.sheets[0].rows[n]| == |read.table.headerNames|
    ensures r.Ok? ==> forall n, i :: 1 <= n < |r.value.sheets[0].rows| && 0 <= i < |read.table.headerNames| ==>
      r.value.sheets[0].rows[n][i] == Cell(read.table.records[n - 1][i], DefaultStyle)
    ensures !HeaderFits(read.table.headerNames) ==> r.Err? && HeaderFailure(read.table.headerNames, 0) == Some(r.error)
    ensures r.Err? && HeaderFits(read.table.headerNames) ==>
      if forall k :: 0 <= k < |read.table.records| ==> RowFits(k + 1, read.table.records[k], |read.table.headerNames|)
      then Some(r.error) == read.stop
      else exists k :: (0 <= k < |read.table.records| &&
                        (forall m :: 0 <= m < k ==> RowFits(m + 1, read.table.records[m], |read.table.headerNames|)) &&
                        FillFailure(k + 1, read.table.records[k], |read.table.headerNames|) == Some(r.error))
  {
    var t := read.table;
    HeaderFailureFirst(t.headerNames, 0);
    match HeaderFailure(t.headerNames, 0)
    case Some(e) => Err(e)
    case None =>
      var data :- DataRows(t.records, |t.headerNames|, 1);
      match read.stop
      case Some(e) => Err(e)
      case None =>
        var rows := [HeaderRow(t.headerNames)] + data;
        assert forall n :: 1 <= n < |rows| ==> rows[n] == data[n - 1];
        Ok(Workbook([Sheet(SheetName, rows)]))
  }

  /** A record that does not reach every column fails the conversion before
      the parser's failure on a later line is met: the records are read one
      at a time while the sheet is filled. */
  lemma ShortRecordBeforeParseError(stop: Exception)
    ensures Convert(CsvRead(ParsedCsv(["a", "b"], [HeaderEntry("a", 0), HeaderEntry("b", 1)], [["1"]]), Some(stop)))
      == Err(OutOfBounds(1, 1))
  {
    var read := CsvRead(ParsedCsv(["a", "b"], [HeaderEntry("a", 0), HeaderEntry("b", 1)], [["1"]]), Some(stop));
    assert HeaderFailure(read.table.headerNames, 0).None?;
    assert CellFailure(["1"], 1, 2) == Some(OutOfBounds(1, 1));
  }

  /** The sheet holds at most LastRowIndex data rows: a table with one
      record more fails at row number LastRowIndex + 1, even when every
      record is complete. */
  lemma RowLimitReached(read: CsvRead)
    requires HeaderFits(read.table.headerNames)
    requires |read.table.records| == LastRowIndex + 1
    requires forall k :: 0 <= k < |read.table.records| ==> RowFits(1, read.table.records[k], |read.table.headerNames|)
    ensures Convert(read) == Err(RowLimit(LastRowIndex + 1))
  {
    var t := read.table;
    var w := |t.headerNames|;
    HeaderFailureFirst(t.headerNames, 0);
    var r := DataRows(t.records, w, 1);
    assert !RowFits(1 + LastRowIndex, t.records[LastRowIndex], w);
    var k :| 0 <= k < |t.records| &&
      (forall m :: 0 <= m < k ==> RowFits(1 + m, t.records[m], w)) &&
      FillFailure(1 + k, t.records[k], w) == Some(r.error);
    FillFailureIffNoFit(1 + k, t.records[k], w);
    assert k == LastRowIndex;
  }
}
