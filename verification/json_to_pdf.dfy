/** JSON array of objects to a PDF report: a title, then one table whose
    columns come from the first object and whose body is every object's
    values in that object's own order. */
module JsonToPdf {
  import opened Common
  import opened Records
  import opened Pdf
  import JsonToCsv

  const Title := "JSON Data Report"

  /** The cells one object adds: String.valueOf of each value, in the
      object's own iteration order. */
  function RecordCells(o: seq<Field>): (cells: seq<string>)
    ensures |cells| == |o|
    ensures forall j :: 0 <= j < |o| ==> cells[j] == ValueOf(o[j].value)
  {
    seq(|o|, j requires 0 <= j < |o| => ValueOf(o[j].value))
  }

  /** The number of values held by the objects before object i. */
  function Offset(records: seq<JsonObject>, i: nat): nat
    requires i <= |records|
  {
    if i == 0 then 0 else |records[0]| + Offset(records[1..], i - 1)
  }

  /** The body cell stream: every object's values, object after object,
      with no projection onto the header. */
  function BodyCells(records: seq<JsonObject>): (cells: seq<string>)
    ensures |cells| == Offset(records, |records|)
  {
    if |records| == 0 then [] else RecordCells(records[0]) + BodyCells(records[1..])
  }

  /** Object i's values occupy the cells from Offset(records, i) on, in the
      object's own order. */
  lemma {:induction false} BodyCellsAt(records: seq<JsonObject>, i: nat, j: nat)
    requires i < |records| && j < |records[i]|
    ensures Offset(records, i) + j < |BodyCells(records)|
    ensures BodyCells(records)[Offset(records, i) + j] == ValueOf(records[i][j].value)
  {
    var rest := records[1..];
    assert BodyCells(records) == RecordCells(records[0]) + BodyCells(rest);
    if i > 0 {
      BodyCellsAt(rest, i - 1, j);
      assert records[i] == rest[i - 1];
      assert Offset(records, i) == |records[0]| + Offset(rest, i - 1);
    }
  }

  /** The shaping part of JsonToPdfConverter.convert, after the JSON library
      has read the array. */
  function Convert(records: seq<JsonObject>): (r: Result<PdfDocument>)
    ensures r.Err? <==> |records| == 0
    ensures r.Err? ==> r.error == EmptyJsonArray
    ensures r.Ok? ==> |r.value.elements| == 2 && r.value.elements[0] == Paragraph(Title, Bold)
    ensures r.Ok? ==> r.value.elements[1].Table?
    ensures r.Ok? ==> r.value.elements[1].columns == |records[0]|
    ensures r.Ok? ==> r.value.elements[1].headerCells == Keys(records[0])
    ensures r.Ok? ==> r.value.elements[1].cells == BodyCells(records)
  {
    if |records| == 0 then Err(EmptyJsonArray)
    else
      var first := records[0];
      Ok(PdfDocument([Paragraph(Title, Bold), Table(|first|, Keys(first), BodyCells(records))]))
  }

  function Flatten(rows: seq<seq<string>>): seq<string> {
    if |rows| == 0 then [] else rows[0] + Flatten(rows[1..])
  }

  /** An object whose keys are exactly the header, in header order, and
      that holds no null prints the same cells in both converters. */
  lemma AlignedRecordPrintsAlike(o: JsonObject, header: seq<string>)
    requires Keys(o) == header
    requires forall j :: 0 <= j < |o| ==> o[j].value != Null
    ensures JsonToCsv.ProjectRow(o, header) == RecordCells(o)
  {
    forall j | 0 <= j < |header|
      ensures JsonToCsv.FieldText(Lookup(o, header[j])) == ValueOf(o[j].value)
    {
      LookupFindsField(o, o[j].key, o[j].value);
    }
  }

  lemma {:induction false} BodyIsFlattenedRows(records: seq<JsonObject>, header: seq<string>)
    requires forall i :: 0 <= i < |records| ==> Keys(records[i]) == header
    requires forall i, j :: 0 <= i < |records| && 0 <= j < |records[i]| ==> records[i][j].value != Null
    ensures BodyCells(records) ==
      Flatten(seq(|records|, i requires 0 <= i < |records| => JsonToCsv.ProjectRow(records[i], header)))
  {
    var rows := seq(|records|, i requires 0 <= i < |records| => JsonToCsv.ProjectRow(records[i], header));
    if |records| > 0 {
      var tail := records[1..];
      BodyIsFlattenedRows(tail, header);
      var tailRows := seq(|tail|, i requires 0 <= i < |tail| => JsonToCsv.ProjectRow(tail[i], header));
      assert rows[1..] == tailRows;
      AlignedRecordPrintsAlike(records[0], header);
    }
  }

  /** When every object has the first object's keys in the same order and
      no null values, the PDF body is exactly the JSON-to-CSV data rows,
      read row after row. */
  lemma BodyMatchesCsvWhenAligned(records: seq<JsonObject>)
    requires |records| > 0
    requires forall i :: 0 <= i < |records| ==> Keys(records[i]) == Keys(records[0])
    requires forall i, j :: 0 <= i < |records| && 0 <= j < |records[i]| ==> records[i][j].value != Null
    ensures JsonToCsv.Convert(records).Ok?
    ensures BodyCells(records) == Flatten(JsonToCsv.Convert(records).value.rows)
  {
    BodyIsFlattenedRows(records, Keys(records[0]));
  }

  const FirstExample: JsonObject := [Field("a", Str("1")), Field("b", Str("2"))]
  const SecondExample: JsonObject := [Field("b", Str("3")), Field("a", Str("4"))]

  /** Unlike JSON to CSV, the PDF body is not projected onto the header: a
      second object listing the same keys in another order puts its "b"
      value under column "a". */
  lemma BodyNotProjected()
    ensures JsonToCsv.Convert([FirstExample, SecondExample]).value.rows == [["1", "2"], ["4", "3"]]
    ensures BodyCells([FirstExample, SecondExample]) == ["1", "2", "3", "4"]
  {
    var header := Keys(FirstExample);
    assert header == ["a", "b"];
    assert Lookup(FirstExample, "a") == Some(Str("1"));
    assert Lookup(FirstExample, "b") == Some(Str("2"));
    assert Lookup(SecondExample, "a") == Some(Str("4"));
    assert Lookup(SecondExample, "b") == Some(Str("3"));
    assert JsonToCsv.ProjectRow(FirstExample, header) == ["1", "2"];
    assert JsonToCsv.ProjectRow(SecondExample, header) == ["4", "3"];
  }
}
