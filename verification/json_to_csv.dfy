/** JSON array of objects to CSV: the header is the first object's key set
    and every object is projected onto it. */
module JsonToCsv {
  import opened Common
  import opened Records

  /** The records handed to the CSV printer: the header record, then one
      record per JSON object. */
  datatype CsvDocument = CsvDocument(header: seq<string>, rows: seq<seq<string>>)

  /** CSVPrinter.print(record.get(key)): an absent key and a JSON null both
      print as an empty field; any other value prints as its text. */
  function FieldText(v: Option<Value>): string {
    match v
    case None => ""
    case Some(Null) => ""
    case Some(Str(s)) => s
    case Some(Other(t)) => t
  }

  /** The fields printed for one object: one per header key, in header order. */
  function ProjectRow(o: JsonObject, header: seq<string>): (row: seq<string>)
    ensures |row| == |header|
  {
    seq(|header|, j requires 0 <= j < |header| => FieldText(Lookup(o, header[j])))
  }

  /** The shaping part of JsonToCsvConverter.convert, after the JSON library
      has read the array. */
  function Convert(records: seq<JsonObject>): (r: Result<CsvDocument>)
    ensures r.Err? <==> |records| == 0
    ensures r.Err? ==> r.error == EmptyJsonArray
    ensures r.Ok? ==> r.value.header == Keys(records[0])
    ensures r.Ok? ==> forall a, b :: 0 <= a < b < |r.value.header| ==> r.value.header[a] != r.value.header[b]
    ensures r.Ok? ==> |r.value.rows| == |records|
    ensures r.Ok? ==> forall i :: 0 <= i < |records| ==> |r.value.rows[i]| == |r.value.header|
    ensures r.Ok? ==> forall i, j :: 0 <= i < |records| && 0 <= j < |r.value.header| ==>
      r.value.rows[i][j] == FieldText(Lookup(records[i], r.value.header[j]))
  {
    if |records| == 0 then Err(EmptyJsonArray)
    else
      var header := Keys(records[0]);
      Ok(CsvDocument(header, seq(|records|, i requires 0 <= i < |records| => ProjectRow(records[i], header))))
  }

  /** The first data row reproduces the first object's values in its own key
      order, since the header is that object's key set. */
  lemma FirstRowIsFirstRecord(records: seq<JsonObject>)
    requires |records| > 0
    ensures Convert(records).Ok?
    ensures Convert(records).value.rows[0] ==
      seq(|records[0]|, j requires 0 <= j < |records[0]| => FieldText(Some(records[0][j].value)))
  {
    var doc := Convert(records).value;
    var first := records[0];
    forall j | 0 <= j < |first|
      ensures doc.rows[0][j] == FieldText(Some(first[j].value))
    {
      LookupFindsField(first, first[j].key, first[j].value);
    }
  }

  /** A key missing from an object prints as an empty field in its row. */
  lemma MissingKeyPrintsEmpty(records: seq<JsonObject>, i: nat, j: nat)
    requires |records| > 0 && i < |records| && j < |records[0]|
    requires records[0][j].key !in Keys(records[i])
    ensures Convert(records).value.rows[i][j] == ""
  {
    LookupAbsent(records[i], records[0][j].key);
  }

  /** Reordering the entries of any object after the first leaves the whole
      output unchanged: rows are filled by key lookup, not by position. */
  lemma KeyOrderOfLaterRecordsIrrelevant(records: seq<JsonObject>, i: nat, reordered: JsonObject)
    requires 0 < i < |records|
    requires multiset(reordered) == multiset(records[i])
    ensures Convert(records[i := reordered]) == Convert(records)
  {
    var header := Keys(records[0]);
    forall j | 0 <= j < |header|
      ensures Lookup(reordered, header[j]) == Lookup(records[i], header[j])
    {
      LookupIgnoresFieldOrder(reordered, records[i], header[j]);
    }
    assert ProjectRow(reordered, header) == ProjectRow(records[i], header);
    var changed := records[i := reordered];
    var rows := seq(|records|, m requires 0 <= m < |records| => ProjectRow(records[m], header));
    var rows' := seq(|changed|, m requires 0 <= m < |changed| => ProjectRow(changed[m], header));
    assert rows' == rows;
  }
}
