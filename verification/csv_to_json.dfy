/** CSV to a JSON array of string-valued objects: one object per data
    record, each holding that record's toMap() entries. */
module CsvToJson {
  import opened Common
  import opened Records
  import JsonToCsv

  /** CSVRecord.toMap(): the header map's entries in its iteration order,
      each paired with the record's field in that column, skipping the
      columns the record does not reach. Every value is a string and every
      key is a header name. */
  function RecordToObject(headerMap: seq<HeaderEntry>, rec: seq<string>): (o: seq<Field>)
    ensures |o| <= |headerMap|
    ensures forall k :: 0 <= k < |o| ==> o[k].value.Str? && o[k].key in Names(headerMap)
  {
    if |headerMap| == 0 then []
    else
      var e := headerMap[0];
      var rest := RecordToObject(headerMap[1..], rec);
      NamesCons(headerMap);
      if e.column < |rec| then [Field(e.name, Str(rec[e.column]))] + rest else rest
  }

  /** Header names are unique, so the keys of the object are too. */
  lemma {:induction false} RecordToObjectKeysDistinct(headerMap: seq<HeaderEntry>, rec: seq<string>)
    requires UniqueNames(headerMap)
    ensures DistinctKeys(RecordToObject(headerMap, rec))
  {
    if |headerMap| > 0 {
      var e := headerMap[0];
      var rest := RecordToObject(headerMap[1..], rec);
      RecordToObjectKeysDistinct(headerMap[1..], rec);
      NamesCons(headerMap);
      if e.column < |rec| {
        assert e.name !in Names(headerMap[1..]);
        ConsKeepsKeysDistinct(Field(e.name, Str(rec[e.column])), rest);
      }
    }
  }

  lemma ConsKeepsKeysDistinct(f: Field, rest: seq<Field>)
    requires DistinctKeys(rest)
    requires forall k :: 0 <= k < |rest| ==> rest[k].key != f.key
    ensures DistinctKeys([f] + rest)
  {
  }

  /** The pair (key, s) is in the object exactly when some header-map entry
      named key points at a column the record reaches and that holds s. */
  lemma {:induction false} RecordToObjectEntry(headerMap: seq<HeaderEntry>, rec: seq<string>, key: string, s: string)
    ensures Field(key, Str(s)) in RecordToObject(headerMap, rec) <==>
      exists e :: e in headerMap && e.name == key && e.column < |rec| && rec[e.column] == s
  {
    if |headerMap| > 0 {
      RecordToObjectEntry(headerMap[1..], rec, key, s);
      assert headerMap == [headerMap[0]] + headerMap[1..];
    }
  }

  lemma RecordsEntries(headerMap: seq<HeaderEntry>, records: seq<seq<string>>)
    ensures forall i, key, s :: 0 <= i < |records| ==>
      (Field(key, Str(s)) in RecordToObject(headerMap, records[i]) <==>
       exists e :: e in headerMap && e.name == key && e.column < |records[i]| && records[i][e.column] == s)
  {
    forall i, key, s | 0 <= i < |records|
      ensures Field(key, Str(s)) in RecordToObject(headerMap, records[i]) <==>
        exists e :: e in headerMap && e.name == key && e.column < |records[i]| && records[i][e.column] == s
    {
      RecordToObjectEntry(headerMap, records[i], key, s);
    }
  }

  lemma RecordsKeysDistinct(t: CsvTable)
    ensures forall i :: 0 <= i < |t.records| ==> DistinctKeys(RecordToObject(t.headerMap, t.records[i]))
  {
    forall i | 0 <= i < |t.records|
      ensures DistinctKeys(RecordToObject(t.headerMap, t.records[i]))
    {
      RecordToObjectKeysDistinct(t.headerMap, t.records[i]);
    }
  }

  /** The header-map entries whose column the record reaches, in the
      header map's order: the entries toMap() keeps. */
  function Reached(headerMap: seq<HeaderEntry>, rec: seq<string>): seq<HeaderEntry> {
    if |headerMap| == 0 then []
    else if headerMap[0].column < |rec| then [headerMap[0]] + Reached(headerMap[1..], rec)
    else Reached(headerMap[1..], rec)
  }

  /** The object's keys are the names of the reached header-map entries, in
      the header map's order, so short records keep that order too. */
  lemma {:induction false} RecordToObjectKeyOrder(headerMap: seq<HeaderEntry>, rec: seq<string>)
    ensures Keys(RecordToObject(headerMap, rec)) == Names(Reached(headerMap, rec))
  {
    if |headerMap| > 0 {
      var e := headerMap[0];
      RecordToObjectKeyOrder(headerMap[1..], rec);
      if e.column < |rec| {
        KeysCons(Field(e.name, Str(rec[e.column])), RecordToObject(headerMap[1..], rec));
        NamesCons([e] + Reached(headerMap[1..], rec));
        assert ([e] + Reached(headerMap[1..], rec))[1..] == Reached(headerMap[1..], rec);
      }
    }
  }

  lemma RecordsKeyOrder(t: CsvTable)
    ensures forall i :: 0 <= i < |t.records| ==>
      Keys(RecordToObject(t.headerMap, t.records[i])) == Names(Reached(t.headerMap, t.records[i]))
  {
    forall i | 0 <= i < |t.records|
      ensures Keys(RecordToObject(t.headerMap, t.records[i])) == Names(Reached(t.headerMap, t.records[i]))
    {
      RecordToObjectKeyOrder(t.headerMap, t.records[i]);
    }
  }

  /** The records list CsvToJsonConverter.convert hands to the JSON printer. */
  function Convert(t: CsvTable): (objects: seq<JsonObject>)
    ensures |objects| == |t.records|
    ensures forall i, f :: 0 <= i < |objects| && f in objects[i] ==> f.value.Str?
    ensures forall i, key, s :: 0 <= i < |objects| ==>
      (Field(key, Str(s)) in objects[i] <==>
       exists e :: e in t.headerMap && e.name == key && e.column < |t.records[i]| && t.records[i][e.column] == s)
    ensures forall i :: 0 <= i < |objects| ==> Keys(objects[i]) == Names(Reached(t.headerMap, t.records[i]))
  {
    RecordsEntries(t.headerMap, t.records);
    RecordsKeyOrder(t);
    RecordsKeysDistinct(t);
    seq(|t.records|, i requires 0 <= i < |t.records| => RecordToObject(t.headerMap, t.records[i]))
  }

  /** A record that reaches every column yields an object whose keys are the
      header map's names, in the header map's order. */
  lemma {:induction false} CompleteRecordKeys(headerMap: seq<HeaderEntry>, rec: seq<string>)
    requires forall e :: e in headerMap ==> e.column < |rec|
    ensures Keys(RecordToObject(headerMap, rec)) == Names(headerMap)
  {
    if |headerMap| > 0 {
      var e := headerMap[0];
      var rest := RecordToObject(headerMap[1..], rec);
      CompleteRecordKeys(headerMap[1..], rec);
      assert e in headerMap;
      KeysCons(Field(e.name, Str(rec[e.column])), rest);
      NamesCons(headerMap);
    }
  }

  lemma KeysCons(f: Field, rest: seq<Field>)
    ensures Keys([f] + rest) == [f.key] + Keys(rest)
  {
  }

  lemma NamesCons(headerMap: seq<HeaderEntry>)
    requires |headerMap| > 0
    ensures Names(headerMap) == [headerMap[0].name] + Names(headerMap[1..])
  {
  }

  /** CSV to JSON and back to CSV: for a table whose records all reach every
      column, the header comes back as the header map's names and every
      cell comes back unchanged. */
  lemma RoundTripThroughJsonToCsv(t: CsvTable)
    requires |t.records| > 0
    requires forall i, e :: 0 <= i < |t.records| && e in t.headerMap ==> e.column < |t.records[i]|
    ensures JsonToCsv.Convert(Convert(t)).Ok?
    ensures JsonToCsv.Convert(Convert(t)).value.header == Names(t.headerMap)
    ensures |JsonToCsv.Convert(Convert(t)).value.rows| == |t.records|
    ensures forall i, j :: 0 <= i < |t.records| && 0 <= j < |t.headerMap| ==>
      JsonToCsv.Convert(Convert(t)).value.rows[i][j] == t.records[i][t.headerMap[j].column]
  {
    var objects := Convert(t);
    assert objects[0] == RecordToObject(t.headerMap, t.records[0]);
    CompleteRecordKeys(t.headerMap, t.records[0]);
    var doc := JsonToCsv.Convert(objects).value;
    forall i, j | 0 <= i < |t.records| && 0 <= j < |t.headerMap|
      ensures doc.rows[i][j] == t.records[i][t.headerMap[j].column]
    {
      CellSurvivesRoundTrip(t, i, j);
    }
  }

  /** One cell of a complete record: the object holds the field under the
      column's header name, and looking that name up gives it back. */
  lemma CellSurvivesRoundTrip(t: CsvTable, i: nat, j: nat)
    requires i < |t.records| && j < |t.headerMap|
    requires t.headerMap[j].column < |t.records[i]|
    ensures JsonToCsv.FieldText(Lookup(Convert(t)[i], t.headerMap[j].name)) == t.records[i][t.headerMap[j].column]
  {
    var e := t.headerMap[j];
    var s := t.records[i][e.column];
    var o := Convert(t)[i];
    assert o == RecordToObject(t.headerMap, t.records[i]);
    assert e in t.headerMap;
    RecordToObjectEntry(t.headerMap, t.records[i], e.name, s);
    LookupFindsField(o, e.name, Str(s));
  }
}
