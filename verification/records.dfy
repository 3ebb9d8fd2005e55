/** The intermediate values the converters work on, as the format libraries
    hand them over: JSON objects read by the JSON library, and CSV tables
    read by the CSV library. */
module Records {
  import opened Common

  /** A value read from a JSON document. `Str` is a JSON string; `Other` is
      any other non-null value (number, boolean, array or object) together
      with the text its Java toString() gives. */
  datatype Value = Null | Str(s: string) | Other(text: string)

  /** String.valueOf(value): a JSON null renders as "null". */
  function ValueOf(v: Value): string {
    match v
    case Null => "null"
    case Str(s) => s
    case Other(t) => t
  }

  datatype Field = Field(key: string, value: Value)

  predicate DistinctKeys(fs: seq<Field>) {
    forall i, j :: 0 <= i < j < |fs| ==> fs[i].key != fs[j].key
  }

  /** A JSON object as the library's insertion-ordered map: keys unique, in
      document order. */
  type JsonObject = fs: seq<Field> | DistinctKeys(fs) witness []

  /** keySet(), in iteration order. */
  function Keys(fs: seq<Field>): (ks: seq<string>)
    ensures |ks| == |fs|
    ensures forall i :: 0 <= i < |fs| ==> ks[i] == fs[i].key
  {
    seq(|fs|, i requires 0 <= i < |fs| => fs[i].key)
  }

  /** get(key), with None for an absent key. */
  function Lookup(fs: seq<Field>, key: string): Option<Value> {
    if |fs| == 0 then None
    else if fs[0].key == key then Some(fs[0].value)
    else Lookup(fs[1..], key)
  }

  /** In an object, get(key) returns v exactly when (key, v) is one of its entries. */
  lemma {:induction false} LookupFindsField(fs: seq<Field>, key: string, v: Value)
    requires DistinctKeys(fs)
    ensures Lookup(fs, key) == Some(v) <==> Field(key, v) in fs
  {
    if |fs| > 0 {
      LookupFindsField(fs[1..], key, v);
    }
  }

  /** get(key) finds nothing exactly when the key is not in keySet(). */
  lemma {:induction false} LookupAbsent(fs: seq<Field>, key: string)
    ensures Lookup(fs, key) == None <==> key !in Keys(fs)
  {
    if |fs| > 0 {
      LookupAbsent(fs[1..], key);
      assert Keys(fs) == [fs[0].key] + Keys(fs[1..]);
    }
  }

  /** Lookup by key does not depend on the order of an object's entries. */
  lemma LookupIgnoresFieldOrder(a: JsonObject, b: JsonObject, key: string)
    requires multiset(a) == multiset(b)
    ensures Lookup(a, key) == Lookup(b, key)
  {
    match Lookup(a, key)
    case Some(v) =>
      LookupFindsField(a, key, v);
      assert Field(key, v) in multiset(b);
      LookupFindsField(b, key, v);
    case None =>
      if Lookup(b, key).Some? {
        var w := Lookup(b, key).value;
        LookupFindsField(b, key, w);
        assert Field(key, w) in multiset(a);
        LookupFindsField(a, key, w);
      }
  }

  /** One entry of the CSV parser's header map: a header name and its column. */
  datatype HeaderEntry = HeaderEntry(name: string, column: nat)

  /** What the CSV parser yields: the header names in header-record order
      (getHeaderNames()), the header map in its own iteration order (the
      map toMap() walks), and the data records after the header. */
  datatype ParsedCsv = ParsedCsv(headerNames: seq<string>, headerMap: seq<HeaderEntry>, records: seq<seq<string>>)

  predicate UniqueNames(headerMap: seq<HeaderEntry>) {
    forall i, j :: 0 <= i < j < |headerMap| ==> headerMap[i].name != headerMap[j].name
  }

  /** The header map is a map, so its names are unique. */
  type CsvTable = t: ParsedCsv | UniqueNames(t.headerMap) witness ParsedCsv([], [], [])

  /** What the CSV parser hands over when its records are read one by one:
      the table of the records it produced, and the exception its record
      iterator threw, if it stopped before the end of the input. */
  datatype CsvRead = CsvRead(table: CsvTable, stop: Option<Exception>)

  function Names(headerMap: seq<HeaderEntry>): (ns: seq<string>)
    ensures |ns| == |headerMap|
    ensures forall i :: 0 <= i < |headerMap| ==> ns[i] == headerMap[i].name
  {
    seq(|headerMap|, i requires 0 <= i < |headerMap| => headerMap[i].name)
  }

  /** The exception both JSON-array converters throw for an empty array. */
  const EmptyJsonArray := Exception(IllegalArgument, "JSON array is empty")
}
