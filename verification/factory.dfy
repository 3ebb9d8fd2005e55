/** ConverterFactory: the registry from kind name to converter, filled once
    at construction and only read afterwards. */
module Factory {
  import opened Common
  import opened Kinds
  import opened Converters

  datatype ConverterFactory = ConverterFactory(converters: map<string, Converter>)

  /** The registry the constructor builds: one entry per converter, keyed by
      the kind name it serves. */
  function NewConverterFactory(): (f: ConverterFactory)
    ensures forall key :: key in f.converters ==> GetConversionType(f.converters[key]) == key
  {
    ConverterFactory(map[
      "CSV_TO_JSON" := CsvToJsonConverter,
      "JSON_TO_CSV" := JsonToCsvConverter,
      "JSON_TO_XML" := JsonToXmlConverter,
      "XML_TO_JSON" := XmlToJsonConverter,
      "CSV_TO_EXCEL" := CsvToExcelConverter,
      "TEXT_TO_PDF" := TextToPdfConverter,
      "JSON_TO_PDF" := JsonToPdfConverter])
  }

  /** The exception a lookup of an unregistered kind throws. */
  function Unsupported(k: ConversionType): Exception {
    Exception(IllegalArgument, "Unsupported conversion type: " + Name(k))
  }

  /** getConverter(k): the converter stored under k's name, or a typed rejection. */
  function GetConverter(f: ConverterFactory, k: ConversionType): (r: Result<Converter>)
    ensures r.Ok? <==> Name(k) in f.converters
    ensures r.Ok? ==> r.value == f.converters[Name(k)]
    ensures r.Err? ==> r.error == Unsupported(k)
  {
    if Name(k) in f.converters then Ok(f.converters[Name(k)]) else Err(Unsupported(k))
  }

  /** isSupported(k) holds exactly when getConverter(k) does not throw. */
  function IsSupported(f: ConverterFactory, k: ConversionType): (b: bool)
    ensures b <==> GetConverter(f, k).Ok?
  {
    Name(k) in f.converters
  }

  /** Every kind is served, and each kind gets the converter that reports
      that kind's name. */
  lemma EveryKindSupported()
    ensures forall k :: IsSupported(NewConverterFactory(), k)
    ensures forall k ::
      (GetConverter(NewConverterFactory(), k).Ok? &&
       GetConversionType(GetConverter(NewConverterFactory(), k).value) == Name(k))
  {
  }

  /** The constructor registers exactly seven entries, one per kind name. */
  lemma RegistryHasSevenEntries()
    ensures |NewConverterFactory().converters| == 7
    ensures forall key :: key in NewConverterFactory().converters ==> exists k :: Name(k) == key
  {
    var m0: map<string, Converter> := map[];
    var m1 := m0["CSV_TO_JSON" := CsvToJsonConverter];
    var m2 := m1["JSON_TO_CSV" := JsonToCsvConverter];
    var m3 := m2["JSON_TO_XML" := JsonToXmlConverter];
    var m4 := m3["XML_TO_JSON" := XmlToJsonConverter];
    var m5 := m4["CSV_TO_EXCEL" := CsvToExcelConverter];
    var m6 := m5["TEXT_TO_PDF" := TextToPdfConverter];
    var m7 := m6["JSON_TO_PDF" := JsonToPdfConverter];
    assert |m7| == 7;
    assert m7 == NewConverterFactory().converters;
    forall key | key in m7
      ensures exists k :: Name(k) == key
    {
      if key == "CSV_TO_JSON" { assert Name(CsvToJson) == key; }
      else if key == "JSON_TO_CSV" { assert Name(JsonToCsv) == key; }
      else if key == "JSON_TO_XML" { assert Name(JsonToXml) == key; }
      else if key == "XML_TO_JSON" { assert Name(XmlToJson) == key; }
      else if key == "CSV_TO_EXCEL" { assert Name(CsvToExcel) == key; }
      else if key == "TEXT_TO_PDF" { assert Name(TextToPdf) == key; }
      else { assert Name(JsonToPdf) == key; }
    }
  }
}
