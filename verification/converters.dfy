/** The FileConverter strategy as a closed datatype: each constructor is one
    converter component, and `Convert` dispatches on it. The format
    libraries are the opaque functions of `Codecs`. */
module Converters {
  import opened Common
  import opened Records
  import opened Pdf
  import JsonToCsv
  import CsvToJson
  import CsvToExcel
  import JsonToPdf
  import TextToPdf
  import Kinds

  datatype Converter =
    | CsvToJsonConverter
    | JsonToCsvConverter
    | JsonToXmlConverter
    | XmlToJsonConverter
    | CsvToExcelConverter
    | TextToPdfConverter
    | JsonToPdfConverter

  /** The byte-level work of the format libraries. Readers may throw;
      writers of an already built document do not. The CSV reader throws
      when it cannot read the header; a failure further on ends the records
      it yields and is recorded in its result. The UTF-8 reader replaces
      malformed input instead of throwing. */
  datatype Codecs = Codecs(
    readCsv: seq<byte> -> Result<CsvRead>,
    readJsonArray: seq<byte> -> Result<seq<JsonObject>>,
    decodeUtf8: seq<byte> -> string,
    writeJson: seq<JsonObject> -> seq<byte>,
    writeCsv: JsonToCsv.CsvDocument -> seq<byte>,
    writeXlsx: CsvToExcel.Workbook -> seq<byte>,
    writePdf: PdfDocument -> seq<byte>,
    jsonToXml: seq<byte> -> Result<seq<byte>>,
    xmlToJson: seq<byte> -> Result<seq<byte>>)

  /** getConversionType(): the kind name each converter reports. */
  function GetConversionType(c: Converter): (n: string)
    ensures exists k :: Kinds.Name(k) == n
  {
    match c
    case CsvToJsonConverter => assert Kinds.Name(Kinds.CsvToJson) == "CSV_TO_JSON"; "CSV_TO_JSON"
    case JsonToCsvConverter => assert Kinds.Name(Kinds.JsonToCsv) == "JSON_TO_CSV"; "JSON_TO_CSV"
    case JsonToXmlConverter => assert Kinds.Name(Kinds.JsonToXml) == "JSON_TO_XML"; "JSON_TO_XML"
    case XmlToJsonConverter => assert Kinds.Name(Kinds.XmlToJson) == "XML_TO_JSON"; "XML_TO_JSON"
    case CsvToExcelConverter => assert Kinds.Name(Kinds.CsvToExcel) == "CSV_TO_EXCEL"; "CSV_TO_EXCEL"
    case TextToPdfConverter => assert Kinds.Name(Kinds.TextToPdf) == "TEXT_TO_PDF"; "TEXT_TO_PDF"
    case JsonToPdfConverter => assert Kinds.Name(Kinds.JsonToPdf) == "JSON_TO_PDF"; "JSON_TO_PDF"
  }

  /** No two converters report the same kind, so the registry can key them
      by the kind they report. */
  lemma ConversionTypesDistinct(a: Converter, b: Converter)
    requires GetConversionType(a) == GetConversionType(b)
    ensures a == b
  {
  }

  /** convert(in, out): the bytes written to the output stream, or the
      exception thrown. A reader's exception is passed on unchanged; the
      shaping steps add the empty-array and spreadsheet failures; a CSV
      parser that stops early fails the conversion after the records it
      produced were used. Every modelled failure is thrown before anything
      reaches the output stream. */
  function Convert(c: Converter, codecs: Codecs, input: seq<byte>): (r: Result<seq<byte>>)
    ensures (c == CsvToJsonConverter || c == CsvToExcelConverter) && codecs.readCsv(input).Err? ==>
      r == Err(codecs.readCsv(input).error)
    ensures (c == JsonToCsvConverter || c == JsonToPdfConverter) && codecs.readJsonArray(input).Err? ==>
      r == Err(codecs.readJsonArray(input).error)
    ensures (c == JsonToCsvConverter || c == JsonToPdfConverter) && codecs.readJsonArray(input) == Ok([]) ==>
      r == Err(EmptyJsonArray)
    ensures c == CsvToJsonConverter && codecs.readCsv(input).Ok? ==>
      r == (match codecs.readCsv(input).value.stop
            case Some(e) => Err(e)
            case None => Ok(codecs.writeJson(CsvToJson.Convert(codecs.readCsv(input).value.table))))
    ensures c == JsonToCsvConverter && codecs.readJsonArray(input).Ok? && |codecs.readJsonArray(input).value| > 0 ==>
      JsonToCsv.Convert(codecs.readJsonArray(input).value).Ok? &&
      r == Ok(codecs.writeCsv(JsonToCsv.Convert(codecs.readJsonArray(input).value).value))
    ensures c == JsonToXmlConverter ==> r == codecs.jsonToXml(input)
    ensures c == XmlToJsonConverter ==> r == codecs.xmlToJson(input)
    ensures c == CsvToExcelConverter && codecs.readCsv(input).Ok? ==>
      (r.Ok? <==> CsvToExcel.Convert(codecs.readCsv(input).value).Ok?) &&
      (r.Ok? ==> r.value == codecs.writeXlsx(CsvToExcel.Convert(codecs.readCsv(input).value).value)) &&
      (r.Err? ==> r.error == CsvToExcel.Convert(codecs.readCsv(input).value).error)
    ensures c == TextToPdfConverter ==> r == Ok(codecs.writePdf(TextToPdf.Convert(codecs.decodeUtf8(input))))
    ensures c == JsonToPdfConverter && codecs.readJsonArray(input).Ok? && |codecs.readJsonArray(input).value| > 0 ==>
      JsonToPdf.Convert(codecs.readJsonArray(input).value).Ok? &&
      r == Ok(codecs.writePdf(JsonToPdf.Convert(codecs.readJsonArray(input).value).value))
  {
    match c
    case CsvToJsonConverter =>
      var read :- codecs.readCsv(input);
      if read.stop.Some? then Err(read.stop.value)
      else Ok(codecs.writeJson(CsvToJson.Convert(read.table)))
    case JsonToCsvConverter =>
      var records :- codecs.readJsonArray(input);
      var document :- JsonToCsv.Convert(records);
      Ok(codecs.writeCsv(document))
    case JsonToXmlConverter =>
      codecs.jsonToXml(input)
    case XmlToJsonConverter =>
      codecs.xmlToJson(input)
    case CsvToExcelConverter =>
      var read :- codecs.readCsv(input);
      var workbook :- CsvToExcel.Convert(read);
      Ok(codecs.writeXlsx(workbook))
    case TextToPdfConverter =>
      Ok(codecs.writePdf(TextToPdf.Convert(codecs.decodeUtf8(input))))
    case JsonToPdfConverter =>
      var records :- codecs.readJsonArray(input);
      var document :- JsonToPdf.Convert(records);
      Ok(codecs.writePdf(document))
  }

  /** On the same input, CSV to JSON succeeds whenever CSV to Excel does,
      but not the other way round: the spreadsheet also needs every record
      to reach every column and to fit the sheet's limits, so a first record
      shorter than the header fails only the spreadsheet. */
  lemma ExcelSuccessImpliesJsonSuccess(codecs: Codecs, input: seq<byte>)
    ensures Convert(CsvToExcelConverter, codecs, input).Ok? ==> Convert(CsvToJsonConverter, codecs, input).Ok?
    ensures (codecs.readCsv(input).Ok? && codecs.readCsv(input).value.stop.None? &&
             |codecs.readCsv(input).value.table.headerNames| > 0 &&
             |codecs.readCsv(input).value.table.records| > 0 &&
             0 < |codecs.readCsv(input).value.table.records[0]| < |codecs.readCsv(input).value.table.headerNames|) ==>
      Convert(CsvToJsonConverter, codecs, input).Ok? && Convert(CsvToExcelConverter, codecs, input).Err?
  {
  }

  /** Where the header map sends a header name to its own position, the
      spreadsheet and the JSON conversion agree: the cell in column i of
      data row k is the value JSON object k holds under header name i. */
  lemma SheetAgreesWithJson(read: CsvRead, k: nat, i: nat)
    requires CsvToExcel.Convert(read).Ok?
    requires k < |read.table.records| && i < |read.table.headerNames|
    requires HeaderEntry(read.table.headerNames[i], i) in read.table.headerMap
    ensures Field(read.table.headerNames[i], Str(CsvToExcel.Convert(read).value.sheets[0].rows[k + 1][i].text))
      in CsvToJson.Convert(read.table)[k]
  {
  }
}
