/** The closed set of conversion kinds the API offers, with the
    human-readable description each one carries. */
module Kinds {

  datatype ConversionType =
    | CsvToJson
    | JsonToCsv
    | JsonToXml
    | XmlToJson
    | CsvToExcel
    | JsonToPdf
    | TextToPdf

  /** The constants in declaration order, as values() returns them. */
  const Values: seq<ConversionType> :=
    [CsvToJson, JsonToCsv, JsonToXml, XmlToJson, CsvToExcel, JsonToPdf, TextToPdf]

  /** The constant's identifier, which is what both name() and toString() give. */
  function Name(k: ConversionType): string {
    match k
    case CsvToJson => "CSV_TO_JSON"
    case JsonToCsv => "JSON_TO_CSV"
    case JsonToXml => "JSON_TO_XML"
    case XmlToJson => "XML_TO_JSON"
    case CsvToExcel => "CSV_TO_EXCEL"
    case JsonToPdf => "JSON_TO_PDF"
    case TextToPdf => "TEXT_TO_PDF"
  }

  /** The fixed description passed to each constant's constructor. */
  function Description(k: ConversionType): string {
    match k
    case CsvToJson => "CSV para JSON"
    case JsonToCsv => "JSON para CSV"
    case JsonToXml => "JSON para XML"
    case XmlToJson => "XML para JSON"
    case CsvToExcel => "CSV para Excel"
    case JsonToPdf => "JSON para PDF"
    case TextToPdf => "Texto para PDF"
  }

  /** values() enumerates exactly the seven kinds, each once. */
  lemma ValuesListsEveryKindOnce()
    ensures |Values| == 7
    ensures forall k :: k in Values
    ensures forall i, j :: 0 <= i < j < |Values| ==> Values[i] != Values[j]
  {
    forall k: ConversionType
      ensures k in Values
    {
      match k
      case CsvToJson => assert Values[0] == k;
      case JsonToCsv => assert Values[1] == k;
      case JsonToXml => assert Values[2] == k;
      case XmlToJson => assert Values[3] == k;
      case CsvToExcel => assert Values[4] == k;
      case JsonToPdf => assert Values[5] == k;
      case TextToPdf => assert Values[6] == k;
    }
  }

  /** Distinct kinds have distinct names, so a name identifies its kind. */
  lemma NamesDistinct(a: ConversionType, b: ConversionType)
    ensures Name(a) == Name(b) ==> a == b
  {
  }

  /** Distinct kinds have distinct descriptions. */
  lemma DescriptionsDistinct(a: ConversionType, b: ConversionType)
    ensures Description(a) == Description(b) ==> a == b
  {
  }
}
