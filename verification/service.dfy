/** FileConversionService: names the output, runs the converter the
    registry returns, keeps the result in the output directory and reports
    the outcome. The output directory is a map from file name to contents
    and the random part of a name is a parameter. */
module Service {
  import opened Common
  import opened Kinds
  import opened Responses
  import Converters
  import Factory

  /** The output directory: file name to file contents. */
  type Store = map<string, seq<byte>>

  const DownloadPrefix := "/api/convert/download/"
  const SuccessMessage := "File converted successfully"
  const FailureMessage := "Conversion failed"

  predicate IsHexDigit(c: char) {
    '0' <= c <= '9' || 'a' <= c <= 'f'
  }

  /** The first eight characters of a random UUID's text. */
  type Token = s: string | |s| == 8 && forall i :: 0 <= i < |s| ==> IsHexDigit(s[i]) witness "00000000"

  /** The extension of the file a conversion produces. */
  function OutputExtension(k: ConversionType): (ext: string)
    ensures 0 < |ext| && '.' !in ext
  {
    match k
    case CsvToJson => "json"
    case XmlToJson => "json"
    case JsonToCsv => "csv"
    case JsonToXml => "xml"
    case CsvToExcel => "xlsx"
    case TextToPdf => "pdf"
    case JsonToPdf => "pdf"
  }

  /** The format a kind converts to, one entry per kind. The table is
      written out rather than read off the kind's name, where the same
      format follows "_TO_". */
  datatype Format = Json | Csv | Xml | Excel | Pdf

  function Target(k: ConversionType): Format {
    match k
    case CsvToJson => Json
    case XmlToJson => Json
    case JsonToCsv => Csv
    case JsonToXml => Xml
    case CsvToExcel => Excel
    case TextToPdf => Pdf
    case JsonToPdf => Pdf
  }

  /** The usual file extension of each format. */
  function FormatExtension(f: Format): string {
    match f
    case Json => "json"
    case Csv => "csv"
    case Xml => "xml"
    case Excel => "xlsx"
    case Pdf => "pdf"
  }

  /** The extension table is the target format's usual extension, so two
      kinds share an extension exactly when they share a target format. */
  lemma ExtensionFollowsTarget(a: ConversionType, b: ConversionType)
    ensures OutputExtension(a) == FormatExtension(Target(a))
    ensures OutputExtension(a) == OutputExtension(b) <==> Target(a) == Target(b)
  {
  }

  /** String.lastIndexOf(c): the last position holding c, or -1. */
  function LastIndexOf(s: string, c: char): (i: int)
    ensures -1 <= i < |s|
    ensures i == -1 <==> c !in s
    ensures 0 <= i ==> s[i] == c
    ensures forall j :: i < j < |s| ==> s[j] != c
  {
    if |s| == 0 then -1
    else if s[|s| - 1] == c then |s| - 1
    else LastIndexOf(s[..|s| - 1], c)
  }

  /** The last c of a text is the one before a suffix free of c. */
  lemma {:induction false} LastIndexOfSkipsSuffix(prefix: string, c: char, suffix: string)
    requires c !in suffix
    ensures LastIndexOf(prefix + [c] + suffix, c) == |prefix|
  {
    var s := prefix + [c] + suffix;
    if |suffix| > 0 {
      assert s[|s| - 1] == suffix[|suffix| - 1];
      assert s[..|s| - 1] == prefix + [c] + suffix[..|suffix| - 1];
      LastIndexOfSkipsSuffix(prefix, c, suffix[..|suffix| - 1]);
    }
  }

  /** The part of a file name before its last '.'. */
  function BaseName(original: string): (base: string)
    requires '.' in original
    ensures |base| < |original| && original[..|base|] == base
    ensures original[|base|] == '.' && '.' !in original[|base| + 1..]
  {
    original[..LastIndexOf(original, '.')]
  }

  /** What substring(0, -1) throws for a name without a '.'. */
  function NoSeparator(original: string): Exception {
    Exception(StringIndexOutOfBounds, "begin 0, end -1, length " + NatToString(|original|))
  }

  /** generateOutputFileName: base name, "_", the token, ".", and the
      kind's extension; the original extension is dropped unchecked. */
  function GenerateOutputFileName(original: string, k: ConversionType, token: Token): (r: Result<string>)
    ensures r.Err? <==> '.' !in original
    ensures r.Err? ==> r.error == NoSeparator(original)
    ensures r.Ok? ==> r.value == BaseName(original) + "_" + token + "." + OutputExtension(k)
  {
    var dot := LastIndexOf(original, '.');
    if dot < 0 then Err(NoSeparator(original))
    else Ok(original[..dot] + "_" + token + "." + OutputExtension(k))
  }

  datatype NameParts = NameParts(base: string, token: string, extension: string)

  /** Reads a generated name back: the extension after its last '.', the
      eight characters before that '.', and the base before the '_' that
      precedes them. */
  function SplitGeneratedName(name: string): Option<NameParts> {
    var dot := LastIndexOf(name, '.');
    if dot < 9 || name[dot - 9] != '_' then None
    else Some(NameParts(name[..dot - 9], name[dot - 8..dot], name[dot + 1..]))
  }

  /** Splitting a generated name recovers the base name, the token and the
      extension it was built from. */
  lemma GeneratedNameRoundTrip(original: string, k: ConversionType, token: Token)
    requires '.' in original
    ensures GenerateOutputFileName(original, k, token).Ok?
    ensures SplitGeneratedName(GenerateOutputFileName(original, k, token).value) ==
      Some(NameParts(BaseName(original), token, OutputExtension(k)))
  {
    var base := BaseName(original);
    var ext := OutputExtension(k);
    var name := base + "_" + token + "." + ext;
    assert name == (base + "_" + token) + ['.'] + ext;
    LastIndexOfSkipsSuffix(base + "_" + token, '.', ext);
    assert name[|base|] == '_';
    assert name[..|base|] == base;
    assert name[|base| + 1..|base| + 9] == token;
    assert name[|base| + 10..] == ext;
  }

  /** Generated names are injective in (base name, token, extension): two
      equal names come from the same three parts. */
  lemma GeneratedNamesInjective(o1: string, k1: ConversionType, t1: Token, o2: string, k2: ConversionType, t2: Token)
    requires GenerateOutputFileName(o1, k1, t1).Ok? && GenerateOutputFileName(o2, k2, t2).Ok?
    requires GenerateOutputFileName(o1, k1, t1).value == GenerateOutputFileName(o2, k2, t2).value
    ensures BaseName(o1) == BaseName(o2) && t1 == t2 && OutputExtension(k1) == OutputExtension(k2)
  {
    GeneratedNameRoundTrip(o1, k1, t1);
    GeneratedNameRoundTrip(o2, k2, t2);
  }

  /** The outcome of convertFile together with the output directory after it. */
  datatype Step = Step(response: ConversionResponse, store: Store)

  function FailureResponse(original: string, k: ConversionType, e: Exception): ConversionResponse {
    ConversionResponse(false, Some(FailureMessage), Some(original), None, Some(k), 0, None, Some(e.message))
  }

  function SuccessResponse(original: string, k: ConversionType, name: string, size: nat): ConversionResponse {
    ConversionResponse(true, Some(SuccessMessage), Some(original), Some(name), Some(k), size, Some(DownloadPrefix + name), None)
  }

  /** convertFile: look the converter up, name the output, create the file,
      run the converter into it, and report. Any exception becomes a
      failure response; the file created before the converter ran stays. */
  function ConvertFile(factory: Factory.ConverterFactory, codecs: Converters.Codecs, store: Store,
                       original: string, input: seq<byte>, kind: ConversionType, token: Token): (r: Step)
    ensures r.response.originalFileName == Some(original) && r.response.conversionType == Some(kind)
    ensures r.response.success <==>
      Factory.IsSupported(factory, kind) && '.' in original &&
      Converters.Convert(factory.converters[Name(kind)], codecs, input).Ok?
    ensures r.response.success ==>
      var name := GenerateOutputFileName(original, kind, token).value;
      && r.response.message == Some(SuccessMessage)
      && r.response.convertedFileName == Some(name)
      && r.response.downloadUrl == Some(DownloadPrefix + name)
      && r.response.errorDetails == None
      && name in r.store
      && r.response.fileSizeBytes == |r.store[name]|
      && r.store[name] == Converters.Convert(factory.converters[Name(kind)], codecs, input).value
    ensures !r.response.success ==>
      && r.response.message == Some(FailureMessage)
      && r.response.convertedFileName == None
      && r.response.downloadUrl == None
      && r.response.fileSizeBytes == 0
    ensures !Factory.IsSupported(factory, kind) ==>
      r.store == store && r.response.errorDetails == Some(Factory.Unsupported(kind).message)
    ensures Factory.IsSupported(factory, kind) && '.' !in original ==>
      r.store == store && r.response.errorDetails == Some(NoSeparator(original).message)
    ensures Factory.IsSupported(factory, kind) && '.' in original ==>
      var name := GenerateOutputFileName(original, kind, token).value;
      var output := Converters.Convert(factory.converters[Name(kind)], codecs, input);
      && r.store.Keys == store.Keys + {name}
      && (forall other :: other in store && other != name ==> r.store[other] == store[other])
      && (output.Err? ==> r.store[name] == [] && r.response.errorDetails == Some(output.error.message))
  {
    match Factory.GetConverter(factory, kind)
    case Err(e) => Step(FailureResponse(original, kind, e), store)
    case Ok(converter) =>
      match GenerateOutputFileName(original, kind, token)
      case Err(e) => Step(FailureResponse(original, kind, e), store)
      case Ok(name) =>
        var created := store[name := []];
        match Converters.Convert(converter, codecs, input)
        case Err(e) => Step(FailureResponse(original, kind, e), created)
        case Ok(output) =>
          var written := created[name := output];
          Step(SuccessResponse(original, kind, name, |written[name]|), written)
  }

  /** getConvertedFile: the stored file, or FileNotFoundException. */
  function GetConvertedFile(store: Store, name: string): (r: Result<seq<byte>>)
    ensures r.Ok? <==> name in store
    ensures r.Ok? ==> r.value == store[name]
    ensures r.Err? ==> r.error == Exception(FileNotFound, "File not found: " + name)
  {
    if name in store then Ok(store[name]) else Err(Exception(FileNotFound, "File not found: " + name))
  }

  /** The service itself does not reject an empty upload: with the
      registered converters, empty text still converts to a PDF. */
  lemma ServiceAcceptsEmptyInput(codecs: Converters.Codecs, store: Store, original: string, token: Token)
    requires '.' in original
    ensures ConvertFile(Factory.NewConverterFactory(), codecs, store, original, [], TextToPdf, token).response.success
  {
  }

  /** An empty JSON array fails the conversion but leaves an empty file
      under the generated name. */
  lemma EmptyJsonArrayLeavesEmptyFile(codecs: Converters.Codecs, store: Store, original: string,
                                      input: seq<byte>, token: Token)
    requires '.' in original
    requires codecs.readJsonArray(input) == Ok([])
    ensures var r := ConvertFile(Factory.NewConverterFactory(), codecs, store, original, input, JsonToCsv, token);
      var name := GenerateOutputFileName(original, JsonToCsv, token).value;
      && !r.response.success
      && r.response.errorDetails == Some("JSON array is empty")
      && name in r.store && r.store[name] == []
  {
  }

  /** Two successful conversions with different tokens, one after the
      other, store two different files, and both remain downloadable with
      the size each response reported, whatever the original names. */
  lemma DistinctTokensKeepBothArtifacts(factory: Factory.ConverterFactory, codecs: Converters.Codecs, store: Store,
                                        o1: string, in1: seq<byte>, k1: ConversionType, t1: Token,
                                        o2: string, in2: seq<byte>, k2: ConversionType, t2: Token)
    requires t1 != t2
    requires ConvertFile(factory, codecs, store, o1, in1, k1, t1).response.success
    requires ConvertFile(factory, codecs, ConvertFile(factory, codecs, store, o1, in1, k1, t1).store, o2, in2, k2, t2).response.success
    ensures var first := ConvertFile(factory, codecs, store, o1, in1, k1, t1);
      var second := ConvertFile(factory, codecs, first.store, o2, in2, k2, t2);
      var n1 := first.response.convertedFileName.value;
      var n2 := second.response.convertedFileName.value;
      && n1 != n2
      && GetConvertedFile(second.store, n1) == Ok(first.store[n1])
      && |GetConvertedFile(second.store, n1).value| == first.response.fileSizeBytes
      && |GetConvertedFile(second.store, n2).value| == second.response.fileSizeBytes
  {
    var first := ConvertFile(factory, codecs, store, o1, in1, k1, t1);
    var n1 := GenerateOutputFileName(o1, k1, t1).value;
    var n2 := GenerateOutputFileName(o2, k2, t2).value;
    if n1 == n2 {
      GeneratedNamesInjective(o1, k1, t1, o2, k2, t2);
    }
  }
}
