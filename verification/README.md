# File converter backend, modelled in Dafny

This project models the conversion pipeline of the java-file-converter
backend, a Spring service with four endpoints under `/api/convert`. A
client uploads a file together with a conversion kind. The
`ConverterFactory` registry picks the `FileConverter` strategy for that
kind. `FileConversionService` names the output file, runs the converter
into the output directory and builds a `ConversionResponse`. The
controller maps that outcome to an HTTP status, and
`GlobalExceptionHandler` maps exceptions that escape a controller to an
error body.

The format libraries are not modelled. These are the JSON, XML, CSV,
spreadsheet and PDF readers and writers. They appear as the opaque
functions of `Converters.Codecs`:

- Readers return a value or an exception.
- Writers of an already built document return bytes.

What each converter does between reading and writing is modelled exactly:

- JSON→CSV projects every object onto the first object's keys.
- CSV→JSON builds one object per record from `toMap()`.
- CSV→Excel lays the cells out by column index, within the spreadsheet's
  row, column and cell-text limits, while the parser reads the records one
  by one.
- JSON→PDF emits a title and a table with an unprojected cell stream.
- Text→PDF emits one paragraph per `readLine` line.

The output directory is a `map<string, seq<byte>>`. The random UUID
prefix is a `Token` parameter: eight lower-case hexadecimal characters.

Modules, one per component:

| module | component |
|---|---|
| `Common` | `Option`, `Result`, the exception classes the code throws or catches, decimal rendering |
| `Kinds` | `ConversionType` |
| `Records` | JSON objects and CSV tables as the libraries hand them over |
| `JsonToCsv` | `JsonToCsvConverter` |
| `CsvToJson` | `CsvToJsonConverter` |
| `CsvToExcel` | `CsvToExcelConverter` |
| `Pdf` | PDF document elements |
| `JsonToPdf` | `JsonToPdfConverter` |
| `TextToPdf` | `TextToPdfConverter` |
| `Converters` | the `FileConverter` strategy as a datatype, plus the library functions |
| `Factory` | `ConverterFactory` |
| `Responses` | `ConversionResponse` and status codes |
| `Service` | `FileConversionService` |
| `ExceptionHandler` | `GlobalExceptionHandler` |
| `Controller` | `FileConverterController` |

Three behaviours of the code are easy to miss, and the model keeps each:

- The service does not reject empty input; only the controller does.
  `Service.ServiceAcceptsEmptyInput` shows the service converting empty
  text.
- The output file is created before the converter runs and is not removed
  when the converter throws. `Service.EmptyJsonArrayLeavesEmptyFile` shows
  the empty file that is left behind.
- CSV→JSON keys follow the parser's header map, not the header line. Under
  `withIgnoreHeaderCase` that map is a case-insensitive sorted map. The
  model takes the header map as the CSV library's output.

## Model

| member | source | states |
|---|---|---|
| Kinds.ValuesListsEveryKindOnce | backend/src/main/java/com/fileconverter/model/ConversionType.java:7-13 | values() has exactly seven entries; every kind appears in it, and no kind appears twice |
| Kinds.NamesDistinct | backend/src/main/java/com/fileconverter/model/ConversionType.java:7-13 | two kinds with the same name() are the same kind |
| Kinds.DescriptionsDistinct | backend/src/main/java/com/fileconverter/model/ConversionType.java:7-13 | two kinds with the same description are the same kind |
| Records.LookupFindsField | backend/src/main/java/com/fileconverter/converter/JsonToCsvConverter.java:41 | in an object with unique keys, get(key) returns v exactly when the pair (key, v) is one of its fields |
| Records.LookupAbsent | backend/src/main/java/com/fileconverter/converter/JsonToCsvConverter.java:41 | get(key) returns null exactly when key is not in the object's key set |
| Records.LookupIgnoresFieldOrder | backend/src/main/java/com/fileconverter/converter/JsonToCsvConverter.java:41 | get(key) gives the same answer on two objects that hold the same fields in different orders |
| JsonToCsv.Convert | backend/src/main/java/com/fileconverter/converter/JsonToCsvConverter.java:29-44 | an empty array fails with IllegalArgumentException "JSON array is empty"; otherwise the header is the first object's keys, without duplicates; there is one row per object, in order; every row has the header's width; cell j of row i is what print(get(header[j])) writes |
| JsonToCsv.FirstRowIsFirstRecord | backend/src/main/java/com/fileconverter/converter/JsonToCsvConverter.java:34-42 | the first data row is the first object's values in its own key order, with null printed as an empty field |
| JsonToCsv.MissingKeyPrintsEmpty | backend/src/main/java/com/fileconverter/converter/JsonToCsvConverter.java:41 | a header key that a later object lacks prints as an empty field |
| JsonToCsv.KeyOrderOfLaterRecordsIrrelevant | backend/src/main/java/com/fileconverter/converter/JsonToCsvConverter.java:39-42 | reordering the fields of any object after the first leaves the whole CSV document unchanged |
| CsvToJson.RecordToObject | backend/src/main/java/com/fileconverter/converter/CsvToJsonConverter.java:36-37 | the object built from toMap() has at most one entry per header-map entry; every value is a string and every key is a header name |
| CsvToJson.RecordToObjectEntry | backend/src/main/java/com/fileconverter/converter/CsvToJsonConverter.java:36-37 | (key, s) is in the object exactly when some header-map entry named key points at a column the record reaches and that column holds s |
| CsvToJson.RecordToObjectKeysDistinct | backend/src/main/java/com/fileconverter/converter/CsvToJsonConverter.java:36-37 | the object's keys are unique, because header names are |
| CsvToJson.RecordsEntries | backend/src/main/java/com/fileconverter/converter/CsvToJsonConverter.java:35-39 | the entry property holds for every record of the table |
| CsvToJson.RecordsKeysDistinct | backend/src/main/java/com/fileconverter/converter/CsvToJsonConverter.java:35-39 | every record's object has unique keys |
| CsvToJson.RecordToObjectKeyOrder | backend/src/main/java/com/fileconverter/converter/CsvToJsonConverter.java:36-37 | the object's keys are the names of the header-map entries whose column the record reaches, in the header map's order |
| CsvToJson.RecordsKeyOrder | backend/src/main/java/com/fileconverter/converter/CsvToJsonConverter.java:35-39 | the key-order property holds for every record of the table |
| CsvToJson.Convert | backend/src/main/java/com/fileconverter/converter/CsvToJsonConverter.java:35-39 | one object per data record, in record order, each holding exactly that record's toMap() entries as strings, with keys in the header map's order restricted to the columns the record reaches, short records included |
| CsvToJson.CompleteRecordKeys | backend/src/main/java/com/fileconverter/converter/CsvToJsonConverter.java:36-37 | a record that reaches every column yields an object whose keys are the header map's names, in header-map order |
| CsvToJson.CellSurvivesRoundTrip | backend/src/main/java/com/fileconverter/converter/CsvToJsonConverter.java:36-37 | looking up a column's header name in the object of a record that reaches that column gives back the record's field |
| CsvToJson.RoundTripThroughJsonToCsv | backend/src/main/java/com/fileconverter/converter/CsvToJsonConverter.java:35-39 | converting complete CSV records to JSON and back to CSV gives the header-map names as header, with each cell the field of the column that name maps to |
| CsvToExcel.DataRows | backend/src/main/java/com/fileconverter/converter/CsvToExcelConverter.java:51-58 | every record yields a row of exactly the header's width, with cell i equal to field i; this succeeds exactly when every record's row fits: its row number is at most 1,048,575, it reaches every column, and no field is longer than 32,767 characters; otherwise the first record whose row does not fit throws what filling that row throws |
| CsvToExcel.Convert | backend/src/main/java/com/fileconverter/converter/CsvToExcelConverter.java:30-58 | succeeds exactly when the header fits the sheet, every record's row fits, and the parser did not stop early; then one sheet named "Data", row 0 holding the header names in the header style, and data record k in row k+1 with cells by index; a header that does not fit fails at its first bad column; otherwise the first record whose row does not fit decides the error, and only after all produced records fit does the parser's own failure count |
| CsvToExcel.HeaderFailureFirst | backend/src/main/java/com/fileconverter/converter/CsvToExcelConverter.java:42-48 | the header loop throws exactly when there are more than 16,384 header names or one is longer than 32,767 characters; it throws at the first such column, with the column-index error for column 16,384 and the text-length error otherwise |
| CsvToExcel.CellFailureFirst | backend/src/main/java/com/fileconverter/converter/CsvToExcelConverter.java:54-57 | the cell loop of a data row throws exactly when the record is shorter than the header or one of its fields is longer than 32,767 characters; at the first such column j it throws "Index j out of bounds for length j" where the record ends at j, and the text-length error otherwise |
| CsvToExcel.FillFailureIffNoFit | backend/src/main/java/com/fileconverter/converter/CsvToExcelConverter.java:53-57 | filling a data row throws exactly when its row number is past 1,048,575, the record does not reach every column, or a field is too long for a cell |
| CsvToExcel.ShortRecordBeforeParseError | backend/src/main/java/com/fileconverter/converter/CsvToExcelConverter.java:52-57 | for header a,b and first record 1, the conversion fails with "Index 1 out of bounds for length 1" whatever the parser throws on a later line |
| CsvToExcel.RowLimitReached | backend/src/main/java/com/fileconverter/converter/CsvToExcelConverter.java:52-53 | 1,048,576 complete records fail with the row-number error for row 1,048,576 |
| JsonToPdf.BodyCells | backend/src/main/java/com/fileconverter/converter/JsonToPdfConverter.java:60-64 | the body holds as many cells as all objects have fields together |
| JsonToPdf.BodyCellsAt | backend/src/main/java/com/fileconverter/converter/JsonToPdfConverter.java:60-64 | field j of object i sits at that object's offset plus j, as String.valueOf of its value, so null renders "null" |
| JsonToPdf.Convert | backend/src/main/java/com/fileconverter/converter/JsonToPdfConverter.java:31-66 | an empty array fails with "JSON array is empty"; otherwise the document is the bold title "JSON Data Report" and then one table; the table has as many columns as the first object has keys, those keys as header cells, and the unprojected body stream |
| JsonToPdf.AlignedRecordPrintsAlike | backend/src/main/java/com/fileconverter/converter/JsonToPdfConverter.java:60-64 | an object whose keys are the first object's keys in the same order, with no nulls, gives the same cells as its CSV row |
| JsonToPdf.BodyIsFlattenedRows | backend/src/main/java/com/fileconverter/converter/JsonToPdfConverter.java:60-64 | when every object carries exactly the header keys in header order and no null value, the PDF body equals the concatenation of the rows projected onto the header |
| JsonToPdf.BodyMatchesCsvWhenAligned | backend/src/main/java/com/fileconverter/converter/JsonToPdfConverter.java:60-64 | when every object is aligned with the first, the PDF body is the flattened CSV rows |
| JsonToPdf.BodyNotProjected | backend/src/main/java/com/fileconverter/converter/JsonToPdfConverter.java:60-64 | for [{a:1,b:2},{b:3,a:4}] the CSV rows are 1,2 and 4,3, while the PDF cells run 1,2,3,4: values are not projected onto the header |
| TextToPdf.ReadLines | backend/src/main/java/com/fileconverter/converter/TextToPdfConverter.java:25-29 | readLine gives no line for empty input and at least one otherwise; no line contains a line feed or carriage return |
| TextToPdf.ReadLinesSplitsAtTerminator | backend/src/main/java/com/fileconverter/converter/TextToPdfConverter.java:27 | a line ends at "\n", at "\r\n", or at a lone "\r", and reading continues after the terminator |
| TextToPdf.TerminatorIndexSkipsLine | backend/src/main/java/com/fileconverter/converter/TextToPdfConverter.java:27 | the search for the end of a line passes over a prefix that holds no terminator |
| TextToPdf.ReadLinesRoundTrip | backend/src/main/java/com/fileconverter/converter/TextToPdfConverter.java:25-29 | text written as terminator-free lines, each ended by "\n", reads back as exactly those lines in order |
| TextToPdf.Convert | backend/src/main/java/com/fileconverter/converter/TextToPdfConverter.java:20-32 | one regular paragraph per line, in line order, with no terminators in the text; empty text gives a document with no paragraphs |
| Converters.GetConversionType | backend/src/main/java/com/fileconverter/converter/CsvToExcelConverter.java:69-72 | each converter reports the name() of one conversion kind |
| Converters.ConversionTypesDistinct | backend/src/main/java/com/fileconverter/converter/FileConverter.java:21-26 | no two converters report the same kind, so keying the registry by getConversionType() loses none |
| Converters.Convert | backend/src/main/java/com/fileconverter/converter/FileConverter.java:19 | a reader's exception is returned unchanged; an empty JSON array fails with "JSON array is empty"; otherwise JSON to CSV and JSON to PDF write the document their shaping step builds, CSV to JSON fails with the parser's early stop or writes the objects built from the records, CSV to Excel fails exactly when its sheet filling fails and otherwise writes the workbook, text to PDF always writes the paragraphs of the decoded text, and JSON to XML and XML to JSON return their library's result |
| Converters.ExcelSuccessImpliesJsonSuccess | backend/src/main/java/com/fileconverter/converter/CsvToExcelConverter.java:52-57 | on the same input CSV to JSON succeeds whenever CSV to Excel does, and a first record with at least one field but fewer than the header makes CSV to Excel fail while CSV to JSON succeeds |
| Converters.SheetAgreesWithJson | backend/src/main/java/com/fileconverter/converter/CsvToExcelConverter.java:51-58 | where the header map sends header name i to column i, the cell in column i of data row k is the value that CSV to JSON puts in object k under that name |
| Factory.NewConverterFactory | backend/src/main/java/com/fileconverter/factory/ConverterFactory.java:28-34 | every registry key is the getConversionType() of the converter stored under it |
| Factory.GetConverter | backend/src/main/java/com/fileconverter/factory/ConverterFactory.java:44-50 | returns the converter registered under name(), exactly when one is registered, and otherwise throws IllegalArgumentException "Unsupported conversion type: " + name |
| Factory.IsSupported | backend/src/main/java/com/fileconverter/factory/ConverterFactory.java:58-60 | holds exactly when getConverter does not throw |
| Factory.EveryKindSupported | backend/src/main/java/com/fileconverter/factory/ConverterFactory.java:28-34 | the constructor's registry supports every kind, and each kind gets the converter that reports that kind's name |
| Factory.RegistryHasSevenEntries | backend/src/main/java/com/fileconverter/factory/ConverterFactory.java:28-34 | the registry has exactly seven keys, each of them some kind's name |
| Service.OutputExtension | backend/src/main/java/com/fileconverter/service/FileConversionService.java:111-119 | every kind has a non-empty extension without a '.' |
| Service.ExtensionFollowsTarget | backend/src/main/java/com/fileconverter/service/FileConversionService.java:111-119 | each kind's extension is the usual extension of the format it converts to (JSON json, CSV csv, XML xml, Excel xlsx, PDF pdf), so two kinds share an extension exactly when they share a target format |
| Service.LastIndexOf | backend/src/main/java/com/fileconverter/service/FileConversionService.java:102 | lastIndexOf gives -1 exactly when the character is absent; otherwise it gives a position holding it, after which it never occurs |
| Service.LastIndexOfSkipsSuffix | backend/src/main/java/com/fileconverter/service/FileConversionService.java:102 | the last occurrence of c is the one followed by a suffix free of c |
| Service.BaseName | backend/src/main/java/com/fileconverter/service/FileConversionService.java:102 | the base name is a proper prefix of the original, followed by a '.' that is the original's last |
| Service.GenerateOutputFileName | backend/src/main/java/com/fileconverter/service/FileConversionService.java:101-106 | fails exactly when the name has no '.', with StringIndexOutOfBoundsException "begin 0, end -1, length n"; otherwise gives base + "_" + token + "." + extension, whatever the original extension was |
| Service.GeneratedNameRoundTrip | backend/src/main/java/com/fileconverter/service/FileConversionService.java:101-106 | splitting a generated name gives back its base name, token and extension |
| Service.GeneratedNamesInjective | backend/src/main/java/com/fileconverter/service/FileConversionService.java:99-106 | equal generated names have equal base names, tokens and extensions, so distinct tokens never collide |
| Service.ConvertFile | backend/src/main/java/com/fileconverter/service/FileConversionService.java:39-82 | succeeds exactly when the kind is registered, the name has a '.', and the converter does not throw; a success carries the fixed message, the generated name, the download URL, and the stored file's size; a failure carries "Conversion failed" and the exception's message, with no name and no URL; the directory is unchanged when the lookup or the naming throws; otherwise exactly the generated name is added, and after a converter failure it holds an empty file, since every failure the model's converters throw comes before they write |
| Service.GetConvertedFile | backend/src/main/java/com/fileconverter/service/FileConversionService.java:90-96 | returns the stored file exactly when the name is present, and otherwise throws FileNotFoundException "File not found: " + name |
| Service.ServiceAcceptsEmptyInput | backend/src/main/java/com/fileconverter/service/FileConversionService.java:39-55 | the service has no empty-input check: an empty text upload converts successfully |
| Service.EmptyJsonArrayLeavesEmptyFile | backend/src/main/java/com/fileconverter/service/FileConversionService.java:51-55 | an empty JSON array reports failure with "JSON array is empty" and leaves an empty file under the generated name |
| Service.DistinctTokensKeepBothArtifacts | backend/src/main/java/com/fileconverter/service/FileConversionService.java:47-70 | two successive successes with different tokens store two different names; the first file stays downloadable with its reported size |
| ExceptionHandler.SelectHandler | backend/src/main/java/com/fileconverter/exception/GlobalExceptionHandler.java:19-62 | the handler chosen catches the exception and is more specific than any other handler that catches it |
| ExceptionHandler.Handle | backend/src/main/java/com/fileconverter/exception/GlobalExceptionHandler.java:19-62 | the body has exactly the keys success, message and error, with success false; 404 exactly for FileNotFoundException; 413 exactly for an oversized upload; 400 exactly for FileConversionException and IllegalArgumentException; 500 for everything else; error is the exception's message, except for 413, where it is "Maximum upload size is 10MB"; message is "File conversion failed", "File not found", "File size exceeds maximum allowed size", "Invalid argument" or "Internal server error" for the five handlers |
| ExceptionHandler.HeadlineIdentifiesHandler | backend/src/main/java/com/fileconverter/exception/GlobalExceptionHandler.java:19-62 | the message field identifies the handler, so it determines the status |
| Controller.GetSupportedConversions | backend/src/main/java/com/fileconverter/controller/FileConverterController.java:42-47 | one entry per kind in values() order, carrying name() and getDescription() |
| Controller.SupportedConversionsListEachKindOnce | backend/src/main/java/com/fileconverter/controller/FileConverterController.java:42-46 | the listing has seven entries; every kind is listed with its description, and no type name is listed twice |
| Controller.Upload | backend/src/main/java/com/fileconverter/controller/FileConverterController.java:51-75 | an empty file gets 400 with "File is empty", and the service is not called; otherwise the service response is returned unchanged, with 200 exactly when it reports success and 400 otherwise |
| Controller.DownloadFile | backend/src/main/java/com/fileconverter/controller/FileConverterController.java:79-93 | a stored file is returned as an octet-stream attachment named after the request, with its length as content length; an absent name propagates the service's FileNotFoundException |
| Controller.MissingDownloadIsNotFound | backend/src/main/java/com/fileconverter/controller/FileConverterController.java:79-85 | downloading an absent name ends in 404 with error "File not found: " + name |
| Controller.UploadThenDownload | backend/src/main/java/com/fileconverter/controller/FileConverterController.java:68-92 | after a 200 upload, the file named in the download URL downloads the converted bytes, with the content length the response reported |

## Left out

- The byte-level work of the JSON, XML, CSV, spreadsheet and PDF libraries is left out. Its results are the opaque functions of `Converters.Codecs`. This covers:
  - CSV trimming, quoting and header-case handling;
  - pretty printing;
  - UTF-8 decoding;
  - the header map's order.
- JSON elements that are not objects, and a top-level null, are left out. The model counts them among the reader's failures. In the code, JSON→CSV meets such an element after the header and the earlier rows are printed: `[{"a":1}, 5]` or `[{"a":1}, null]` throws ClassCastException or NullPointerException, and closing the printer flushes `a` and `1` into the file. The model leaves an empty file there instead. JSON→PDF meets them while building the table, after the PDF writer was opened on the output.
- JsonToXmlConverter and XmlToJsonConverter are each one library read followed by one library write. They are modelled only as `Codecs.jsonToXml` and `Codecs.xmlToJson`.
- Presentation is left out, because it does not change the content:
  - fonts, font sizes and colours;
  - fill patterns, margins and table width;
  - column auto-sizing.
- JsonToPdf.Convert builds a table even when the first object has no keys. Whether the PDF library's table constructor rejects zero columns is library behaviour and is not modelled.
- The spreadsheet limits' exception texts are those of the spreadsheet library for the XLSX format. Java counts a cell text's length in UTF-16 units, and the model counts characters.
- Writer failures are left out. An IO error while writing the output or reading its size belongs to the streams and the file system, which are not modelled.
- The output directory is a flat map. Directory creation, streams and path joining are left out, so the path traversal that an unsanitised file name would allow is outside the model.
- The UUID generator is replaced by the `Token` parameter.
- Spring machinery is left out:
  - binding the conversion-type parameter;
  - the multipart size limit that raises the 413 exception;
  - logging, API documentation, CORS and bootstrap.
- The health endpoint is the constant `Controller.Health`; it has no logic.
- A null original file name is left out, since the model's names are always strings. Java string lengths count UTF-16 units, and the model counts characters.
- FileConversionException is never thrown by the modelled code. It appears only as a kind the exception handler maps.
- The Angular frontend is left out. It is a user interface and an HTTP client.
- Concurrency is left out, since nothing in the code synchronises. Name uniqueness rests on the token alone.
