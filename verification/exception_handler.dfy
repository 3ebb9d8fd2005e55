/** GlobalExceptionHandler: turns an exception that escapes a controller
    method into an HTTP status and a three-field JSON body. */
module ExceptionHandler {
  import opened Common
  import opened Responses

  datatype BodyValue = BoolValue(b: bool) | TextValue(text: string)

  datatype ErrorResponse = ErrorResponse(status: int, body: map<string, BodyValue>)

  /** The five handler methods, one per declared exception class. */
  datatype Handler =
    | ConversionHandler
    | NotFoundHandler
    | UploadSizeHandler
    | IllegalArgumentHandler
    | GenericHandler

  /** Whether an exception of the given kind is an instance of the class
      the handler declares. Every exception is an Exception; the four
      other declared classes are unrelated to each other and to the two
      index-out-of-bounds exceptions. */
  predicate Catches(h: Handler, kind: ExceptionKind) {
    match h
    case ConversionHandler => kind == FileConversion
    case NotFoundHandler => kind == FileNotFound
    case UploadSizeHandler => kind == MaxUploadSizeExceeded
    case IllegalArgumentHandler => kind == IllegalArgument
    case GenericHandler => true
  }

  /** Class specificity: the four named classes are subclasses of Exception. */
  predicate MoreSpecific(a: Handler, b: Handler) {
    a != GenericHandler && b == GenericHandler
  }

  /** Spring picks the handler whose declared class is the closest match. */
  function SelectHandler(kind: ExceptionKind): (h: Handler)
    ensures Catches(h, kind)
    ensures forall other :: other != h && Catches(other, kind) ==> MoreSpecific(h, other)
  {
    match kind
    case FileConversion => ConversionHandler
    case FileNotFound => NotFoundHandler
    case MaxUploadSizeExceeded => UploadSizeHandler
    case IllegalArgument => IllegalArgumentHandler
    case StringIndexOutOfBounds => GenericHandler
    case ArrayIndexOutOfBounds => GenericHandler
    case Unclassified => GenericHandler
  }

  const UploadLimitMessage := "Maximum upload size is 10MB"

  function Status(h: Handler): int {
    match h
    case ConversionHandler => StatusBadRequest
    case NotFoundHandler => StatusNotFound
    case UploadSizeHandler => StatusPayloadTooLarge
    case IllegalArgumentHandler => StatusBadRequest
    case GenericHandler => StatusInternalServerError
  }

  function Headline(h: Handler): string {
    match h
    case ConversionHandler => "File conversion failed"
    case NotFoundHandler => "File not found"
    case UploadSizeHandler => "File size exceeds maximum allowed size"
    case IllegalArgumentHandler => "Invalid argument"
    case GenericHandler => "Internal server error"
  }

  /** The response the selected handler builds. */
  function Handle(e: Exception): (r: ErrorResponse)
    ensures r.body.Keys == {"success", "message", "error"}
    ensures r.body["success"] == BoolValue(false)
    ensures r.status == StatusNotFound <==> e.kind == FileNotFound
    ensures r.status == StatusPayloadTooLarge <==> e.kind == MaxUploadSizeExceeded
    ensures r.status == StatusBadRequest <==> e.kind == FileConversion || e.kind == IllegalArgument
    ensures r.status == StatusInternalServerError <==>
      e.kind == StringIndexOutOfBounds || e.kind == ArrayIndexOutOfBounds || e.kind == Unclassified
    ensures r.body["error"] == TextValue(if e.kind == MaxUploadSizeExceeded then UploadLimitMessage else e.message)
    ensures e.kind == FileConversion ==> r.body["message"] == TextValue("File conversion failed")
    ensures e.kind == FileNotFound ==> r.body["message"] == TextValue("File not found")
    ensures e.kind == MaxUploadSizeExceeded ==> r.body["message"] == TextValue("File size exceeds maximum allowed size")
    ensures e.kind == IllegalArgument ==> r.body["message"] == TextValue("Invalid argument")
    ensures r.status == StatusInternalServerError ==> r.body["message"] == TextValue("Internal server error")
  {
    var h := SelectHandler(e.kind);
    var error := if h == UploadSizeHandler then UploadLimitMessage else e.message;
    ErrorResponse(Status(h), map["success" := BoolValue(false), "message" := TextValue(Headline(h)), "error" := TextValue(error)])
  }

  /** The headline tells the handler apart even where two handlers share a
      status, so a client can recover which handler answered. */
  lemma HeadlineIdentifiesHandler(e1: Exception, e2: Exception)
    requires Handle(e1).body["message"] == Handle(e2).body["message"]
    ensures SelectHandler(e1.kind) == SelectHandler(e2.kind)
    ensures Handle(e1).status == Handle(e2).status
  {
  }
}
