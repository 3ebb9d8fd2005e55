/** FileConverterController: the four endpoints under /api/convert. The
    multipart file arrives as its original name and its bytes. */
module Controller {
  import opened Common
  import opened Kinds
  import opened Responses
  import Service
  import Factory
  import Converters
  import ExceptionHandler

  /** One entry of GET /types. */
  datatype ConversionTypeDto = ConversionTypeDto(typeName: string, description: string)

  /** GET /types: one entry per kind, in declaration order. */
  function GetSupportedConversions(): (types: seq<ConversionTypeDto>)
    ensures |types| == |Values|
    ensures forall n :: 0 <= n < |types| ==> types[n] == ConversionTypeDto(Name(Values[n]), Description(Values[n]))
  {
    seq(|Values|, n requires 0 <= n < |Values| => ConversionTypeDto(Name(Values[n]), Description(Values[n])))
  }

  /** Every kind is listed, with its own description, and no type name is
      listed twice. */
  lemma SupportedConversionsListEachKindOnce()
    ensures |GetSupportedConversions()| == 7
    ensures forall k :: ConversionTypeDto(Name(k), Description(k)) in GetSupportedConversions()
    ensures forall i, j :: 0 <= i < j < |GetSupportedConversions()| ==>
      GetSupportedConversions()[i].typeName != GetSupportedConversions()[j].typeName
  {
    var types := GetSupportedConversions();
    ValuesListsEveryKindOnce();
    forall k: ConversionType
      ensures ConversionTypeDto(Name(k), Description(k)) in types
    {
      assert k in Values;
      var n :| 0 <= n < |Values| && Values[n] == k;
      assert types[n] == ConversionTypeDto(Name(k), Description(k));
    }
    forall i, j | 0 <= i < j < |types|
      ensures types[i].typeName != types[j].typeName
    {
      NamesDistinct(Values[i], Values[j]);
    }
  }

  /** The status and body of POST /upload, with the output directory after it. */
  datatype UploadResult = UploadResult(status: int, response: ConversionResponse, store: Service.Store)

  const EmptyFileResponse := ConversionResponse(false, Some("File is empty"), None, None, None, 0, None, None)

  /** POST /upload: an empty file is refused before the service is called;
      otherwise the service's response is returned, with 200 for a success
      and 400 for a failure. */
  function Upload(factory: Factory.ConverterFactory, codecs: Converters.Codecs, store: Service.Store,
                  original: string, input: seq<byte>, kind: ConversionType, token: Service.Token): (r: UploadResult)
    ensures |input| == 0 ==> r == UploadResult(StatusBadRequest, EmptyFileResponse, store)
    ensures |input| > 0 ==>
      var step := Service.ConvertFile(factory, codecs, store, original, input, kind, token);
      r.response == step.response && r.store == step.store
    ensures r.status == StatusOk <==> r.response.success
    ensures r.status == StatusOk || r.status == StatusBadRequest
  {
    if |input| == 0 then UploadResult(StatusBadRequest, EmptyFileResponse, store)
    else
      var step := Service.ConvertFile(factory, codecs, store, original, input, kind, token);
      UploadResult(if step.response.success then StatusOk else StatusBadRequest, step.response, step.store)
  }

  const AttachmentPrefix := "attachment; filename=\""
  const OctetStream := "application/octet-stream"

  /** A download: headers and the file's bytes. */
  datatype Download = Download(contentDisposition: string, contentType: string, contentLength: nat, body: seq<byte>)

  /** GET /download/{fileName}: the stored file as an attachment, or the
      service's FileNotFoundException. */
  function DownloadFile(store: Service.Store, name: string): (r: Result<Download>)
    ensures r.Ok? <==> name in store
    ensures r.Ok? ==>
      && r.value.body == store[name]
      && r.value.contentLength == |store[name]|
      && r.value.contentDisposition == AttachmentPrefix + name + "\""
      && r.value.contentType == OctetStream
    ensures r.Err? ==> r.error == Service.GetConvertedFile(store, name).error
  {
    var bytes :- Service.GetConvertedFile(store, name);
    Ok(Download(AttachmentPrefix + name + "\"", OctetStream, |bytes|, bytes))
  }

  /** A download of a name that was never stored is answered 404 with the
      service's message. */
  lemma MissingDownloadIsNotFound(store: Service.Store, name: string)
    requires name !in store
    ensures DownloadFile(store, name).Err?
    ensures ExceptionHandler.Handle(DownloadFile(store, name).error).status == StatusNotFound
    ensures ExceptionHandler.Handle(DownloadFile(store, name).error).body["error"] ==
      ExceptionHandler.TextValue("File not found: " + name)
  {
  }

  /** A 200 upload returns a download URL whose file name downloads the
      converted bytes, with the content length the response reported. */
  lemma UploadThenDownload(factory: Factory.ConverterFactory, codecs: Converters.Codecs, store: Service.Store,
                           original: string, input: seq<byte>, kind: ConversionType, token: Service.Token)
    requires Upload(factory, codecs, store, original, input, kind, token).status == StatusOk
    ensures var r := Upload(factory, codecs, store, original, input, kind, token);
      var name := r.response.convertedFileName.value;
      && r.response.downloadUrl == Some(Service.DownloadPrefix + name)
      && DownloadFile(r.store, name).Ok?
      && DownloadFile(r.store, name).value.contentLength == r.response.fileSizeBytes
      && DownloadFile(r.store, name).value.body ==
         Converters.Convert(factory.converters[Name(kind)], codecs, input).value
  {
  }

  datatype HealthResponse = HealthResponse(status: string, version: string)

  /** GET /health: a fixed liveness payload. */
  const Health := HealthResponse("File Converter API is running", "1.0.0")
}
