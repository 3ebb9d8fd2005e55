/** The response record of an upload and the HTTP status codes the web
    layer uses. */
module Responses {
  import opened Common
  import opened Kinds

  /** ConversionResponse: a plain record; fields the builder leaves unset
      are None, and the size defaults to 0. */
  datatype ConversionResponse = ConversionResponse(
    success: bool,
    message: Option<string>,
    originalFileName: Option<string>,
    convertedFileName: Option<string>,
    conversionType: Option<ConversionType>,
    fileSizeBytes: nat,
    downloadUrl: Option<string>,
    errorDetails: Option<string>)

  const StatusOk := 200
  const StatusBadRequest := 400
  const StatusNotFound := 404
  const StatusPayloadTooLarge := 413
  const StatusInternalServerError := 500
}
