/**
  * The receipt upload endpoint (expenserule/routers/upload.py,
  * `parse_upload`): validate the content type and the size, store the
  * original file under a fresh upload id, preprocess it, have it parsed,
  * categorize the merchant, and answer with either an HTTP error status or
  * the extracted fields.
  *
  * The uploads directory is a class whose `files` map is updated in place,
  * as `write_bytes` and `unlink` update the directory. The generated upload
  * id and every external service are parameters.
  */
module Upload {
  import opened Wrappers
  import opened Text
  import opened Llm
  import opened Categorization

  type Byte = bv8

  /** The content types the endpoint accepts. */
  const ALLOWED_CONTENT_TYPES: set<string> := {"image/jpeg", "image/png", PDF_CONTENT_TYPE}

  /** 20 MB. */
  const MAX_UPLOAD_BYTES := 20 * 1024 * 1024

  /** File name extension of a stored upload, by content type. */
  const EXT_MAP: map<string, string> :=
    map["image/jpeg" := ".jpg", "image/png" := ".png", PDF_CONTENT_TYPE := ".pdf"]

  /** The answer of the endpoint: an error status, or the JSON body of a success. */
  datatype Response =
    | HttpError(status: nat)
    | Parsed(uploadId: string, merchant: string, date: Option<Json>, amount: Option<real>,
             category: string, scheduleCLine: string, categorySource: string)

  /**
    * What the services outside the endpoint produce for one request: the
    * rasterized PDF pages or the decoded image (`None` when that step
    * raises), the vision model's reply (`None` when the call fails), the
    * decoders used on that reply, the correction store, and the reply of the
    * category classifier (`None` when that call fails; the endpoint does not
    * catch that failure, so the request ends in a server error).
    */
  datatype Services = Services(
    pdfPages: Option<seq<Dims>>,
    decoded: Option<Dims>,
    visionReply: Option<string>,
    decoders: Decoders,
    correction: string -> Option<string>,
    classifierReply: Option<string>)

  /**
    * The classifier reply handed to `SuggestCategory`. When the call failed
    * any text will do: the reply is read only when the classifier is
    * consulted, and then the failure has already decided the response.
    */
  function ReplyText(services: Services): string {
    if services.classifierReply.Some? then services.classifierReply.value else ""
  }

  /** The name an upload is stored under: the upload id followed by the extension. */
  function StoredName(uploadId: string, contentType: string): (name: string)
    requires contentType in ALLOWED_CONTENT_TYPES
    ensures StartsWith(name, uploadId)
    ensures name[|uploadId|..] in EXT_MAP.Values
    ensures contentType == "image/jpeg" ==> name == uploadId + ".jpg"
    ensures contentType == "image/png" ==> name == uploadId + ".png"
    ensures contentType == PDF_CONTENT_TYPE ==> name == uploadId + ".pdf"
  {
    uploadId + EXT_MAP[contentType]
  }

  /** The uploads directory: file name to contents. */
  class UploadDir {
    var files: map<string, seq<Byte>>

    constructor()
      ensures files == map[]
    {
      files := map[];
    }

    /**
      * `parse_upload`. `contentType` is `None` when the request names no
      * content type. The original file is kept once preprocessing has
      * succeeded, even when parsing then fails.
      */
    method ParseUpload(contentType: Option<string>, body: seq<Byte>, uploadId: string,
                       services: Services, catalog: Catalog)
      returns (resp: Response)
      requires WellFormed(catalog)
      modifies this
      ensures resp.HttpError? ==> resp.status in {413, 415, 422, 500, 502}
      ensures resp.Parsed? ==> Stripped(resp.merchant) && resp.uploadId == uploadId
      ensures contentType.None? || contentType.value !in ALLOWED_CONTENT_TYPES ==>
        resp == HttpError(415) && files == old(files)
      ensures contentType.Some? && contentType.value in ALLOWED_CONTENT_TYPES ==>
        var name := StoredName(uploadId, contentType.value);
        var image := PreprocessFile(contentType.value, services.pdfPages, services.decoded);
        var extraction := ParseReceipt(services.visionReply, services.decoders);
        if |body| > MAX_UPLOAD_BYTES then
          resp == HttpError(413) && files == old(files)
        else if image.Err? then
          resp == HttpError(422) && files == old(files) - {name}
        else if extraction.Err? then
          resp == HttpError(502) && files == old(files)[name := body]
        else
          var extracted := extraction.value;
          var c := SuggestCategory(extracted.merchant, catalog, services.correction, ReplyText(services));
          files == old(files)[name := body]
          && if c.source == FromLlm && services.classifierReply.None? then resp == HttpError(500)
             else resp == Parsed(uploadId, extracted.merchant, extracted.date, extracted.amount,
                            c.category, c.scheduleCLine, c.source.Tag())
    {
      if contentType.None? || contentType.value !in ALLOWED_CONTENT_TYPES {
        return HttpError(415);
      }
      var ct := contentType.value;
      if |body| > MAX_UPLOAD_BYTES {
        return HttpError(413);
      }
      var ext := EXT_MAP[ct];
      var name := uploadId + ext;
      files := files[name := body];
      var image := PreprocessFile(ct, services.pdfPages, services.decoded);
      if image.Err? {
        files := files - {name};
        return HttpError(422);
      }
      var extraction := ParseReceipt(services.visionReply, services.decoders);
      if extraction.Err? {
        return HttpError(502);
      }
      var extracted := extraction.value;
      var c := SuggestCategory(extracted.merchant, catalog, services.correction, ReplyText(services));
      if c.source == FromLlm && services.classifierReply.None? {
        return HttpError(500);
      }
      resp := Parsed(uploadId, extracted.merchant, extracted.date, extracted.amount,
                     c.category, c.scheduleCLine, c.source.Tag());
    }
  }
}
