/** The `POST /summarize` handler and `process_upload`: the checks that pick
    the response status and message for an abstract request. PDF extraction,
    OCR and the summarization model are parameters. */
module Handler {
  import opened Text
  import opened Chunker
  import opened Summarizer

  datatype Option<T> = None | Some(value: T)

  /** A call into a library that either returns a value or raises an
      exception with a message. */
  datatype Fallible<T> = Returned(value: T) | Raised(message: string)

  /** An image taken out of the PDF, as its encoded bytes. */
  datatype Image = Image(bytes: seq<bv8>)

  /** What the PDF library yields for an uploaded document: the text of all
      pages, in page order, and the embedded images. */
  datatype Document = Document(text: string, images: seq<Image>)

  /** The multipart field `file`: its file name and its content. */
  datatype Upload = Upload(filename: string, stream: seq<bv8>)

  /** The value under the key "text" of a JSON body: a string, or any other
      JSON value, which has a Python type name and a truth value (`null` is
      `NoneType` and false, `0` is `int` and false, `[1]` is `list` and true). */
  datatype JsonValue = JString(s: string) | JOther(typeName: string, truthy: bool)

  /** `request.json`: an object, or an exception raised while reading it or
      testing it for the key "text" (a body that is not JSON; a `null` body,
      which reads as `None` and makes the `in` test raise) with its message. */
  datatype JsonBody = JsonObject(fields: map<string, JsonValue>) | JsonUnavailable(message: string)

  datatype Request = Request(file: Option<Upload>, json: JsonBody)

  /** The external collaborators: PDF extraction, OCR of all images, and the
      summarization model applied to one chunk. */
  datatype Services = Services(
    extract: seq<bv8> -> Fallible<Document>,
    ocr: seq<Image> -> Fallible<string>,
    summarize: string -> SummaryOutcome)

  datatype Body = ErrorBody(error: string) | SummaryBody(summary: string)

  datatype Response = Response(status: int, body: Body)

  const NoSelectedFile := "No selected file"
  const NoExtractableText := "No extractable text found in the PDF."
  const NoTextProvided := "No text provided"
  const NoFileOrText := "No file or text provided"
  const ProcessingError := "Error in processing PDF: "

  /** The message of the `AttributeError` that `text.split()` raises when the
      JSON value is not a string. */
  function NoSplitMessage(typeName: string): string
  {
    "'" + typeName + "' object has no attribute 'split'"
  }

  /** `process_upload(file)`: extract, OCR, combine, check for text, chunk and
      summarize. The pair is (message or extracted text, summary or None). */
  function ProcessUpload(stream: seq<bv8>, services: Services): (r: (string, Option<string>))
    ensures r.1.Some? ==> !IsBlank(r.0) && r.1.value != ""
    ensures r.1.None? ==> r.0 == NoExtractableText || (|r.0| >= |ProcessingError| && r.0[..|ProcessingError|] == ProcessingError)
  {
    match services.extract(stream)
    case Raised(m) => (ProcessingError + m, None)
    case Returned(doc) =>
      match services.ocr(doc.images)
      case Raised(m) => (ProcessingError + m, None)
      case Returned(ocrText) =>
        var fullText := doc.text + "\n" + ocrText;
        if |Strip(fullText)| == 0 then (NoExtractableText, None)
        else
          var chunks := Chunks(fullText, DefaultMaxChunkSize);
          ChunksEmptyIffBlank(fullText, DefaultMaxChunkSize);
          SummaryLength(services.summarize, chunks);
          (fullText, Some(SummaryOf(services.summarize, chunks)))
  }

  /** `summarize()`, the handler of `POST /summarize`. */
  function HandleSummarize(req: Request, services: Services): (r: Response)
    ensures r.status == 200 || r.status == 400 || r.status == 500
    ensures r.status == 200 <==> r.body.SummaryBody?
  {
    match req.file
    case Some(upload) =>
      if upload.filename == "" then Response(400, ErrorBody(NoSelectedFile))
      else
        var (extracted, summary) := ProcessUpload(upload.stream, services);
        if summary.None? then Response(400, ErrorBody(extracted))
        else Response(200, SummaryBody(summary.value))
    case None =>
      match req.json
      case JsonUnavailable(m) => Response(500, ErrorBody(m))
      case JsonObject(fields) =>
        if "text" !in fields then Response(400, ErrorBody(NoFileOrText))
        else
          match fields["text"]
          case JString(text) =>
            if text == "" then Response(400, ErrorBody(NoTextProvided))
            else Response(200, SummaryBody(SummaryOf(services.summarize, Chunks(text, DefaultMaxChunkSize))))
          case JOther(typeName, truthy) =>
            if !truthy then Response(400, ErrorBody(NoTextProvided))
            else Response(500, ErrorBody(NoSplitMessage(typeName)))
  }

  /** An upload whose file name is empty is refused before anything is read. */
  lemma EmptyFilenameRefused(req: Request, services: Services)
    requires req.file.Some? && req.file.value.filename == ""
    ensures HandleSummarize(req, services) == Response(400, ErrorBody(NoSelectedFile))
  {
  }

  /** With a file present the JSON body is never looked at. */
  lemma UploadIgnoresJson(upload: Upload, j1: JsonBody, j2: JsonBody, services: Services)
    ensures HandleSummarize(Request(Some(upload), j1), services) == HandleSummarize(Request(Some(upload), j2), services)
  {
  }

  /** An upload answers 200 exactly when the file name is not empty, the
      extraction and the OCR both return, and the combined text
      `pdf_text + "\n" + ocr_text` is not all whitespace; the summary is then
      that of the chunks of the combined text, and it is never empty. If the
      combined text is all whitespace the answer is 400 "No extractable text
      found in the PDF.". */
  lemma UploadOutcome(upload: Upload, json: JsonBody, services: Services)
    requires upload.filename != ""
    ensures var r := HandleSummarize(Request(Some(upload), json), services);
      && (r.status == 200 <==>
           && services.extract(upload.stream).Returned?
           && services.ocr(services.extract(upload.stream).value.images).Returned?
           && !IsBlank(services.extract(upload.stream).value.text + "\n"
                       + services.ocr(services.extract(upload.stream).value.images).value))
      && (r.status == 200 ==>
           var full := services.extract(upload.stream).value.text + "\n"
                       + services.ocr(services.extract(upload.stream).value.images).value;
           r.body == SummaryBody(SummaryOf(services.summarize, Chunks(full, DefaultMaxChunkSize)))
           && r.body.summary != "")
      && (services.extract(upload.stream).Returned?
          && services.ocr(services.extract(upload.stream).value.images).Returned?
          && IsBlank(services.extract(upload.stream).value.text + "\n"
                     + services.ocr(services.extract(upload.stream).value.images).value)
          ==> r == Response(400, ErrorBody(NoExtractableText)))
  {
  }

  /** A library exception while extracting or reading the PDF's images is
      answered with 400 and "Error in processing PDF: " and its message. */
  lemma ExtractionFailureIsClientError(upload: Upload, json: JsonBody, services: Services)
    requires upload.filename != ""
    requires || services.extract(upload.stream).Raised?
             || services.ocr(services.extract(upload.stream).value.images).Raised?
    ensures var m := if services.extract(upload.stream).Raised? then services.extract(upload.stream).message
                     else services.ocr(services.extract(upload.stream).value.images).message;
      HandleSummarize(Request(Some(upload), json), services) == Response(400, ErrorBody(ProcessingError + m))
  {
  }

  /** Without a file: a JSON object with no "text" key gets 400 "No file or
      text provided"; an empty or falsy "text" gets 400 "No text provided"; a
      non-empty string gets 200 and the summary of its chunks. */
  lemma InlineTextOutcome(fields: map<string, JsonValue>, services: Services)
    ensures var r := HandleSummarize(Request(None, JsonObject(fields)), services);
      && ("text" !in fields ==> r == Response(400, ErrorBody(NoFileOrText)))
      && (("text" in fields && (fields["text"] == JString("") || (fields["text"].JOther? && !fields["text"].truthy)))
          ==> r == Response(400, ErrorBody(NoTextProvided)))
      && (r.status == 200 <==> "text" in fields && fields["text"].JString? && fields["text"].s != "")
      && (r.status == 200 ==>
           r.body == SummaryBody(SummaryOf(services.summarize, Chunks(fields["text"].s, DefaultMaxChunkSize))))
  {
  }

  /** Unlike an upload, inline text that is all whitespace is not refused: it
      has no chunks, so the answer is 200 with an empty summary. */
  lemma BlankInlineTextHasEmptySummary(text: string, services: Services)
    requires text != "" && IsBlank(text)
    ensures HandleSummarize(Request(None, JsonObject(map["text" := JString(text)])), services)
         == Response(200, SummaryBody(""))
  {
    ChunksEmptyIffBlank(text, DefaultMaxChunkSize);
  }

  /** The answer 500 comes only from a request without a file, when reading
      the JSON body raises or when "text" is a truthy non-string; its error is
      the exception's message, or the message of the `AttributeError` that
      `split` raises on a value of that type. */
  lemma ServerErrorCauses(req: Request, services: Services)
    ensures HandleSummarize(req, services).status == 500 <==>
      && req.file.None?
      && (|| req.json.JsonUnavailable?
          || ("text" in req.json.fields && req.json.fields["text"].JOther? && req.json.fields["text"].truthy))
    ensures req.file.None? && req.json.JsonUnavailable? ==>
      HandleSummarize(req, services) == Response(500, ErrorBody(req.json.message))
    ensures (&& req.file.None? && req.json.JsonObject? && "text" in req.json.fields
             && req.json.fields["text"].JOther? && req.json.fields["text"].truthy) ==>
      HandleSummarize(req, services) == Response(500, ErrorBody(NoSplitMessage(req.json.fields["text"].typeName)))
  {
  }

  /** `{}` without a file is refused with "No file or text provided". */
  lemma EmptyJsonExample(services: Services)
    ensures HandleSummarize(Request(None, JsonObject(map[])), services) == Response(400, ErrorBody(NoFileOrText))
  {
  }

  /** `{"text": "hello world"}` is one chunk, so the summary is that chunk's
      segment: the model's summary and a space, or the error marker. */
  lemma HelloWorldExample(services: Services)
    ensures HandleSummarize(Request(None, JsonObject(map["text" := JString("hello world")])), services)
         == Response(200, SummaryBody(Segment(services.summarize("hello world"))))
  {
    var text := "hello world";
    HelloWorldOneChunk();
    SummaryOfOne(services.summarize, text);
  }
}
