/**
 * The upload handler's extraction step: read the uploaded file, choose an
 * extractor by a case-sensitive test of the file name's suffix, and turn every
 * failure into an HTTP error reply. Text that was extracted goes on to the
 * post-processing step, which is not part of this model.
 */
module Handler {
  import opened Wrappers
  import Ocr
  import HtmlExtractor

  const StatusBadRequest: int := 400
  const StatusInternalServerError: int := 500

  const PdfSuffix: string := ".pdf"
  const HtmlSuffix: string := ".html"

  /** `strings.HasSuffix`: `s` ends with `suffix`, compared character by character. */
  function HasSuffix(s: string, suffix: string): bool
  {
    |suffix| <= |s| && s[|s| - |suffix|..] == suffix
  }

  /** A stem followed by a suffix has that suffix. */
  lemma SuffixOfConcat(stem: string, suffix: string)
    ensures HasSuffix(stem + suffix, suffix)
  {
  }

  /** The extraction strategies the handler can pick. */
  datatype FileKind = PdfFile | HtmlFile | Unsupported

  /**
   * The `switch` of `ExtractText`: ".pdf" is tested first, then ".html";
   * the choice is made from the file name alone.
   */
  function Dispatch(filename: string): (k: FileKind)
    ensures k == PdfFile <==> HasSuffix(filename, PdfSuffix)
    ensures k == HtmlFile <==> HasSuffix(filename, HtmlSuffix)
    ensures k == Unsupported <==> !HasSuffix(filename, PdfSuffix) && !HasSuffix(filename, HtmlSuffix)
  {
    if HasSuffix(filename, PdfSuffix) then
      assert filename[|filename| - 1] == 'f';
      PdfFile
    else if HasSuffix(filename, HtmlSuffix) then HtmlFile
    else Unsupported
  }

  /** Matching is case-sensitive: upper-case extensions are not recognised. */
  lemma UpperCaseUnsupported(stem: string)
    ensures Dispatch(stem + ".PDF") == Unsupported
    ensures Dispatch(stem + ".HTML") == Unsupported
  {
    var p, h := stem + ".PDF", stem + ".HTML";
    assert p[|p| - 1] == 'F';
    assert h[|h| - 1] == 'L';
  }

  /** Any name ending in ".pdf" or ".html" selects that extractor, and ".txt" selects none. */
  lemma {:induction false} KnownSuffixes(stem: string)
    ensures Dispatch(stem + PdfSuffix) == PdfFile
    ensures Dispatch(stem + HtmlSuffix) == HtmlFile
    ensures Dispatch(stem + ".txt") == Unsupported
  {
    SuffixOfConcat(stem, PdfSuffix);
    SuffixOfConcat(stem, HtmlSuffix);
    var t := stem + ".txt";
    assert t[|t| - 1] == 't';
  }

  /** An uploaded file: the name from its part header and the result of copying its bytes. */
  datatype Upload = Upload(filename: string, content: Result<seq<byte>>)

  /** An HTTP reply: status code and body. */
  datatype Response = Response(status: int, body: string)

  /** Where `ExtractText` goes after the extraction step. */
  datatype Outcome = Reply(response: Response) | PostProcess(text: string)

  /** `http.Error`: the status code and the message followed by a newline. */
  function HttpError(message: string, code: int): Response
  {
    Response(code, message + "\n")
  }

  /** An extractor's result: its error becomes a 500 reply, its text goes on. */
  function Finish(extracted: Result<string>): Outcome
  {
    match extracted
    case Err(e) => Reply(HttpError(e, StatusInternalServerError))
    case Ok(text) => PostProcess(text)
  }

  /**
   * The extraction step of `ExtractText`. `file` is `None` when the form has
   * no readable "file" part; `pdf` and `html` are the two extractors.
   */
  function Handle(file: Option<Upload>, pdf: seq<byte> -> Result<string>,
                  html: seq<byte> -> Result<string>): Outcome
  {
    match file
    case None => Reply(HttpError("File is missing", StatusBadRequest))
    case Some(upload) =>
      match upload.content
      case Err(_) => Reply(HttpError("Error reading file", StatusInternalServerError))
      case Ok(bytes) =>
        match Dispatch(upload.filename)
        case PdfFile => Finish(pdf(bytes))
        case HtmlFile => Finish(html(bytes))
        case Unsupported => Reply(HttpError("Unsupported file type", StatusBadRequest))
  }

  /**
   * Status classification: every reply is 400 or 500; 400 exactly for the
   * client's faults (no file, an unsupported name), 500 for a failed read or
   * a failed extraction, whose error text is the body.
   */
  lemma StatusClassification(file: Option<Upload>, pdf: seq<byte> -> Result<string>,
                             html: seq<byte> -> Result<string>)
    ensures var o := Handle(file, pdf, html);
      o.Reply? ==> o.response.status == StatusBadRequest || o.response.status == StatusInternalServerError
    ensures var o := Handle(file, pdf, html);
      o.Reply? && o.response.status == StatusBadRequest <==>
        file.None? || (file.value.content.Ok? && Dispatch(file.value.filename) == Unsupported)
    ensures var o := Handle(file, pdf, html);
      file.Some? && file.value.content.Ok? && Dispatch(file.value.filename) == PdfFile && pdf(file.value.content.value).Err? ==>
        o == Reply(HttpError(pdf(file.value.content.value).error, StatusInternalServerError))
    ensures var o := Handle(file, pdf, html);
      file.Some? && file.value.content.Ok? && Dispatch(file.value.filename) == HtmlFile && html(file.value.content.value).Err? ==>
        o == Reply(HttpError(html(file.value.content.value).error, StatusInternalServerError))
    ensures file.None? ==> Handle(file, pdf, html) == Reply(HttpError("File is missing", StatusBadRequest))
    ensures file.Some? && file.value.content.Err? ==>
      Handle(file, pdf, html) == Reply(HttpError("Error reading file", StatusInternalServerError))
  {
  }

  /**
   * The missing-file and read checks come before dispatch, and an unsupported
   * name calls no extractor: the outcome is the same whatever the extractors are.
   */
  lemma NoExtractorCalled(file: Option<Upload>, pdf1: seq<byte> -> Result<string>, html1: seq<byte> -> Result<string>,
                          pdf2: seq<byte> -> Result<string>, html2: seq<byte> -> Result<string>)
    requires file.None? || file.value.content.Err? || Dispatch(file.value.filename) == Unsupported
    ensures Handle(file, pdf1, html1) == Handle(file, pdf2, html2)
    ensures file.Some? && file.value.content.Ok? ==>
      Handle(file, pdf1, html1) == Reply(HttpError("Unsupported file type", StatusBadRequest))
  {
  }

  /**
   * Text reaches post-processing only when the file was read and the
   * extractor its name selects succeeded with exactly that text; the other
   * extractor plays no part.
   */
  lemma SuccessfulExtraction(file: Option<Upload>, pdf: seq<byte> -> Result<string>,
                             html: seq<byte> -> Result<string>, text: string)
    ensures Handle(file, pdf, html) == PostProcess(text) <==>
      && file.Some? && file.value.content.Ok?
      && var bytes := file.value.content.value;
         ((HasSuffix(file.value.filename, PdfSuffix) && pdf(bytes) == Ok(text))
       || (HasSuffix(file.value.filename, HtmlSuffix) && html(bytes) == Ok(text)))
  {
    if file.Some? && file.value.content.Ok? {
      var k := Dispatch(file.value.filename);
      assert Handle(file, pdf, html) == match k
        case PdfFile => Finish(pdf(file.value.content.value))
        case HtmlFile => Finish(html(file.value.content.value))
        case Unsupported => Reply(HttpError("Unsupported file type", StatusBadRequest));
    }
  }

  /** The PDF extractor as a function of the uploaded bytes, for a given engine and backend. */
  function PdfExtractor(engine: Ocr.Pdfium, configErr: Option<Error>, encode: Ocr.Bitmap -> Result<seq<byte>>,
                        detect: seq<byte> -> Result<seq<Ocr.Block>>): seq<byte> -> Result<string>
  {
    bytes => Ocr.PdfText(configErr, engine.load, engine.pageCount, Ocr.Oracles(engine.render, encode, detect), bytes)
  }

  /** The HTML extractor as a function of the uploaded bytes, for a given parser. */
  function HtmlTextExtractor(parseHtml: seq<byte> -> Result<HtmlExtractor.Node>): seq<byte> -> Result<string>
  {
    bytes => HtmlExtractor.HtmlText(bytes, parseHtml)
  }

  /**
   * `ExtractText` up to the post-processing step, with the real extractors:
   * the rendering engine is used, and its log grows, only for a PDF upload.
   */
  method ExtractText(engine: Ocr.Pdfium, configErr: Option<Error>, encode: Ocr.Bitmap -> Result<seq<byte>>,
                     detect: seq<byte> -> Result<seq<Ocr.Block>>, parseHtml: seq<byte> -> Result<HtmlExtractor.Node>,
                     file: Option<Upload>) returns (o: Outcome)
    requires engine.Valid()
    modifies engine
    ensures engine.Valid() && engine.docs == old(engine.docs)
    ensures o == Handle(file, PdfExtractor(engine, configErr, encode, detect), HtmlTextExtractor(parseHtml))
    ensures !(file.Some? && file.value.content.Ok? && Dispatch(file.value.filename) == PdfFile) ==>
      engine.log == old(engine.log)
    ensures file.Some? && file.value.content.Ok? && Dispatch(file.value.filename) == PdfFile ==>
      var bytes := file.value.content.value;
      && (configErr.Some? || engine.load(bytes).Err? ==> engine.log == old(engine.log))
      && (configErr.None? && engine.load(bytes).Ok? ==>
            engine.log == old(engine.log) + Ocr.Session(old(engine.next),
              Ocr.PagesRendered(engine.pageCount, Ocr.Oracles(engine.render, encode, detect), engine.load(bytes).value)))
  {
    if file.None? {
      return Reply(HttpError("File is missing", StatusBadRequest));
    }
    var upload := file.value;
    if upload.content.Err? {
      return Reply(HttpError("Error reading file", StatusInternalServerError));
    }
    var buf := upload.content.value;
    var text: Result<string>;
    match Dispatch(upload.filename) {
      case PdfFile =>
        text := Ocr.ExtractTextFromPDF(engine, configErr, encode, detect, buf);
      case HtmlFile =>
        text := HtmlExtractor.ExtractTextFromHTML(buf, parseHtml);
      case Unsupported =>
        return Reply(HttpError("Unsupported file type", StatusBadRequest));
    }
    o := Finish(text);
  }
}
