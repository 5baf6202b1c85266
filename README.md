# Document-to-text extraction core, modelled in Dafny

This project models the text-extraction core of an invoice OCR service written in Go. It has three parts:

- **The PDF page-loop controller** (`Ocr`). It opens an uploaded PDF with the pdfium rendering engine and reads the page count. For each page in order it renders the page at 300 DPI, encodes it as PNG and sends it to AWS Textract. It keeps the text of every LINE or WORD block that has text, each followed by one space. The first failure aborts the whole extraction and drops any text gathered so far. After a successful open, the document is closed exactly once on every path. The 1-based page number passed to `renderPage` becomes the 0-based engine index `page - 1`. The single-page preview `renderPageFromBuffer` always renders index 0 at 200 DPI and closes its document whether or not rendering succeeds.
- **The HTML text walker** (`HtmlExtractor`). It parses the HTML and then walks the tree in document order. For every text node it writes the node's data and a space into a `strings.Builder`.
- **The extraction dispatcher** (`Handler`). The upload handler first checks the multipart "file" field ("File is missing", status 400) and then the copy of its bytes ("Error reading file", status 500). It then picks an extractor by a case-sensitive suffix test on the file name: ".pdf" first, then ".html". Any other name gets 400 "Unsupported file type". An extractor error becomes a 500 reply whose body is the error text.

Modelling choices:

- pdfium's own computations are `const` function fields of the `Pdfium` class: parsing (`load`), `pageCount` and `render`. The engine keeps its open documents in a map and records a ghost log of open, render and close requests. The log is how the model states which indices were rendered and that the document was closed exactly once.
- The PNG encoder, the Textract call and the HTML parser are function parameters that return a `Result`. The AWS configuration load is the value parameter `configErr: Option<Error>`: `None` when it succeeded, or its error.
- Go's `("", err)` pairs are `Result<string>`. An `Err` carries no text, so partial text cannot escape.
- Go's `defer` close is modelled as one `CloseDocument` call after the body. The body runs the page-count query and the page loop. The loop ends at the first failure instead of returning from inside it.
- The nested block loop is the method `AppendBlockTexts`, and the page loop is `PageLoop`. Each one is proved against its specification function: `Join(Fragments(blocks))` for the blocks, and `DocText` / `Attempted` for the pages.
- An HTML node's `FirstChild`/`NextSibling` chain is the `children` sequence of a `Node` datatype, in sibling order.
- `http.Error` is modelled as its status code and a body of `message + "\n"`.

Where the system's specification and the code differ, the model follows the code:

- The code keeps both LINE and WORD blocks, so recognised text appears twice. The specification recommends one granularity.
- The code maps every extractor error, including an unparsable PDF, to status 500. The specification calls invalid documents a client fault.
- The code has no per-request deadline.
- A page count below zero runs no iterations, as Go's `for i := 0; i < n; i++` does.

## Model

| member | source | states |
|---|---|---|
| TextJoin.JoinAppend | internal/app/ocr/ocr.go:83 | appending `piece + " "` pieces to a text distributes over concatenation of the piece lists |
| TextJoin.JoinSnoc | internal/app/htmlextractor/htmlextractor.go:24-25 | one more append adds exactly that piece and one space at the end |
| TextJoin.JoinLength | internal/app/ocr/ocr.go:83 | the joined text has the pieces' characters plus exactly one space per piece |
| TextJoin.JoinEndsInSpace | internal/app/ocr/ocr.go:83 | the joined text is empty iff there are no pieces, and otherwise its last character is a space |
| Ocr.Pdfium.constructor | internal/app/ocr/ocr.go:20-30 | the engine instance starts with no open document and an empty request log |
| Ocr.Pdfium.OpenDocument | internal/app/ocr/ocr.go:47-50 | a parse failure is returned with nothing opened or logged; on success a fresh handle is opened on the parsed document and logged |
| Ocr.Pdfium.GetPageCount | internal/app/ocr/ocr.go:53 | the page count of the open document, or the engine's error |
| Ocr.Pdfium.RenderPageInDPI | internal/app/ocr/ocr.go:93-101 | the render of the given 0-based index at the given DPI, with that request logged |
| Ocr.Pdfium.CloseDocument | internal/app/ocr/ocr.go:51 | the handle is no longer open and one close is logged |
| Ocr.FragmentsAppend | internal/app/ocr/ocr.go:80 | the contributing texts of two block lists in sequence are the two lists' contributing texts in sequence |
| Ocr.BlocksTextIsJoin | internal/app/ocr/ocr.go:80-86 | a response's text is the text of each LINE or WORD block that has text, in block order, each followed by one space |
| Ocr.BlocksTextAppend | internal/app/ocr/ocr.go:80-86 | the inner loop over two block lists in sequence appends the text of the first, then of the second |
| Ocr.NoContributingBlocks | internal/app/ocr/ocr.go:81-82 | blocks of other types, or without text, add nothing |
| Ocr.PdfText | internal/app/ocr/ocr.go:40-89 | a configuration failure gives "configuration error, " plus its text; an open or page-count failure gives that error; a page count of zero or less gives "" with no error |
| Ocr.Renders | internal/app/ocr/ocr.go:59-60 | the render requests of the loop are the indices 0, 1, …, m-1 in increasing order, one each |
| Ocr.ErrPersists | internal/app/ocr/ocr.go:61-63 | after the first failure the result and the number of rendered pages no longer change |
| Ocr.FailFast | internal/app/ocr/ocr.go:59-78 | the loop succeeds iff every page's render, encode and detect succeed; on failure it rendered exactly up to the first failing page and returns that page's error |
| Ocr.DocTextIsFilteredBlocks | internal/app/ocr/ocr.go:58-89 | the loop's text is the filtered text of all pages' blocks in page order, then block order, and it fails exactly when collecting those blocks fails |
| Ocr.DocTextLength | internal/app/ocr/ocr.go:83 | a successful result has length equal to the sum of (text length + 1) over contributing blocks, and a non-empty result ends in a space |
| Ocr.SessionClosesOnce | internal/app/ocr/ocr.go:47-56 | one extraction's engine requests are one open first, then renders of indices 0..m-1, then exactly one close last |
| Ocr.RenderPage | internal/app/ocr/ocr.go:92-107 | the 1-based page is rendered at 0-based index `page - 1` at 300 DPI |
| Ocr.AppendBlockTexts | internal/app/ocr/ocr.go:80-86 | the inner loop appends `text + " "` for exactly the LINE or WORD blocks with text, in order |
| Ocr.PageStep | internal/app/ocr/ocr.go:59-86 | after successful earlier pages, one more page either fails with its own error or appends its blocks' filtered text |
| Ocr.PageLoop | internal/app/ocr/ocr.go:58-87 | the loop's result is the fail-fast accumulation over the page count, and its render log is the indices 0..m-1, where m counts pages up to the first failure |
| Ocr.ExtractTextFromPDF | internal/app/ocr/ocr.go:40-90 | the result is `PdfText`; nothing is opened or rendered after a configuration or open failure; after a successful open the log grows by one open, the reached renders and exactly one close, and no document stays open; exactly one new handle is used after a successful open and none otherwise |
| Ocr.RenderPageFromBuffer | internal/app/ocr/ocr.go:109-131 | index 0 is rendered at 200 DPI, and the document is closed once whether or not rendering succeeded; an open failure is returned with nothing logged and no handle used; a successful open uses exactly one new handle |
| HtmlExtractor.SiblingsSplit | internal/app/htmlextractor/htmlextractor.go:28-30 | the walk of the first k children splits at any child j into the walk of the first j and the walk of children j..k-1 |
| HtmlExtractor.TextUnfolds | internal/app/htmlextractor/htmlextractor.go:22-31 | walk(n) is n's own text followed by the walks of its children in sibling order |
| HtmlExtractor.TextDataAppend | internal/app/htmlextractor/htmlextractor.go:23 | the text-node data of two node lists in sequence is the data of each list in sequence |
| HtmlExtractor.TextIsPreOrderJoin | internal/app/htmlextractor/htmlextractor.go:22-31 | the walk writes `data + " "` for every text node in pre-order (document order) and nothing else |
| HtmlExtractor.SiblingsPrefix | internal/app/htmlextractor/htmlextractor.go:28-30 | the walk of the first k children depends on those k children only |
| HtmlExtractor.TextLength | internal/app/htmlextractor/htmlextractor.go:23-26 | the output is the text nodes' data plus one space per text node |
| HtmlExtractor.NoTextNodesMeansEmpty | internal/app/htmlextractor/htmlextractor.go:16-26 | the output is "" iff the tree has no text node, and otherwise ends in a space |
| HtmlExtractor.Builder.constructor | internal/app/htmlextractor/htmlextractor.go:16 | a new builder holds no text |
| HtmlExtractor.Builder.WriteString | internal/app/htmlextractor/htmlextractor.go:24-25 | a write appends its argument and leaves earlier content untouched |
| HtmlExtractor.ExtractNodeText | internal/app/htmlextractor/htmlextractor.go:22-31 | the builder grows by exactly the pre-order walk of the node, earlier content kept |
| HtmlExtractor.HtmlText | internal/app/htmlextractor/htmlextractor.go:11-19 | a parse failure is returned as it is; otherwise the text nodes' data in document order, each followed by a space |
| HtmlExtractor.ExtractTextFromHTML | internal/app/htmlextractor/htmlextractor.go:11-20 | returns exactly `HtmlText`, walking into a fresh builder only after a successful parse |
| Handler.SuffixOfConcat | internal/app/handler/handler.go:48 | any stem followed by a suffix has that suffix |
| Handler.Dispatch | internal/app/handler/handler.go:47-63 | PDF iff the name ends in ".pdf", HTML iff it ends in ".html", unsupported iff neither, decided from the name alone |
| Handler.UpperCaseUnsupported | internal/app/handler/handler.go:48-54 | matching is case-sensitive: names ending ".PDF" or ".HTML" are unsupported |
| Handler.KnownSuffixes | internal/app/handler/handler.go:47-62 | ".pdf" names select the PDF extractor, ".html" names the HTML extractor, ".txt" names neither |
| Handler.StatusClassification | internal/app/handler/handler.go:31-62 | every error reply is 400 or 500; 400 exactly for a missing file or an unsupported name; a missing file gives 400 "File is missing", a read failure 500 "Error reading file", and a PDF or HTML extractor error a 500 whose body is its text |
| Handler.NoExtractorCalled | internal/app/handler/handler.go:31-62 | a missing file, a read failure or an unsupported name give the same reply whatever the extractors are, and an unsupported name gives 400 "Unsupported file type" |
| Handler.SuccessfulExtraction | internal/app/handler/handler.go:47-59 | text reaches post-processing iff the file was read and the extractor its suffix selects returned exactly that text |
| Handler.ExtractText | internal/app/handler/handler.go:30-63 | the outcome is the dispatcher's decision with the real extractors; the rendering engine's log changes only for a PDF upload that was read, and then not at all after a configuration or open failure, and otherwise by exactly one session: one open, the renders of the pages reached, one close |

## Left out

- The post-processing step of `ExtractText` (handler.go:65-93) is not modelled. It runs `python3 script.py`, writes to its stdin, reads one stdout line and replies 200. That is subprocess I/O, and the model ends at the text handed to it (`PostProcess`).
- `cmd/ocr/script.py` is not modelled. It is LLM inference with nothing to verify.
- `cmd/ocr/server.go`, the router (handler.go:96-102) and CORS are not modelled. They are HTTP plumbing.
- `NewHandler`'s gosseract client (handler.go:22-28) is not modelled. The one-argument signature of `ExtractTextFromPDF` from ocr.go:40 is modelled, not the two-argument call at handler.go:49, and the client is never used.
- `init()` is not modelled (ocr.go:24-38). It sets up the pdfium pool with a 30-second acquisition timeout, loads the AWS configuration and panics on failure. These are process-start services; the model receives a constructed engine.
- The AWS configuration load and Textract client creation inside `ExtractTextFromPDF` (ocr.go:41-45) are not modelled. Only their outcome is, as the `configErr` parameter.
- Pixel rendering, DPI semantics, PNG encoding (`encodePNGToBytes`, ocr.go:133-140), Textract's recognition and HTML parsing are not modelled. They are library or network code, represented by oracles that return a value or an error.
- Concurrency is not modelled: the process-wide pdfium instance shared by parallel requests, and the per-request deadline. Each extraction is modelled as one sequential call.
- HTML node parent/sibling pointers are modelled as a children sequence. Aliasing and cyclic pointer structures are not represented.
- Strings are sequences of characters, not UTF-8 bytes. The suffixes compared are ASCII, so this does not change the dispatch.
- Pdfium.CloseDocument: cannot fail. The deferred `FPDF_CloseDocument` (ocr.go:51, 115) returns an error that `defer` discards, so its error result is not modelled and the close always removes the document.
- The deferred `file.Close()` (handler.go:36) and the headers `http.Error` sets are not modelled. Only the status and body of each reply are.

