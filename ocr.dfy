/**
 * The PDF page-loop controller: open a document with the rendering engine,
 * read its page count, and for every page in order render it, encode the
 * bitmap, send it to the text-detection service and keep the text of its
 * LINE and WORD blocks. The first failure aborts the whole extraction, and
 * the document opened here is closed exactly once on every path after a
 * successful open.
 */
module Ocr {
  import opened Wrappers
  import opened TextJoin

  /** Resolution for full multi-page extraction. */
  const FullDpi: int := 300
  /** Resolution for the single-page preview. */
  const PreviewDpi: int := 200

  /** The block types whose text is kept (the service's type names, matched exactly). */
  const BlockTypeLine: string := "LINE"
  const BlockTypeWord: string := "WORD"

  /**
   * A document the rendering engine has parsed, identified by the bytes it
   * was opened from; its pages are known only through the engine's oracles.
   */
  datatype Document = Document(file: seq<byte>)

  /** A rendered page; only the image encoder looks inside it. */
  datatype Bitmap = Bitmap(pixels: seq<byte>)

  /** One block of a text-detection response: its type and its optional text. */
  datatype Block = Block(blockType: string, text: Option<string>)

  /** An engine-assigned document handle. */
  type Handle = nat

  /** What the engine was asked to do, in order. */
  datatype Event = Opened(h: Handle) | Rendered(h: Handle, index: int, dpi: int) | Closed(h: Handle)

  /**
   * The rendering engine instance. What the engine computes is given by three
   * oracles (`load` parses a file, `pageCount` counts its pages, `render`
   * rasterises a 0-based page index at a DPI); the engine itself keeps the
   * documents that are open, and a ghost log of the requests it served.
   */
  class Pdfium {
    const load: seq<byte> -> Result<Document>
    const pageCount: Document -> Result<int>
    const render: (Document, int, int) -> Result<Bitmap>

    var docs: map<Handle, Document>
    var next: Handle
    ghost var log: seq<Event>

    /** Handles are allocated in increasing order, so a new one is never already open. */
    ghost predicate Valid()
      reads this
    {
      forall h :: h in docs ==> h < next
    }

    constructor (load: seq<byte> -> Result<Document>, pageCount: Document -> Result<int>,
                 render: (Document, int, int) -> Result<Bitmap>)
      ensures Valid()
      ensures this.load == load && this.pageCount == pageCount && this.render == render
      ensures docs == map[] && log == []
    {
      this.load, this.pageCount, this.render := load, pageCount, render;
      docs, next := map[], 0;
      log := [];
    }

    /** `OpenDocument`: on success a new handle is open on the parsed document. */
    method OpenDocument(file: seq<byte>) returns (r: Result<Handle>)
      requires Valid()
      modifies this
      ensures Valid()
      ensures load(file).Err? ==>
        r == Err(load(file).error) && docs == old(docs) && next == old(next) && log == old(log)
      ensures load(file).Ok? ==>
        && r == Ok(old(next)) && old(next) !in old(docs)
        && docs == old(docs)[old(next) := load(file).value] && next == old(next) + 1
        && log == old(log) + [Opened(old(next))]
    {
      var parsed := load(file);
      if parsed.Err? {
        return Err(parsed.error);
      }
      r := Ok(next);
      docs := docs[next := parsed.value];
      log := log + [Opened(next)];
      next := next + 1;
    }

    /** `FPDF_GetPageCount` on an open document. */
    method GetPageCount(h: Handle) returns (r: Result<int>)
      requires h in docs
      ensures r == pageCount(docs[h])
    {
      r := pageCount(docs[h]);
    }

    /** `RenderPageInDPI` of the page at a 0-based index of an open document. */
    method RenderPageInDPI(h: Handle, index: int, dpi: int) returns (r: Result<Bitmap>)
      requires h in docs
      modifies this`log
      ensures r == render(docs[h], index, dpi)
      ensures log == old(log) + [Rendered(h, index, dpi)]
    {
      r := render(docs[h], index, dpi);
      log := log + [Rendered(h, index, dpi)];
    }

    /** `FPDF_CloseDocument`: the handle is no longer open. */
    method CloseDocument(h: Handle)
      requires Valid() && h in docs
      modifies this`docs, this`log
      ensures Valid()
      ensures docs == old(docs) - {h}
      ensures log == old(log) + [Closed(h)]
    {
      docs := docs - {h};
      log := log + [Closed(h)];
    }
  }

  /** The per-page oracles: the engine's renderer, the PNG encoder and the text-detection call. */
  datatype Oracles = Oracles(
    render: (Document, int, int) -> Result<Bitmap>,
    encode: Bitmap -> Result<seq<byte>>,
    detect: seq<byte> -> Result<seq<Block>>)

  /** A block contributes when it is a LINE or a WORD and carries text. */
  predicate Contributes(b: Block)
  {
    (b.blockType == BlockTypeLine || b.blockType == BlockTypeWord) && b.text.Some?
  }

  /** What the inner loop appends for one block. */
  function Contribution(b: Block): string
  {
    if Contributes(b) then b.text.value + " " else ""
  }

  /** What the inner loop appends for a whole response, block by block. */
  function BlocksText(bs: seq<Block>): string
  {
    if bs == [] then "" else BlocksText(bs[..|bs| - 1]) + Contribution(bs[|bs| - 1])
  }

  /** The texts of the contributing blocks, in order. */
  function Fragments(bs: seq<Block>): seq<string>
  {
    if bs == [] then []
    else (if Contributes(bs[0]) then [bs[0].text.value] else []) + Fragments(bs[1..])
  }

  lemma {:induction false} FragmentsAppend(a: seq<Block>, b: seq<Block>)
    ensures Fragments(a + b) == Fragments(a) + Fragments(b)
  {
    if a == [] {
      assert a + b == b;
    } else {
      assert (a + b)[1..] == a[1..] + b;
      FragmentsAppend(a[1..], b);
    }
  }

  /**
   * Block filtering: the text of a response is the text of each LINE or WORD
   * block that has text, in block order, each followed by one space.
   */
  lemma {:induction false} BlocksTextIsJoin(bs: seq<Block>)
    ensures BlocksText(bs) == Join(Fragments(bs))
  {
    if bs != [] {
      var init, last := bs[..|bs| - 1], bs[|bs| - 1];
      BlocksTextIsJoin(init);
      assert init + [last] == bs;
      FragmentsAppend(init, [last]);
      assert [last][1..] == [];
      assert BlocksText(bs) == BlocksText(init) + Contribution(last);
      if Contributes(last) {
        assert Fragments(bs) == Fragments(init) + [last.text.value];
        JoinSnoc(Fragments(init), last.text.value);
      } else {
        assert Fragments(bs) == Fragments(init);
      }
    }
  }

  lemma {:induction false} BlocksTextAppend(a: seq<Block>, b: seq<Block>)
    ensures BlocksText(a + b) == BlocksText(a) + BlocksText(b)
  {
    BlocksTextIsJoin(a);
    BlocksTextIsJoin(b);
    BlocksTextIsJoin(a + b);
    FragmentsAppend(a, b);
    JoinAppend(Fragments(a), Fragments(b));
  }

  /** A response without contributing blocks adds nothing. */
  lemma {:induction false} NoContributingBlocks(bs: seq<Block>)
    requires forall i :: 0 <= i < |bs| ==> !Contributes(bs[i])
    ensures BlocksText(bs) == ""
  {
    if bs != [] {
      NoContributingBlocks(bs[..|bs| - 1]);
    }
  }

  /** Render the page at 0-based index `i` at full resolution, encode it and detect its blocks. */
  function PageBlocks(o: Oracles, d: Document, i: nat): Result<seq<Block>>
  {
    match o.render(d, i, FullDpi)
    case Err(e) => Err(e)
    case Ok(img) =>
      match o.encode(img)
      case Err(e) => Err(e)
      case Ok(png) => o.detect(png)
  }

  /** The page loop over the first `k` pages: the accumulated text, or the first error. */
  function DocText(o: Oracles, d: Document, k: nat): Result<string>
  {
    if k == 0 then Ok("")
    else
      match DocText(o, d, k - 1)
      case Err(e) => Err(e)
      case Ok(t) =>
        match PageBlocks(o, d, k - 1)
        case Err(e) => Err(e)
        case Ok(bs) => Ok(t + BlocksText(bs))
  }

  /** The number of pages the loop over the first `k` pages renders before it stops. */
  function Attempted(o: Oracles, d: Document, k: nat): nat
  {
    if k == 0 then 0 else if DocText(o, d, k - 1).Err? then Attempted(o, d, k - 1) else k
  }

  /** Reference definition: the blocks of the first `k` pages, concatenated in page order. */
  function AllBlocks(o: Oracles, d: Document, k: nat): Result<seq<Block>>
  {
    if k == 0 then Ok([])
    else
      match AllBlocks(o, d, k - 1)
      case Err(e) => Err(e)
      case Ok(a) =>
        match PageBlocks(o, d, k - 1)
        case Err(e) => Err(e)
        case Ok(bs) => Ok(a + bs)
  }

  /** Go's `for i := 0; i < count; i++` runs no iteration for a count below one. */
  function Pages(count: int): nat
  {
    if count < 0 then 0 else count
  }

  /**
   * The result of `ExtractTextFromPDF`: the configuration error, the open
   * error, the page-count error, or the page loop's result.
   */
  function PdfText(configErr: Option<Error>, load: seq<byte> -> Result<Document>,
                   pageCount: Document -> Result<int>, o: Oracles, file: seq<byte>): (r: Result<string>)
    ensures configErr.Some? ==> r == Err("configuration error, " + configErr.value)
    ensures configErr.None? && load(file).Err? ==> r == Err(load(file).error)
    ensures configErr.None? && load(file).Ok? && pageCount(load(file).value).Err? ==>
      r == Err(pageCount(load(file).value).error)
    ensures configErr.None? && load(file).Ok? && pageCount(load(file).value).Ok? ==>
      (pageCount(load(file).value).value <= 0 ==> r == Ok(""))
  {
    if configErr.Some? then Err("configuration error, " + configErr.value)
    else
      match load(file)
      case Err(e) => Err(e)
      case Ok(d) =>
        match pageCount(d)
        case Err(e) => Err(e)
        case Ok(n) => DocText(o, d, Pages(n))
  }

  /** How many pages `ExtractTextFromPDF` renders once the document is open. */
  function PagesRendered(pageCount: Document -> Result<int>, o: Oracles, d: Document): nat
  {
    match pageCount(d)
    case Err(_) => 0
    case Ok(n) => Attempted(o, d, Pages(n))
  }

  /** The render requests for 0-based indices `0 .. m-1`, in increasing order. */
  function Renders(h: Handle, m: nat, dpi: int): (rs: seq<Event>)
    ensures |rs| == m
    ensures forall i :: 0 <= i < m ==> rs[i] == Rendered(h, i, dpi)
  {
    if m == 0 then [] else Renders(h, m - 1, dpi) + [Rendered(h, m - 1, dpi)]
  }

  /** The engine requests of one extraction that opened document `h` and rendered `m` pages. */
  function Session(h: Handle, m: nat): seq<Event>
  {
    [Opened(h)] + Renders(h, m, FullDpi) + [Closed(h)]
  }

  /** A log that grew by `m` renders and then one more grew by `m + 1` renders. */
  lemma RendersNext(before: seq<Event>, h: Handle, m: nat, dpi: int)
    ensures before + Renders(h, m, dpi) + [Rendered(h, m, dpi)] == before + Renders(h, m + 1, dpi)
  {
    var rs := Renders(h, m, dpi);
    assert before + rs + [Rendered(h, m, dpi)] == before + (rs + [Rendered(h, m, dpi)]);
  }

  /** A log that grew by an open, `m` renders and a close grew by one `Session`. */
  lemma SessionLog(before: seq<Event>, h: Handle, m: nat)
    ensures before + [Opened(h)] + Renders(h, m, FullDpi) + [Closed(h)] == before + Session(h, m)
  {
    var rs := Renders(h, m, FullDpi);
    assert before + [Opened(h)] + rs + [Closed(h)] == before + ([Opened(h)] + rs + [Closed(h)]);
  }

  /**
   * Once the loop has failed its result and the number of rendered pages no
   * longer change: no later page is rendered and no partial text survives.
   */
  lemma {:induction false} ErrPersists(o: Oracles, d: Document, k: nat, m: nat)
    requires k <= m && DocText(o, d, k).Err?
    ensures DocText(o, d, m) == DocText(o, d, k)
    ensures Attempted(o, d, m) == Attempted(o, d, k)
    decreases m
  {
    if m > k {
      ErrPersists(o, d, k, m - 1);
    }
  }

  /**
   * Fail-fast: the loop over `k` pages succeeds exactly when every page does;
   * otherwise it renders pages up to and including the first failing page
   * and returns that page's error.
   */
  lemma {:induction false} FailFast(o: Oracles, d: Document, k: nat)
    ensures DocText(o, d, k).Ok? <==> forall j :: 0 <= j < k ==> PageBlocks(o, d, j).Ok?
    ensures DocText(o, d, k).Ok? ==> Attempted(o, d, k) == k
    ensures DocText(o, d, k).Err? ==>
      var f := Attempted(o, d, k) - 1;
      && 0 <= f < k
      && PageBlocks(o, d, f) == Err(DocText(o, d, k).error)
      && forall j :: 0 <= j < f ==> PageBlocks(o, d, j).Ok?
  {
    if k > 0 {
      FailFast(o, d, k - 1);
    }
  }

  /**
   * The accumulated text is the filtered text of all pages' blocks taken in
   * page order, then block order; the loop fails where the blocks do.
   */
  lemma {:induction false} DocTextIsFilteredBlocks(o: Oracles, d: Document, k: nat)
    ensures DocText(o, d, k).Err? <==> AllBlocks(o, d, k).Err?
    ensures DocText(o, d, k).Err? ==> DocText(o, d, k).error == AllBlocks(o, d, k).error
    ensures DocText(o, d, k).Ok? ==> DocText(o, d, k).value == Join(Fragments(AllBlocks(o, d, k).value))
  {
    if k > 0 {
      DocTextIsFilteredBlocks(o, d, k - 1);
      var prev := AllBlocks(o, d, k - 1);
      var page := PageBlocks(o, d, k - 1);
      if prev.Ok? && page.Ok? {
        BlocksTextIsJoin(prev.value);
        BlocksTextIsJoin(page.value);
        BlocksTextIsJoin(prev.value + page.value);
        BlocksTextAppend(prev.value, page.value);
      }
    } else {
      assert Fragments([]) == [];
    }
  }

  /**
   * A successful extraction is one character per contributing text
   * character plus one space per contributing block, and a non-empty
   * result ends in a space.
   */
  lemma DocTextLength(o: Oracles, d: Document, k: nat)
    requires DocText(o, d, k).Ok?
    ensures AllBlocks(o, d, k).Ok?
    ensures var fs := Fragments(AllBlocks(o, d, k).value);
      |DocText(o, d, k).value| == SumLen(fs) + |fs|
    ensures var t := DocText(o, d, k).value; t != "" ==> t[|t| - 1] == ' '
  {
    DocTextIsFilteredBlocks(o, d, k);
    JoinLength(Fragments(AllBlocks(o, d, k).value));
    JoinEndsInSpace(Fragments(AllBlocks(o, d, k).value));
  }

  /**
   * An extraction session opens its document first, closes it last and
   * exactly once, and in between renders the indices `0 .. m-1` once each.
   */
  lemma SessionClosesOnce(h: Handle, m: nat)
    ensures |Session(h, m)| == m + 2
    ensures Session(h, m)[0] == Opened(h) && Session(h, m)[m + 1] == Closed(h)
    ensures forall i :: 1 <= i <= m ==> Session(h, m)[i] == Rendered(h, i - 1, FullDpi)
    ensures multiset(Session(h, m))[Closed(h)] == 1
    ensures multiset(Session(h, m))[Opened(h)] == 1
  {
  }

  /**
   * `renderPage`: the page argument is 1-based and is converted to the
   * engine's 0-based index; the page is rendered at full resolution.
   */
  method RenderPage(engine: Pdfium, h: Handle, page: int) returns (r: Result<Bitmap>)
    requires h in engine.docs
    modifies engine`log
    ensures r == engine.render(engine.docs[h], page - 1, FullDpi)
    ensures engine.log == old(engine.log) + [Rendered(h, page - 1, FullDpi)]
  {
    r := engine.RenderPageInDPI(h, page - 1, FullDpi);
  }

  /**
   * The inner loop of `ExtractTextFromPDF`: append `text + " "` for every
   * LINE or WORD block that has text, in block order.
   */
  method AppendBlockTexts(combinedText: string, blocks: seq<Block>) returns (r: string)
    ensures r == combinedText + Join(Fragments(blocks))
  {
    r := combinedText;
    var j := 0;
    while j < |blocks|
      invariant 0 <= j <= |blocks|
      invariant r == combinedText + BlocksText(blocks[..j])
    {
      var block := blocks[j];
      if block.blockType == BlockTypeLine || block.blockType == BlockTypeWord {
        if block.text.Some? {
          ConcatAssoc(r, block.text.value, " ");
          r := r + block.text.value + " ";
        }
      }
      assert blocks[..j + 1][..j] == blocks[..j];
      ConcatAssoc(combinedText, BlocksText(blocks[..j]), Contribution(block));
      j := j + 1;
    }
    assert blocks[..j] == blocks;
    BlocksTextIsJoin(blocks);
  }

  /** One more page of the loop, after the pages before it all succeeded. */
  lemma PageStep(o: Oracles, d: Document, i: nat)
    requires DocText(o, d, i).Ok?
    ensures Attempted(o, d, i + 1) == i + 1
    ensures PageBlocks(o, d, i).Err? ==> DocText(o, d, i + 1) == Err(PageBlocks(o, d, i).error)
    ensures PageBlocks(o, d, i).Ok? ==>
      DocText(o, d, i + 1) == Ok(DocText(o, d, i).value + Join(Fragments(PageBlocks(o, d, i).value)))
  {
    if PageBlocks(o, d, i).Ok? {
      BlocksTextIsJoin(PageBlocks(o, d, i).value);
    }
  }

  /**
   * The page loop of `ExtractTextFromPDF` on the open document `h`: for each
   * 0-based index `i` below the page count, render page `i + 1`, encode it,
   * detect its blocks and append their text; stop at the first failure and
   * return it, dropping the text gathered so far.
   */
  method PageLoop(engine: Pdfium, h: Handle, pageCount: int, encode: Bitmap -> Result<seq<byte>>,
                  detect: seq<byte> -> Result<seq<Block>>) returns (r: Result<string>)
    requires h in engine.docs
    modifies engine`log
    ensures r == DocText(Oracles(engine.render, encode, detect), engine.docs[h], Pages(pageCount))
    ensures engine.log == old(engine.log) +
      Renders(h, Attempted(Oracles(engine.render, encode, detect), engine.docs[h], Pages(pageCount)), FullDpi)
  {
    ghost var o := Oracles(engine.render, encode, detect);
    ghost var d := engine.docs[h];
    var combinedText := "";
    var failure: Option<Error> := None;
    var i := 0;
    while i < pageCount && failure.None?
      invariant 0 <= i <= Pages(pageCount)
      invariant Attempted(o, d, i) == i
      invariant engine.log == old(engine.log) + Renders(h, i, FullDpi)
      invariant failure.None? ==> DocText(o, d, i) == Ok(combinedText)
      invariant failure.Some? ==> DocText(o, d, i) == Err(failure.value)
    {
      PageStep(o, d, i);
      var img := RenderPage(engine, h, i + 1);
      RendersNext(old(engine.log), h, i, FullDpi);
      if img.Err? {
        failure := Some(img.error);
      } else {
        var b := encode(img.value);
        if b.Err? {
          failure := Some(b.error);
        } else {
          // The text-detection call on the encoded page.
          var resp := detect(b.value);
          if resp.Err? {
            failure := Some(resp.error);
          } else {
            combinedText := AppendBlockTexts(combinedText, resp.value);
          }
        }
      }
      i := i + 1;
    }
    if failure.Some? {
      ErrPersists(o, d, i, Pages(pageCount));
      r := Err(failure.value);
    } else {
      r := Ok(combinedText);
    }
  }

  /**
   * `ExtractTextFromPDF`. The result is `PdfText`; nothing is opened after a
   * configuration or open failure, and after a successful open the engine log
   * grows by exactly one `Session`: the open, the renders of the pages the
   * loop reached, and one close.
   */
  method ExtractTextFromPDF(engine: Pdfium, configErr: Option<Error>, encode: Bitmap -> Result<seq<byte>>,
                            detect: seq<byte> -> Result<seq<Block>>, pdfData: seq<byte>)
    returns (r: Result<string>)
    requires engine.Valid()
    modifies engine
    ensures engine.Valid()
    ensures r == PdfText(configErr, engine.load, engine.pageCount, Oracles(engine.render, encode, detect), pdfData)
    ensures engine.docs == old(engine.docs)
    ensures configErr.Some? || engine.load(pdfData).Err? ==> engine.log == old(engine.log) && engine.next == old(engine.next)
    ensures configErr.None? && engine.load(pdfData).Ok? ==> engine.next == old(engine.next) + 1
    ensures configErr.None? && engine.load(pdfData).Ok? ==>
      engine.log == old(engine.log) + Session(old(engine.next),
        PagesRendered(engine.pageCount, Oracles(engine.render, encode, detect), engine.load(pdfData).value))
  {
    if configErr.Some? {
      return Err("configuration error, " + configErr.value);
    }
    var doc := engine.OpenDocument(pdfData);
    if doc.Err? {
      return Err(doc.error);
    }
    var h := doc.value;
    ghost var afterOpen := engine.log;
    ghost var o := Oracles(engine.render, encode, detect);

    // The body that the deferred close follows.
    var count := engine.GetPageCount(h);
    if count.Err? {
      r := Err(count.error);
      assert engine.log == afterOpen + Renders(h, 0, FullDpi);
    } else {
      r := PageLoop(engine, h, count.value, encode, detect);
    }
    assert engine.log == afterOpen + Renders(h, PagesRendered(engine.pageCount, o, engine.docs[h]), FullDpi);
    engine.CloseDocument(h);
    SessionLog(old(engine.log), h, PagesRendered(engine.pageCount, o, engine.load(pdfData).value));
    assert engine.docs == old(engine.docs);
  }

  /**
   * `renderPageFromBuffer`: open the bytes, render the page at index 0 at
   * preview resolution, and close the document whether or not rendering
   * succeeded. The `page` argument is not used.
   */
  method RenderPageFromBuffer(engine: Pdfium, pdfBytes: seq<byte>, page: int) returns (r: Result<Bitmap>)
    requires engine.Valid()
    modifies engine
    ensures engine.Valid()
    ensures engine.docs == old(engine.docs)
    ensures engine.load(pdfBytes).Err? ==>
      r == Err(engine.load(pdfBytes).error) && engine.log == old(engine.log) && engine.next == old(engine.next)
    ensures engine.load(pdfBytes).Ok? ==> engine.next == old(engine.next) + 1
    ensures engine.load(pdfBytes).Ok? ==>
      && r == engine.render(engine.load(pdfBytes).value, 0, PreviewDpi)
      && engine.log == old(engine.log) + [Opened(old(engine.next)), Rendered(old(engine.next), 0, PreviewDpi), Closed(old(engine.next))]
  {
    var doc := engine.OpenDocument(pdfBytes);
    if doc.Err? {
      return Err(doc.error);
    }
    var h := doc.value;
    r := engine.RenderPageInDPI(h, 0, PreviewDpi);
    engine.CloseDocument(h);
  }
}
