/**
 * The document services of the application (services/pdfUtils.ts).
 *
 * Every service hands the real work to a PDF library. The model keeps what
 * the repository itself decides: which library call is made with which
 * arguments, the order in which pages are produced, page sizes, names of
 * output files, option defaults, error messages and the clean-up of the
 * HTML rendering frame. The library calls appear as function-typed
 * parameters: a `Loader` is `PDFDocument.load` on a file's bytes (None when
 * it throws), an `Encryptor` is the RC4 encryption routine, a `Rasterizer`
 * is html2canvas, and so on. A saved document is represented by the
 * `Document` value it was saved from.
 */
module PdfUtils {
  import opened Wrappers
  import opened Text

  type Byte = b: int | 0 <= b < 256

  /** A length in PDF points, pixels or paper units; never negative. */
  type Dim = r: real | r >= 0.0

  datatype Size = Size(width: Dim, height: Dim)

  datatype ImageFormat = Png | Jpeg

  /** Something drawn on a page: an embedded image or a line of text. */
  datatype Mark =
    | Picture(format: ImageFormat, x: real, y: real, width: real, height: real)
    | Caption(text: string, x: real, y: real, fontSize: real, opacity: real, rotation: real)

  datatype Page = Page(size: Size, rotation: int, marks: seq<Mark>)

  datatype Document = Document(pages: seq<Page>)

  /** A file the user picked: its name, its MIME type, its size in bytes and the bytes. */
  datatype File = File(name: string, mimeType: string, size: nat, bytes: seq<Byte>)

  /** `PDFDocument.load` (or pdf.js `getDocument`) on a file's bytes; None when the library throws. */
  type Loader = File -> Option<Document>

  /** What is handed to `downloadBlob`: raw bytes, the bytes saved from a document, or jsPDF's output. */
  datatype Payload = PdfBytes(bytes: seq<Byte>) | SavedPdf(doc: Document) | JsPdfOutput(pdf: JsPdf)

  datatype Download = Download(fileName: string, payload: Payload)

  // ----- downloadBlob -----

  /** The name the browser saves under: ".pdf" is appended unless already there. */
  function DownloadName(filename: string): (r: string)
    ensures EndsWith(r, ".pdf")
    ensures |filename| <= |r| && r[..|filename|] == filename
    ensures r == filename <==> EndsWith(filename, ".pdf")
    ensures !EndsWith(filename, ".pdf") ==> |r| == |filename| + 4
  {
    if EndsWith(filename, ".pdf") then filename else filename + ".pdf"
  }

  lemma DownloadNameIdempotent(filename: string)
    ensures DownloadName(DownloadName(filename)) == DownloadName(filename)
  {
  }

  function DownloadBlob(data: Payload, filename: string): Download {
    Download(DownloadName(filename), data)
  }

  // ----- splitPDF -----

  datatype Part = Part(name: string, data: Document)

  /** The name of part i: the file's name without its first ".pdf", then "_page_", the 1-based page number and ".pdf". */
  function SplitPartName(fileName: string, i: nat): (r: string)
    ensures EndsWith(r, ".pdf")
  {
    ReplaceFirst(fileName, ".pdf", "") + "_page_" + Decimal(i + 1) + ".pdf"
  }

  /** A part's name already ends in ".pdf", so downloading it adds nothing. */
  lemma SplitPartDownloadName(fileName: string, i: nat)
    ensures DownloadName(SplitPartName(fileName, i)) == SplitPartName(fileName, i)
  {
  }

  /** For "report.pdf" the parts are "report_page_1.pdf", "report_page_2.pdf", ... */
  lemma SplitPartNameOfPdfFile(base: string, i: nat)
    requires !Contains(base, ".pdf")
    ensures SplitPartName(base + ".pdf", i) == base + "_page_" + Decimal(i + 1) + ".pdf"
  {
    StripPdfSuffix(base);
  }

  /** No two parts of one split get the same name. */
  lemma SplitPartNamesDistinct(fileName: string, i: nat, j: nat)
    requires i != j
    ensures SplitPartName(fileName, i) != SplitPartName(fileName, j)
  {
    var prefix := ReplaceFirst(fileName, ".pdf", "") + "_page_";
    var a, b := Decimal(i + 1), Decimal(j + 1);
    if SplitPartName(fileName, i) == SplitPartName(fileName, j) {
      var x, y := prefix + a + ".pdf", prefix + b + ".pdf";
      assert |a| == |b|;
      assert a == x[|prefix|..|prefix| + |a|];
      assert b == y[|prefix|..|prefix| + |b|];
      DecimalInjective(i + 1, j + 1);
    }
  }

  /** Part i of a split: page i alone, under its part name. */
  function SplitPart(fileName: string, page: Page, i: nat): (p: Part)
    ensures p.data.pages == [page] && EndsWith(p.name, ".pdf")
  {
    Part(SplitPartName(fileName, i), Document([page]))
  }

  /** One single-page document per page of the file, in page order. */
  method SplitPdf(load: Loader, file: File) returns (r: Option<seq<Part>>)
    ensures r.Some? <==> load(file).Some?
    ensures r.Some? ==> |r.value| == |load(file).value.pages|
    ensures r.Some? ==> forall i :: 0 <= i < |r.value| ==>
              r.value[i] == SplitPart(file.name, load(file).value.pages[i], i)
  {
    var loaded := load(file);
    if loaded.None? {
      return None;
    }
    var pages := loaded.value.pages;
    var pageCount := |pages|;
    var result: seq<Part> := [];
    for i := 0 to pageCount
      invariant |result| == i
      invariant forall k :: 0 <= k < i ==> result[k] == SplitPart(file.name, pages[k], k)
    {
      // a new document holding the copy of page i alone, under its part name
      result := result + [SplitPart(file.name, pages[i], i)];
    }
    return Some(result);
  }

  // ----- mergePDFs -----

  /** Loads every file, in order; None as soon as one of them fails. */
  function LoadAll(load: Loader, files: seq<File>): (r: Option<seq<Document>>)
    ensures r.Some? <==> forall k :: 0 <= k < |files| ==> load(files[k]).Some?
    ensures r.Some? ==> |r.value| == |files|
    ensures r.Some? ==> forall k :: 0 <= k < |files| ==> r.value[k] == load(files[k]).value
  {
    if files == [] then Some([])
    else
      match LoadAll(load, files[..|files| - 1])
      case None => None
      case Some(docs) =>
        match load(files[|files| - 1])
        case None => None
        case Some(d) => Some(docs + [d])
  }

  /** The pages of all documents, one document after the other. */
  function AllPages(docs: seq<Document>): seq<Page> {
    if docs == [] then [] else AllPages(docs[..|docs| - 1]) + docs[|docs| - 1].pages
  }

  /** Page `p` of document `k` sits after the pages of the documents before it. */
  lemma {:induction false} AllPagesInOrder(docs: seq<Document>, k: nat, p: nat)
    requires k < |docs| && p < |docs[k].pages|
    ensures |AllPages(docs[..k])| + p < |AllPages(docs)|
    ensures AllPages(docs)[|AllPages(docs[..k])| + p] == docs[k].pages[p]
  {
    var n := |docs|;
    if k == n - 1 {
      assert docs[..n - 1] == docs[..k];
    } else {
      var init := docs[..n - 1];
      AllPagesInOrder(init, k, p);
      assert init[..k] == docs[..k];
    }
  }

  method MergePdfs(load: Loader, files: seq<File>) returns (r: Option<Document>)
    ensures r.Some? <==> LoadAll(load, files).Some?
    ensures r.Some? ==> r.value.pages == AllPages(LoadAll(load, files).value)
  {
    var out := Document([]);
    ghost var docs: seq<Document> := [];
    for i := 0 to |files|
      invariant LoadAll(load, files[..i]) == Some(docs)
      invariant out.pages == AllPages(docs)
    {
      assert files[..i + 1][..i] == files[..i];
      var pdf := load(files[i]);
      if pdf.None? {
        assert LoadAll(load, files[..i + 1]).None?;
        assert !(forall k :: 0 <= k < |files| ==> load(files[k]).Some?);
        return None;
      }
      assert (docs + [pdf.value])[..|docs|] == docs;
      out := Document(out.pages + pdf.value.pages);
      docs := docs + [pdf.value];
    }
    assert files[..|files|] == files;
    return Some(out);
  }

  // ----- organizePDF -----

  /**
   * `copyPages(pdf, order)`: the new document has page `order[k]` of the file
   * at position k; an index outside the file makes the library throw.
   */
  function OrganizePdf(load: Loader, file: File, order: seq<nat>): (r: Option<Document>)
    ensures r.Some? <==> load(file).Some? && forall k :: 0 <= k < |order| ==> order[k] < |load(file).value.pages|
    ensures r.Some? ==> |r.value.pages| == |order|
    ensures r.Some? ==> forall k :: 0 <= k < |order| ==> r.value.pages[k] == load(file).value.pages[order[k]]
  {
    match load(file)
    case None => None
    case Some(pdf) =>
      if forall k :: 0 <= k < |order| ==> order[k] < |pdf.pages|
      then Some(Document(seq(|order|, k requires 0 <= k < |order| => pdf.pages[order[k]])))
      else None
  }

  // ----- rotatePDF -----

  /** Every page set to the angle: the new angle replaces the old one, it does not add to it. */
  function RotatePages(doc: Document, angle: int): (r: Document)
    ensures |r.pages| == |doc.pages|
    ensures forall k :: 0 <= k < |doc.pages| ==>
              r.pages[k].rotation == angle && r.pages[k].size == doc.pages[k].size && r.pages[k].marks == doc.pages[k].marks
  {
    Document(seq(|doc.pages|, k requires 0 <= k < |doc.pages| => doc.pages[k].(rotation := angle)))
  }

  /** Rotating twice is rotating once by the second angle. */
  lemma RotateLastWins(doc: Document, a: int, b: int)
    ensures RotatePages(RotatePages(doc, a), b) == RotatePages(doc, b)
  {
    var x, y := RotatePages(RotatePages(doc, a), b), RotatePages(doc, b);
    assert |x.pages| == |y.pages|;
    forall k | 0 <= k < |x.pages| ensures x.pages[k] == y.pages[k] {
    }
    assert x.pages == y.pages;
  }

  /**
   * `rotatePDF`: every page of the loaded file set to the angle; None when
   * the file does not load, or when it has a page and the angle is not a
   * multiple of 90, which pdf-lib's `setRotation` rejects on the first page.
   */
  function RotatePdf(load: Loader, file: File, angle: int): (r: Option<Document>)
    ensures r.Some? <==> load(file).Some? && (load(file).value.pages == [] || angle % 90 == 0)
    ensures r.Some? ==> |r.value.pages| == |load(file).value.pages|
    ensures r.Some? ==> forall k :: 0 <= k < |r.value.pages| ==>
              r.value.pages[k] == load(file).value.pages[k].(rotation := angle)
  {
    match load(file)
    case None => None
    case Some(pdf) =>
      if pdf.pages != [] && angle % 90 != 0 then None
      else Some(RotatePages(pdf, angle))
  }

  // ----- imagesToPdf -----

  /** `embedPng` when the MIME type mentions "png", `embedJpg` otherwise. */
  function EmbedFormat(mimeType: string): (f: ImageFormat)
    ensures f == Png <==> exists i: nat :: OccursAt(mimeType, "png", i)
  {
    var found := IndexOf(mimeType, "png");
    if found.Some? then Png else Jpeg
  }

  /** `embedPng`/`embedJpg` on a file's bytes: the embedded image's size, None when the library throws. */
  type ImageDecoder = (File, ImageFormat) -> Option<Size>

  /** The image drawn at the origin with its own size covers its page exactly. */
  predicate ImageFillsPage(p: Page) {
    |p.marks| == 1 && p.marks[0].Picture?
    && p.marks[0].x == 0.0 && p.marks[0].y == 0.0
    && p.marks[0].width == p.size.width && p.marks[0].height == p.size.height
  }

  /** A new page exactly the image's size, with the image drawn over all of it from the origin. */
  function ImagePage(img: Size, format: ImageFormat): (p: Page)
    ensures p.size == img && p.rotation == 0 && ImageFillsPage(p) && p.marks[0].format == format
  {
    Page(img, 0, [Picture(format, 0.0, 0.0, img.width, img.height)])
  }

  /** The document `imagesToPdf` builds: one page per image, in order, or None when an image cannot be embedded. */
  function ImagesDocument(decode: ImageDecoder, files: seq<File>): (r: Option<Document>)
    ensures r.Some? <==> forall k :: 0 <= k < |files| ==> decode(files[k], EmbedFormat(files[k].mimeType)).Some?
    ensures r.Some? ==> |r.value.pages| == |files|
    ensures r.Some? ==> forall k :: 0 <= k < |files| ==>
              var format := EmbedFormat(files[k].mimeType);
              r.value.pages[k].size == decode(files[k], format).value && ImageFillsPage(r.value.pages[k])
              && r.value.pages[k].marks[0].format == format
  {
    if forall k :: 0 <= k < |files| ==> decode(files[k], EmbedFormat(files[k].mimeType)).Some? then
      Some(Document(seq(|files|, k requires 0 <= k < |files| =>
        ImagePage(decode(files[k], EmbedFormat(files[k].mimeType)).value, EmbedFormat(files[k].mimeType)))))
    else None
  }

  method ImagesToPdf(decode: ImageDecoder, files: seq<File>) returns (r: Option<Document>)
    ensures r == ImagesDocument(decode, files)
  {
    var pages: seq<Page> := [];
    for i := 0 to |files|
      invariant |pages| == i
      invariant forall k :: 0 <= k < i ==> decode(files[k], EmbedFormat(files[k].mimeType)).Some?
      invariant forall k :: 0 <= k < i ==>
                  pages[k] == ImagePage(decode(files[k], EmbedFormat(files[k].mimeType)).value, EmbedFormat(files[k].mimeType))
    {
      var format := EmbedFormat(files[i].mimeType);
      var img := decode(files[i], format);
      if img.None? {
        return None;
      }
      pages := pages + [ImagePage(img.value, format)];
    }
    r := Some(Document(pages));
    assert r.value.pages == ImagesDocument(decode, files).value.pages;
  }

  // ----- addWatermark -----

  datatype WatermarkOptions = WatermarkOptions(fontSize: Option<real>, opacity: Option<real>, rotation: Option<real>)

  const DefaultFontSize: real := 48.0
  const DefaultOpacity: real := 0.3
  const DefaultRotation: real := -45.0

  /** JavaScript `value || fallback` on a number: an absent value and 0 both give the fallback. */
  function OrDefault(value: Option<real>, fallback: real): (r: real)
    ensures value.Some? && value.value != 0.0 ==> r == value.value
    ensures value.None? || value.value == 0.0 ==> r == fallback
  {
    if value.Some? && value.value != 0.0 then value.value else fallback
  }

  datatype Style = Style(fontSize: real, opacity: real, rotation: real)

  /** The style drawn: each of size, opacity and rotation as given, or 48, 0.3 and -45 when it is absent or zero. */
  function ResolveOptions(options: Option<WatermarkOptions>): (s: Style)
    ensures s.fontSize != 0.0 && s.opacity != 0.0 && s.rotation != 0.0
    ensures options.None? ==> s == Style(DefaultFontSize, DefaultOpacity, DefaultRotation)
    ensures options.Some? ==> s == Style(OrDefault(options.value.fontSize, DefaultFontSize),
                                         OrDefault(options.value.opacity, DefaultOpacity),
                                         OrDefault(options.value.rotation, DefaultRotation))
  {
    match options
    case None => Style(DefaultFontSize, DefaultOpacity, DefaultRotation)
    case Some(o) => Style(OrDefault(o.fontSize, DefaultFontSize), OrDefault(o.opacity, DefaultOpacity),
                          OrDefault(o.rotation, DefaultRotation))
  }

  /** Resolving an already resolved style changes nothing. */
  lemma ResolveOptionsIdempotent(options: Option<WatermarkOptions>)
    ensures var s := ResolveOptions(options);
            ResolveOptions(Some(WatermarkOptions(Some(s.fontSize), Some(s.opacity), Some(s.rotation)))) == s
  {
  }

  /** Where text of the given extent starts so that its centre is the page's centre. */
  function CentredOrigin(page: Size, textWidth: real, textHeight: real): (o: (real, real))
    ensures o.0 + textWidth / 2.0 == page.width / 2.0 && o.1 + textHeight / 2.0 == page.height / 2.0
    ensures page.width - (o.0 + textWidth) == o.0 && page.height - (o.1 + textHeight) == o.1
  {
    (page.width / 2.0 - textWidth / 2.0, page.height / 2.0 - textHeight / 2.0)
  }

  /** The page with the watermark text drawn on top, centred. */
  function Stamped(p: Page, text: string, style: Style, textWidth: real, textHeight: real): (q: Page)
    ensures q.size == p.size && q.rotation == p.rotation
    ensures |q.marks| == |p.marks| + 1 && q.marks[..|p.marks|] == p.marks
    ensures var c := q.marks[|p.marks|];
            c.Caption? && c.text == text && c.fontSize == style.fontSize && c.opacity == style.opacity
            && c.rotation == style.rotation
            && p.size.width - (c.x + textWidth) == c.x && p.size.height - (c.y + textHeight) == c.y
  {
    var origin := CentredOrigin(p.size, textWidth, textHeight);
    p.(marks := p.marks + [Caption(text, origin.0, origin.1, style.fontSize, style.opacity, style.rotation)])
  }

  /**
   * The embedded standard Helvetica Bold: whether its WinAnsi encoding can
   * encode a text (measuring or drawing a text it cannot encode throws), the
   * width of an encodable text at a size, and the height at a size.
   */
  datatype FontMetrics = FontMetrics(canEncode: string -> bool, widthOfTextAtSize: (string, real) -> real,
                                     heightAtSize: real -> real)

  /**
   * The document `addWatermark` saves: every page of the loaded file with
   * the text drawn on it, centred, in the resolved style; None when the file
   * does not load, or when it has a page and the font cannot encode the text.
   */
  function Watermarked(load: Loader, file: File, text: string, options: Option<WatermarkOptions>, font: FontMetrics)
    : (r: Option<Document>)
    ensures r.Some? <==> load(file).Some? && (load(file).value.pages == [] || font.canEncode(text))
    ensures r.Some? ==> |r.value.pages| == |load(file).value.pages|
    ensures r.Some? ==> var style := ResolveOptions(options);
              forall k :: 0 <= k < |r.value.pages| ==>
                var p := load(file).value.pages[k];
                var q := r.value.pages[k];
                q.size == p.size && q.rotation == p.rotation
                && |q.marks| == |p.marks| + 1 && q.marks[..|p.marks|] == p.marks
                && q.marks[|p.marks|] == Caption(text, q.marks[|p.marks|].x, q.marks[|p.marks|].y,
                                                 style.fontSize, style.opacity, style.rotation)
    ensures r.Some? ==> var style := ResolveOptions(options);
              var textWidth := font.widthOfTextAtSize(text, style.fontSize);
              var textHeight := font.heightAtSize(style.fontSize);
              forall k :: 0 <= k < |r.value.pages| ==>
                var p := load(file).value.pages[k];
                var c := r.value.pages[k].marks[|p.marks|];
                p.size.width - (c.x + textWidth) == c.x && p.size.height - (c.y + textHeight) == c.y
  {
    match load(file)
    case None => None
    case Some(src) =>
      if src.pages != [] && !font.canEncode(text) then None
      else
      var style := ResolveOptions(options);
      var textWidth := font.widthOfTextAtSize(text, style.fontSize);
      var textHeight := font.heightAtSize(style.fontSize);
      Some(Document(seq(|src.pages|, k requires 0 <= k < |src.pages| => Stamped(src.pages[k], text, style, textWidth, textHeight))))
  }

  /** `addWatermark`, page by page: measuring the text on the first page throws when the font cannot encode it. */
  method AddWatermark(load: Loader, file: File, text: string, options: Option<WatermarkOptions>, font: FontMetrics)
    returns (r: Option<Document>)
    ensures r == Watermarked(load, file, text, options, font)
  {
    var loaded := load(file);
    if loaded.None? {
      return None;
    }
    var pages := loaded.value.pages;
    var style := ResolveOptions(options);
    var stamped: seq<Page> := [];
    for i := 0 to |pages|
      invariant |stamped| == i
      invariant i > 0 ==> font.canEncode(text)
      invariant forall k :: 0 <= k < i ==>
                  stamped[k] == Stamped(pages[k], text, style, font.widthOfTextAtSize(text, style.fontSize), font.heightAtSize(style.fontSize))
    {
      if !font.canEncode(text) {
        return None;
      }
      var textWidth := font.widthOfTextAtSize(text, style.fontSize);
      var textHeight := font.heightAtSize(style.fontSize);
      stamped := stamped + [Stamped(pages[i], text, style, textWidth, textHeight)];
    }
    r := Some(Document(stamped));
    assert r.value.pages == Watermarked(load, file, text, options, font).value.pages;
  }

  // ----- compressPDF and compressPDFLossless -----

  /** pdf.js `getViewport({ scale: 1.0 })` of a page. */
  type ViewportOf = Page -> Size

  /**
   * Rendering a page onto a canvas of the given size, exporting the canvas
   * as a JPEG data URL at the given quality, fetching the URL's bytes and
   * embedding them in the new document: true when none of these rejects.
   */
  type JpegEncoder = (Page, Size, real) -> bool

  /** The canvas for a viewport: its width and height are set from the viewport's, truncated to whole pixels. */
  function CanvasOf(viewport: Size): (c: Size)
    ensures c.width <= viewport.width < c.width + 1.0 && c.height <= viewport.height < c.height + 1.0
    ensures c.width == c.width.Floor as real && c.height == c.height.Floor as real
  {
    Size(viewport.width.Floor as real, viewport.height.Floor as real)
  }

  /**
   * The page rebuilt from a JPEG of the rendered page: the new page is the
   * size of the canvas, and shows the image at the origin.
   */
  function RasterPage(viewport: Size): (p: Page)
    ensures p.size.width == viewport.width.Floor as real && p.size.height == viewport.height.Floor as real
    ensures p.size.width <= viewport.width < p.size.width + 1.0
    ensures p.size.height <= viewport.height < p.size.height + 1.0
    ensures ImageFillsPage(p) && p.marks[0].format == Jpeg
  {
    ImagePage(CanvasOf(viewport), Jpeg)
  }

  /** Every page, rendered on the canvas for its viewport, encodes and embeds at the quality. */
  predicate AllPagesEncode(viewport: ViewportOf, encode: JpegEncoder, quality: real, pages: seq<Page>) {
    forall k :: 0 <= k < |pages| ==> encode(pages[k], CanvasOf(viewport(pages[k])), quality)
  }

  /**
   * The document `compressPDF` builds: one page per page of the loaded file,
   * each showing a JPEG of the rendered page; None when the file does not
   * load or some page fails to render, encode or embed.
   */
  function Rasterized(load: Loader, viewport: ViewportOf, encode: JpegEncoder, file: File, quality: real)
    : (r: Option<Document>)
    ensures r.Some? <==> load(file).Some? && AllPagesEncode(viewport, encode, quality, load(file).value.pages)
    ensures r.Some? ==> |r.value.pages| == |load(file).value.pages|
    ensures r.Some? ==> forall k :: 0 <= k < |r.value.pages| ==>
              var v := viewport(load(file).value.pages[k]);
              var q := r.value.pages[k];
              q.size.width <= v.width < q.size.width + 1.0 && q.size.height <= v.height < q.size.height + 1.0
              && ImageFillsPage(q) && q.marks[0].format == Jpeg
  {
    match load(file)
    case None => None
    case Some(src) =>
      if AllPagesEncode(viewport, encode, quality, src.pages) then
        Some(Document(seq(|src.pages|, k requires 0 <= k < |src.pages| => RasterPage(viewport(src.pages[k])))))
      else None
  }

  /** `compressPDF`, page by page: the first page that fails to render, encode or embed ends it. */
  method CompressPdf(load: Loader, viewport: ViewportOf, encode: JpegEncoder, file: File, quality: real)
    returns (r: Option<Document>)
    ensures r == Rasterized(load, viewport, encode, file, quality)
  {
    var src := load(file);
    if src.None? {
      return None;
    }
    var pages := src.value.pages;
    var numPages := |pages|;
    var out: seq<Page> := [];
    for i := 1 to numPages + 1
      invariant |out| == i - 1
      invariant forall k :: 0 <= k < i - 1 ==>
                  encode(pages[k], CanvasOf(viewport(pages[k])), quality) && out[k] == RasterPage(viewport(pages[k]))
    {
      var page := pages[i - 1];
      var canvas := CanvasOf(viewport(page));
      if !encode(page, canvas, quality) {
        assert !AllPagesEncode(viewport, encode, quality, pages);
        return None;
      }
      out := out + [RasterPage(viewport(page))];
    }
    r := Some(Document(out));
    assert r.value.pages == Rasterized(load, viewport, encode, file, quality).value.pages;
  }

  /** Re-saving with object streams keeps every page as it was. */
  function CompressPdfLossless(load: Loader, file: File): (r: Option<Document>)
    ensures r.Some? <==> load(file).Some?
    ensures r.Some? ==> r.value.pages == load(file).value.pages
  {
    match load(file)
    case None => None
    case Some(pdf) => Some(Document(pdf.pages))
  }

  // ----- readFileAsArrayBuffer, lockPDF and unlockPDF -----

  /** How the browser's FileReader finishes on a file: with an ArrayBuffer, with a result of another type, or with an error. */
  datatype ReaderOutcome = LoadedBuffer(bytes: seq<Byte>) | LoadedOther | ReaderFailed(message: string)

  type FileReaderOf = File -> ReaderOutcome

  const ReadFailure: string := "Failed to read file"

  /**
   * `readFileAsArrayBuffer`: the bytes when the reader yields an ArrayBuffer;
   * a result of any other type is an error of its own, and the reader's own
   * error is passed on with its message.
   */
  function ReadFileAsArrayBuffer(reader: FileReaderOf, file: File): (r: Result<seq<Byte>, string>)
    ensures r.Ok? <==> reader(file).LoadedBuffer?
    ensures r.Ok? ==> r.value == reader(file).bytes
    ensures reader(file).LoadedOther? ==> r == Err(ReadFailure)
    ensures reader(file).ReaderFailed? ==> r == Err(reader(file).message)
  {
    match reader(file)
    case LoadedBuffer(bytes) => Ok(bytes)
    case LoadedOther => Err(ReadFailure)
    case ReaderFailed(message) => Err(message)
  }

  /** The encryption routine, called with the same password as user and owner password. */
  type Encryptor = (seq<Byte>, string, string) -> Result<seq<Byte>, string>

  const EmptyEncryption: string := "Encryption returned empty result."

  /**
   * `lockPDF`: a failed read is rethrown with its message; otherwise an
   * error from the encryption routine is rethrown with its own message, and
   * an empty result is an error of its own.
   */
  function LockPdf(reader: FileReaderOf, encrypt: Encryptor, file: File, password: string)
    : (r: Result<seq<Byte>, string>)
    ensures ReadFileAsArrayBuffer(reader, file).Err? ==> r == Err(ReadFileAsArrayBuffer(reader, file).error)
    ensures ReadFileAsArrayBuffer(reader, file).Ok? ==>
              var out := encrypt(ReadFileAsArrayBuffer(reader, file).value, password, password);
              (r.Ok? <==> out.Ok? && |out.value| > 0)
              && (r.Ok? ==> r.value == out.value)
              && (out.Err? ==> r == Err(out.error))
              && (out == Ok([]) ==> r == Err(EmptyEncryption))
  {
    match ReadFileAsArrayBuffer(reader, file)
    case Err(message) => Err(message)
    case Ok(bytes) =>
      match encrypt(bytes, password, password)
      case Err(message) => Err(message)
      case Ok(encrypted) =>
        if |encrypted| == 0 then Err(EmptyEncryption) else Ok(encrypted)
  }

  const LibraryMissing: string := "PDF library not loaded."
  const WrongPassword: string := "Incorrect password. Please try again."

  /** `PDFDocument.load(buffer, { password })` on the bytes read; None when the library throws. */
  type PasswordLoader = (seq<Byte>, string) -> Option<Document>

  /**
   * `unlockPDF`: without the global library it fails at once; a failed read
   * is rethrown with its message; any failure to open the bytes is reported
   * as a wrong password; otherwise every page is copied, in order, into a
   * new unencrypted document.
   */
  function UnlockPdf(libraryLoaded: bool, reader: FileReaderOf, loadWithPassword: PasswordLoader, file: File,
                     password: string)
    : (r: Result<Document, string>)
    ensures !libraryLoaded ==> r == Err(LibraryMissing)
    ensures libraryLoaded && ReadFileAsArrayBuffer(reader, file).Err? ==>
              r == Err(ReadFileAsArrayBuffer(reader, file).error)
    ensures libraryLoaded && ReadFileAsArrayBuffer(reader, file).Ok? ==>
              var src := loadWithPassword(ReadFileAsArrayBuffer(reader, file).value, password);
              (src.None? ==> r == Err(WrongPassword))
              && (src.Some? ==> r == Ok(Document(src.value.pages)))
  {
    if !libraryLoaded then Err(LibraryMissing)
    else
      match ReadFileAsArrayBuffer(reader, file)
      case Err(message) => Err(message)
      case Ok(buffer) =>
        match loadWithPassword(buffer, password)
        case None => Err(WrongPassword)
        case Some(src) =>
          var indices := seq(|src.pages|, k => k);
          var copied := seq(|indices|, k requires 0 <= k < |indices| => src.pages[indices[k]]);
          assert copied == src.pages;
          Ok(Document(copied))
  }

  // ----- htmlToPDF -----

  datatype PaperFormat = A4 | Letter
  datatype Orientation = Portrait | Landscape
  datatype Unit = Millimetres | Inches

  datatype HtmlOptions = HtmlOptions(format: Option<PaperFormat>, orientation: Option<Orientation>)

  /**
   * The numbers `htmlToPDF` uses for a paper format: the width and minimum
   * height of the rendered body in CSS pixels, the width the image is given
   * on the page and the page height, both in the document's unit.
   */
  datatype PageGeometry = PageGeometry(format: PaperFormat, unit: Unit, widthPx: nat, heightPx: nat,
                                       imageWidth: real, pageHeight: real)

  function Geometry(options: Option<HtmlOptions>): (g: PageGeometry)
    ensures options.Some? && options.value.format == Some(Letter) ==>
              g == PageGeometry(Letter, Inches, 816, 1056, 8.5, 11.0)
    ensures !(options.Some? && options.value.format == Some(Letter)) ==>
              g == PageGeometry(A4, Millimetres, 794, 1123, 210.0, 297.0)
  {
    var isLetter := options.Some? && options.value.format == Some(Letter);
    if isLetter then PageGeometry(Letter, Inches, 816, 1056, 8.5, 11.0)
    else PageGeometry(A4, Millimetres, 794, 1123, 210.0, 297.0)
  }

  /** Physical length in inches. */
  function InInches(length: real, unit: Unit): real {
    if unit == Inches then length else length / 25.4
  }

  /**
   * The pixel sizes are the paper's width and height at 96 CSS pixels per
   * inch, rounded to the nearest pixel: exact for Letter, within half a pixel
   * for A4.
   */
  lemma GeometryIs96Dpi(options: Option<HtmlOptions>)
    ensures var g := Geometry(options);
            -0.5 <= g.widthPx as real - 96.0 * InInches(g.imageWidth, g.unit) <= 0.5
            && -0.5 <= g.heightPx as real - 96.0 * InInches(g.pageHeight, g.unit) <= 0.5
    ensures Geometry(options).format == Letter ==>
              Geometry(options).widthPx as real == 96.0 * 8.5 && Geometry(options).heightPx as real == 96.0 * 11.0
  {
  }

  /** A bitmap width: html2canvas is always asked for a body at least 794 pixels wide. */
  type Pixels = n: nat | n > 0 witness 1

  /** The bitmap html2canvas produces. */
  datatype Canvas = Canvas(width: Pixels, height: nat)

  /**
   * html2canvas on a body of the given width and minimum height in CSS
   * pixels, holding the given HTML; Err carries the thrown message.
   */
  type Rasterizer = (string, nat, nat) -> Result<Canvas, string>

  datatype PlacedImage = PlacedImage(format: ImageFormat, x: real, y: real, width: real, height: real, source: Canvas)

  datatype JsPdf = JsPdf(orientation: Orientation, unit: Unit, format: PaperFormat, images: seq<PlacedImage>)

  /**
   * The document built from one canvas: a single PNG at the origin, as wide
   * as the geometry says and as tall as the canvas's aspect ratio makes it.
   */
  function SingleImagePdf(g: PageGeometry, orientation: Orientation, canvas: Canvas): (d: JsPdf)
    ensures d.unit == g.unit && d.format == g.format && d.orientation == orientation
    ensures |d.images| == 1
    ensures var img := d.images[0];
            img.format == Png && img.x == 0.0 && img.y == 0.0 && img.source == canvas
            && img.width == g.imageWidth
            && img.height * canvas.width as real == canvas.height as real * img.width
  {
    var imgHeight := (canvas.height as real * g.imageWidth) / canvas.width as real;
    JsPdf(orientation, g.unit, g.format, [PlacedImage(Png, 0.0, 0.0, g.imageWidth, imgHeight, canvas)])
  }

  function OrientationOf(options: Option<HtmlOptions>): Orientation {
    if options.Some? && options.value.orientation == Some(Landscape) then Landscape else Portrait
  }

  /** The page (`document.body`) the rendering frame is attached to. */
  class HostPage {
    var attachedFrames: nat

    constructor ()
      ensures attachedFrames == 0
    {
      attachedFrames := 0;
    }
  }

  const NoBrowser: string := "HTML to PDF conversion must be performed in a browser environment"
  const NoFrame: string := "Failed to create iframe for HTML rendering"
  const ConvertPrefix: string := "Failed to convert HTML: "

  /**
   * What `htmlToPDF` resolves or rejects with. `hasDocument` is false where
   * `typeof document === "undefined"`; `frameReady` says whether the new
   * iframe has a document to write to; html2canvas renders the HTML into a
   * body of the paper's pixel size.
   */
  function HtmlToPdfOutcome(hasDocument: bool, html: string, options: Option<HtmlOptions>, frameReady: bool,
                            rasterize: Rasterizer): (r: Result<JsPdf, string>)
    ensures !hasDocument ==> r == Err(NoBrowser)
    ensures hasDocument && !frameReady ==> r == Err(NoFrame)
    ensures hasDocument && frameReady ==>
              var g := Geometry(options);
              match rasterize(html, g.widthPx, g.heightPx)
              case Err(m) => r == Err(ConvertPrefix + m)
              case Ok(canvas) => r == Ok(SingleImagePdf(g, OrientationOf(options), canvas))
    ensures r.Err? ==> r.error != []
  {
    if !hasDocument then Err(NoBrowser)
    else if !frameReady then Err(NoFrame)
    else
      var g := Geometry(options);
      match rasterize(html, g.widthPx, g.heightPx)
      case Err(m) => Err(ConvertPrefix + m)
      case Ok(canvas) => Ok(SingleImagePdf(g, OrientationOf(options), canvas))
  }

  /**
   * `htmlToPDF`. A null host stands for a missing `document`. The iframe is
   * attached before anything is rendered and detached again on every path
   * out: after the early failure, after success and after an error.
   */
  method HtmlToPdf(host: HostPage?, html: string, options: Option<HtmlOptions>, frameReady: bool,
                   rasterize: Rasterizer)
    returns (r: Result<JsPdf, string>)
    modifies host
    ensures r == HtmlToPdfOutcome(host != null, html, options, frameReady, rasterize)
    ensures host != null ==> host.attachedFrames == old(host.attachedFrames)
  {
    if host == null {
      return Err(NoBrowser);
    }
    host.attachedFrames := host.attachedFrames + 1;
    if !frameReady {
      host.attachedFrames := host.attachedFrames - 1;
      return Err(NoFrame);
    }
    var g := Geometry(options);
    var rendered := rasterize(html, g.widthPx, g.heightPx);
    if rendered.Err? {
      host.attachedFrames := host.attachedFrames - 1;
      return Err(ConvertPrefix + rendered.error);
    }
    var canvas := rendered.value;
    var imgWidth := g.imageWidth;
    var imgHeight := (canvas.height as real * imgWidth) / canvas.width as real;
    var pdf := JsPdf(OrientationOf(options), g.unit, g.format, []);
    if imgHeight <= g.pageHeight {
      pdf := pdf.(images := pdf.images + [PlacedImage(Png, 0.0, 0.0, imgWidth, imgHeight, canvas)]);
    } else {
      // the source's multi-page branch adds the very same single image
      pdf := pdf.(images := pdf.images + [PlacedImage(Png, 0.0, 0.0, imgWidth, imgHeight, canvas)]);
    }
    assert pdf.images == [PlacedImage(Png, 0.0, 0.0, imgWidth, imgHeight, canvas)];
    host.attachedFrames := host.attachedFrames - 1;
    return Ok(pdf);
  }
}
