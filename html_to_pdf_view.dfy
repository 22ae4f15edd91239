/**
 * The HTML to PDF view: HTML pasted or read from a file, a paper format and
 * an orientation, converted to a PDF download while a status line reports
 * progress.
 */
module HtmlToPdfView {
  import opened Wrappers
  import opened Text
  import opened PdfUtils
  import opened ViewState

  datatype InputMethod = Paste | FromFile

  const DefaultHtml: string :=
    "<h1>Hello Document</h1>\n<p>This PDF was generated 100% in-browser from raw HTML.</p>\n"
    + "<div style=\"background: #3b82f6; color: white; padding: 20px; border-radius: 10px;\">\n"
    + "  Modern Styling Supported\n</div>"

  const DefaultOutput: string := "converted.pdf"
  const ConvertingMessage: string := "Converting HTML to PDF..."
  const SuccessMessage: string := "Conversion successful!"
  const FallbackError: string := "Failed to convert."

  /**
   * The download's name: the selected file's name with a final ".html" or
   * ".htm", in any case, turned into ".pdf"; "converted.pdf" without a file
   * or when that leaves an empty name.
   */
  function OutputName(htmlFile: Option<File>): (r: string)
    ensures r != []
    ensures htmlFile.None? ==> r == DefaultOutput
    ensures htmlFile.Some? && EndsWithIgnoreCase(htmlFile.value.name, ".html") ==>
              r == htmlFile.value.name[..|htmlFile.value.name| - 5] + ".pdf"
    ensures htmlFile.Some? && !EndsWithIgnoreCase(htmlFile.value.name, ".html")
            && EndsWithIgnoreCase(htmlFile.value.name, ".htm") ==>
              r == htmlFile.value.name[..|htmlFile.value.name| - 4] + ".pdf"
    ensures htmlFile.Some? && !EndsWithIgnoreCase(htmlFile.value.name, ".html")
            && !EndsWithIgnoreCase(htmlFile.value.name, ".htm") && htmlFile.value.name != [] ==>
              r == htmlFile.value.name
  {
    match htmlFile
    case None => DefaultOutput
    case Some(f) => OrElse(ReplaceHtmlExtension(f.name), DefaultOutput)
  }

  /** An HTML file's download keeps its ".pdf" name: `downloadBlob` adds nothing more. */
  lemma OutputNameOfHtmlFile(f: File)
    requires EndsWithIgnoreCase(f.name, ".html") || EndsWithIgnoreCase(f.name, ".htm")
    ensures EndsWith(OutputName(Some(f)), ".pdf") && DownloadName(OutputName(Some(f))) == OutputName(Some(f))
  {
  }

  /** The paste guard is the trimmed-content test: whitespace-only content stops the conversion. */
  predicate Guarded(inputMethod: InputMethod, htmlContent: string, htmlFile: Option<File>) {
    (inputMethod == Paste && Trim(htmlContent) == []) || (inputMethod == FromFile && htmlFile.None?)
  }

  lemma GuardedIffBlankOrNoFile(inputMethod: InputMethod, htmlContent: string, htmlFile: Option<File>)
    ensures Guarded(inputMethod, htmlContent, htmlFile) <==>
              (inputMethod == Paste && IsBlank(htmlContent)) || (inputMethod == FromFile && htmlFile.None?)
  {
    TrimEmptyIffBlank(htmlContent);
  }

  class HtmlToPdfView {
    var htmlContent: string
    var htmlFile: Option<File>
    var inputMethod: InputMethod
    var format: PaperFormat
    var orientation: Orientation
    var status: Status
    var message: string
    /** Every status the view has been set to, in order. */
    ghost var statusLog: seq<Status>

    constructor ()
      ensures htmlContent == DefaultHtml && htmlFile.None? && inputMethod == Paste
      ensures format == A4 && orientation == Portrait && status == Idle && message == [] && statusLog == []
    {
      htmlContent := DefaultHtml;
      htmlFile := None;
      inputMethod := Paste;
      format := A4;
      orientation := Portrait;
      status := Idle;
      message := [];
      statusLog := [];
    }

    /**
     * `handleFileSelected`: the first file becomes the HTML file and its
     * text, as the reader delivers it, the HTML content; the status goes back
     * to idle. An empty selection changes nothing.
     */
    method HandleFileSelected(files: seq<File>, text: string)
      modifies this
      ensures |files| == 0 ==>
                htmlFile == old(htmlFile) && htmlContent == old(htmlContent)
                && status == old(status) && statusLog == old(statusLog)
      ensures |files| > 0 ==>
                htmlFile == Some(files[0]) && htmlContent == text
                && status == Idle && statusLog == old(statusLog) + [Idle]
      ensures inputMethod == old(inputMethod) && format == old(format) && orientation == old(orientation)
      ensures message == old(message)
    {
      if |files| > 0 {
        htmlFile := Some(files[0]);
        htmlContent := text;
        status := Idle;
        statusLog := statusLog + [Idle];
      }
    }

    method SetInputMethod(m: InputMethod)
      modifies this
      ensures inputMethod == m && htmlContent == old(htmlContent) && htmlFile == old(htmlFile)
      ensures format == old(format) && orientation == old(orientation)
      ensures status == old(status) && message == old(message) && statusLog == old(statusLog)
    {
      inputMethod := m;
    }

    method SetOptions(f: PaperFormat, o: Orientation)
      modifies this
      ensures format == f && orientation == o && inputMethod == old(inputMethod)
      ensures htmlContent == old(htmlContent) && htmlFile == old(htmlFile)
      ensures status == old(status) && message == old(message) && statusLog == old(statusLog)
    {
      format := f;
      orientation := o;
    }

    /**
     * `handleConvert`: nothing happens when the paste box holds only
     * whitespace in paste mode, or when no file is selected in file mode.
     * Otherwise the status goes to processing and then to exactly one of
     * success, with the PDF downloaded, or error, with the conversion's own
     * message. The rendering frame is gone again afterwards.
     */
    method HandleConvert(host: HostPage?, frameReady: bool, rasterize: Rasterizer) returns (download: Option<Download>)
      modifies this, host
      ensures htmlContent == old(htmlContent) && htmlFile == old(htmlFile) && inputMethod == old(inputMethod)
      ensures format == old(format) && orientation == old(orientation)
      ensures host != null ==> host.attachedFrames == old(host.attachedFrames)
      ensures Guarded(inputMethod, htmlContent, htmlFile) ==>
                download.None? && status == old(status) && message == old(message) && statusLog == old(statusLog)
      ensures !Guarded(inputMethod, htmlContent, htmlFile) ==>
                (status == Succeeded || status == Failed) && statusLog == old(statusLog) + [Processing, status]
      ensures !Guarded(inputMethod, htmlContent, htmlFile) ==>
                var outcome := HtmlToPdfOutcome(host != null, htmlContent, Some(HtmlOptions(Some(format), Some(orientation))),
                                                frameReady, rasterize);
                (outcome.Ok? ==>
                   status == Succeeded && message == SuccessMessage
                   && download == Some(DownloadBlob(JsPdfOutput(outcome.value), OutputName(htmlFile))))
                && (outcome.Err? ==> status == Failed && message == outcome.error && download.None?)
    {
      if Guarded(inputMethod, htmlContent, htmlFile) {
        return None;
      }
      status := Processing;
      statusLog := statusLog + [Processing];
      message := ConvertingMessage;
      var content := OrElse(htmlContent, "");
      var pdfBytes := HtmlToPdf(host, content, Some(HtmlOptions(Some(format), Some(orientation))), frameReady, rasterize);
      if pdfBytes.Ok? {
        var filename := OutputName(htmlFile);
        download := Some(DownloadBlob(JsPdfOutput(pdfBytes.value), filename));
        status := Succeeded;
        message := SuccessMessage;
      } else {
        download := None;
        status := Failed;
        message := OrElse(pdfBytes.error, FallbackError);
      }
      statusLog := statusLog + [status];
    }
  }
}
