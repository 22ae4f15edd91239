/**
 * The Watermark view: one PDF, a text and three sliders (font size,
 * opacity, rotation), stamped on every page while a status line reports
 * progress.
 */
module WatermarkView {
  import opened Wrappers
  import opened PdfUtils
  import opened ViewState

  const DefaultText: string := "CONFIDENTIAL"
  const ApplyingMessage: string := "Applying watermark..."
  const SuccessMessage: string := "Watermark added successfully!"
  const ApplyError: string := "Failed to apply watermark."

  /** The positions the sliders allow: font size 20..200, opacity 0..1 in tenths, rotation -90..90 degrees. */
  predicate SliderPositions(fontSize: int, opacityTenths: int, rotation: int) {
    20 <= fontSize <= 200 && 0 <= opacityTenths <= 10 && -90 <= rotation <= 90
  }

  /** The options object the view hands to `addWatermark`. */
  function SliderOptions(fontSize: int, opacityTenths: int, rotation: int): WatermarkOptions {
    WatermarkOptions(Some(fontSize as real), Some(opacityTenths as real / 10.0), Some(rotation as real))
  }

  /**
   * What is drawn for a slider setting: the font size as chosen, but an
   * opacity of 0 drawn at 0.3 and a rotation of 0 drawn at -45 degrees,
   * since the service treats 0 as a missing option.
   */
  lemma AppliedStyle(fontSize: int, opacityTenths: int, rotation: int)
    requires SliderPositions(fontSize, opacityTenths, rotation)
    ensures var s := ResolveOptions(Some(SliderOptions(fontSize, opacityTenths, rotation)));
            s.fontSize == fontSize as real
            && s.opacity == (if opacityTenths == 0 then DefaultOpacity else opacityTenths as real / 10.0)
            && s.rotation == (if rotation == 0 then DefaultRotation else rotation as real)
  {
  }

  /** The initial setting is drawn exactly as shown. */
  lemma InitialSettingIsDrawnAsShown()
    ensures ResolveOptions(Some(SliderOptions(48, 3, -45))) == Style(DefaultFontSize, DefaultOpacity, DefaultRotation)
  {
  }

  class WatermarkView {
    var file: Option<File>
    var text: string
    var fontSize: int
    var opacityTenths: int
    var rotation: int
    var status: Status
    var message: string
    /** Every status the view has been set to, in order. */
    ghost var statusLog: seq<Status>

    /** The sliders stay on their positions, and no run is in progress between handlers. */
    ghost predicate Valid()
      reads this
    {
      SliderPositions(fontSize, opacityTenths, rotation) && status != Processing
    }

    constructor ()
      ensures Valid() && file.None? && text == DefaultText && fontSize == 48 && opacityTenths == 3 && rotation == -45
      ensures status == Idle && message == [] && statusLog == []
    {
      file := None;
      text := DefaultText;
      fontSize := 48;
      opacityTenths := 3;
      rotation := -45;
      status := Idle;
      message := [];
      statusLog := [];
    }

    /** "Apply Watermark" is enabled with some text and no run in progress. */
    predicate ApplyEnabled()
      reads this
    {
      status != Processing && text != []
    }

    /** `handleFileSelected`: the first picked file, and the status back to idle. */
    method HandleFileSelected(files: seq<File>)
      requires Valid()
      modifies this
      ensures Valid() && status == Idle && statusLog == old(statusLog) + [Idle]
      ensures file == if |files| > 0 then Some(files[0]) else None
      ensures text == old(text) && fontSize == old(fontSize) && opacityTenths == old(opacityTenths)
      ensures rotation == old(rotation) && message == old(message)
    {
      file := if |files| > 0 then Some(files[0]) else None;
      status := Idle;
      statusLog := statusLog + [Idle];
    }

    method SetText(value: string)
      requires Valid()
      modifies this
      ensures Valid() && text == value && file == old(file)
      ensures fontSize == old(fontSize) && opacityTenths == old(opacityTenths) && rotation == old(rotation)
      ensures status == old(status) && message == old(message) && statusLog == old(statusLog)
    {
      text := value;
    }

    /** The three sliders, each within its own range. */
    method SetSliders(size: int, tenths: int, angle: int)
      requires Valid() && SliderPositions(size, tenths, angle)
      modifies this
      ensures Valid() && fontSize == size && opacityTenths == tenths && rotation == angle
      ensures file == old(file) && text == old(text)
      ensures status == old(status) && message == old(message) && statusLog == old(statusLog)
    {
      fontSize, opacityTenths, rotation := size, tenths, angle;
    }

    /**
     * `handleApply`: nothing without a file or with empty text. Otherwise
     * the status goes to processing and then to exactly one of success, with
     * every page stamped and downloaded as "watermarked_" + the file's name,
     * or error.
     */
    method HandleApply(load: Loader, font: FontMetrics) returns (download: Option<Download>)
      requires Valid()
      modifies this
      ensures Valid() && file == old(file) && text == old(text)
      ensures fontSize == old(fontSize) && opacityTenths == old(opacityTenths) && rotation == old(rotation)
      ensures file.None? || text == [] ==>
                download.None? && status == old(status) && message == old(message) && statusLog == old(statusLog)
      ensures statusLog == old(statusLog) <==> file.None? || !old(ApplyEnabled())
      ensures file.Some? && text != [] ==>
                (status == Succeeded || status == Failed) && statusLog == old(statusLog) + [Processing, status]
                && match Watermarked(load, file.value, text, Some(SliderOptions(fontSize, opacityTenths, rotation)), font)
                   case Some(d) =>
                     status == Succeeded && message == SuccessMessage
                     && download == Some(DownloadBlob(SavedPdf(d), "watermarked_" + file.value.name))
                   case None => status == Failed && message == ApplyError && download.None?
    {
      if file.None? || text == [] {
        return None;
      }
      status := Processing;
      statusLog := statusLog + [Processing];
      message := ApplyingMessage;
      var bytes := AddWatermark(load, file.value, text, Some(SliderOptions(fontSize, opacityTenths, rotation)), font);
      if bytes.Some? {
        download := Some(DownloadBlob(SavedPdf(bytes.value), "watermarked_" + file.value.name));
        status := Succeeded;
        message := SuccessMessage;
      } else {
        download := None;
        status := Failed;
        message := ApplyError;
      }
      statusLog := statusLog + [status];
    }
  }
}
