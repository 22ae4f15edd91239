/**
 * The Compress view: one PDF, a mode (lossless re-save or strong
 * re-rendering at a chosen quality), the estimate shown for the chosen
 * quality, and the download with the sizes before and after.
 */
module CompressView {
  import opened Wrappers
  import opened Text
  import opened PdfUtils
  import opened ViewState

  datatype Mode = Lossless | Strong

  /** The band the quality slider is in, shown with its own text, colour and description. */
  datatype Label = UltraLow | HighCompression | Optimal | HighClarity {
    function Text(): string {
      match this
      case UltraLow => "Ultra Low"
      case HighCompression => "High Compression"
      case Optimal => "Optimal"
      case HighClarity => "High Clarity"
    }

    function Color(): string {
      match this
      case UltraLow => "text-red-600"
      case HighCompression => "text-orange-500"
      case Optimal => "text-blue-500"
      case HighClarity => "text-emerald-500"
    }

    function Description(): string {
      match this
      case UltraLow => "Aggressive reduction. Expect blurry images."
      case HighCompression => "Significant size savings."
      case Optimal => "Balanced quality and size."
      case HighClarity => "Minimal loss, structural clean only."
    }

    /** Position of the band from lowest to highest quality. */
    function Rank(): nat {
      match this
      case UltraLow => 0
      case HighCompression => 1
      case Optimal => 2
      case HighClarity => 3
    }
  }

  /** `getQualityLabel`: every quality falls in exactly one band. */
  function QualityLabel(quality: int): (l: Label)
    ensures l == UltraLow <==> quality < 15
    ensures l == HighCompression <==> 15 <= quality < 40
    ensures l == Optimal <==> 40 <= quality < 75
    ensures l == HighClarity <==> 75 <= quality
  {
    if quality < 15 then UltraLow
    else if quality < 40 then HighCompression
    else if quality < 75 then Optimal
    else HighClarity
  }

  /** A higher quality never shows a lower band. */
  lemma QualityLabelMonotone(q1: int, q2: int)
    requires q1 <= q2
    ensures QualityLabel(q1).Rank() <= QualityLabel(q2).Rank()
  {
  }

  /**
   * The reduction `getEstimatedSize` assumes, in percent, chosen by
   * comparing `quality / 100` with 0.1, 0.3 and 0.6. Both sides are exact
   * here; for an integer quality the comparisons are the integer thresholds
   * 10, 30 and 60.
   */
  function ReductionPercent(quality: int): (r: nat)
    ensures quality < 10 ==> r == 85
    ensures 10 <= quality < 30 ==> r == 70
    ensures 30 <= quality < 60 ==> r == 45
    ensures 60 <= quality ==> r == 15
  {
    var scale := quality as real / 100.0;
    if scale < 0.1 then 85
    else if scale < 0.3 then 70
    else if scale < 0.6 then 45
    else 15
  }

  /** `Math.round(x)` for x = n / 100 with n >= 0: the nearest integer, halves rounded up. */
  function RoundHundredths(n: nat): (r: nat)
    ensures 100 * r <= n + 50 < 100 * r + 100
  {
    (n + 50) / 100
  }

  /** `getEstimatedSize`: 0 with no file, otherwise the kept share of the size, never below 1 KiB. */
  function EstimatedSize(file: Option<File>, quality: int): (r: nat)
    ensures file.None? ==> r == 0
    ensures file.Some? ==> r >= 1024
    ensures file.Some? && r > 1024 ==>
              100 * r <= file.value.size * (100 - ReductionPercent(quality)) + 50
    ensures file.Some? ==> file.value.size * (100 - ReductionPercent(quality)) + 50 < 100 * r + 100
  {
    match file
    case None => 0
    case Some(f) =>
      var kept := RoundHundredths(f.size * (100 - ReductionPercent(quality)));
      if kept < 1024 then 1024 else kept
  }

  /** For a fixed file, a higher quality never lowers the estimate. */
  lemma EstimatedSizeMonotone(file: Option<File>, q1: int, q2: int)
    requires q1 <= q2
    ensures EstimatedSize(file, q1) <= EstimatedSize(file, q2)
  {
    if file.Some? {
      var size := file.value.size;
      var keep1 := 100 - ReductionPercent(q1);
      var keep2 := 100 - ReductionPercent(q2);
      assert keep1 <= keep2;
      MultiplyMonotone(size, keep1, keep2);
      assert RoundHundredths(size * keep1) <= RoundHundredths(size * keep2);
    }
  }

  lemma MultiplyMonotone(a: nat, b: nat, c: nat)
    requires b <= c
    ensures a * b <= a * c
  {
  }

  /** For a file of at least 1 KiB the estimate never exceeds the file's own size. */
  lemma EstimatedSizeAtMostOriginal(file: File, quality: int)
    requires file.size >= 1024
    ensures EstimatedSize(Some(file), quality) <= file.size
  {
    var keep := 100 - ReductionPercent(quality);
    MultiplyMonotone(file.size, keep, 85);
  }

  /** The JPEG quality of the strong mode: the slider value as a fraction of 100, but never below 0.05. */
  function QualityFactor(quality: int): (f: real)
    ensures f >= 0.05 && f >= quality as real / 100.0
    ensures f == 0.05 || f == quality as real / 100.0
  {
    var scaled := quality as real / 100.0;
    if scaled < 0.05 then 0.05 else scaled
  }

  /** On the slider's range 1..100 the factor lies in [0.05, 1]; from 5 up it is exactly quality / 100. */
  lemma QualityFactorRange(quality: int)
    requires 1 <= quality <= 100
    ensures 0.05 <= QualityFactor(quality) <= 1.0
    ensures quality >= 5 ==> QualityFactor(quality) == quality as real / 100.0
    ensures quality < 5 ==> QualityFactor(quality) == 0.05
  {
  }

  /** The name proposed when a file is picked: "compressed_" and the name with its first ".pdf" removed. */
  function SuggestedName(name: string): (r: string)
    ensures |r| >= 11 && r[..11] == "compressed_"
    ensures !Contains(name, ".pdf") ==> r == "compressed_" + name
  {
    "compressed_" + ReplaceFirst(name, ".pdf", "")
  }

  /** For a usual "<base>.pdf" name, the suggestion is "compressed_<base>". */
  lemma SuggestedNameOfPdfFile(base: string)
    requires !Contains(base, ".pdf")
    ensures SuggestedName(base + ".pdf") == "compressed_" + base
  {
    StripPdfSuffix(base);
  }

  const DefaultName: string := "compressed_document"
  const CompressError: string :=
    "Compression failed. Some PDFs with strict security or complex formats may not allow re-encoding."

  /** Which service a compression called, and with what. */
  datatype CompressCall = CallLossless(file: File) | CallStrong(file: File, qualityFactor: real)

  /** The sizes shown after a compression. */
  datatype SizeReport = SizeReport(original: nat, compressed: nat)

  /** The size in bytes of the saved document, as the library serialises it. */
  type SavedSize = Document -> nat

  class CompressView {
    var file: Option<File>
    var filename: string
    var quality: int
    var isProcessing: bool
    var result: Option<SizeReport>
    var mode: Mode

    /** The slider keeps the quality in 1..100, and no compression is running between handlers. */
    ghost predicate Valid()
      reads this
    {
      1 <= quality <= 100 && !isProcessing
    }

    constructor ()
      ensures Valid() && file.None? && filename == "" && quality == 50 && result.None? && mode == Lossless
    {
      file := None;
      filename := "";
      quality := 50;
      isProcessing := false;
      result := None;
      mode := Lossless;
    }

    /** `handleFileSelected`: the first picked file, and the name suggested for it. */
    method HandleFileSelected(files: seq<File>)
      requires Valid()
      modifies this
      ensures Valid() && quality == old(quality) && mode == old(mode) && result == old(result)
      ensures |files| == 0 ==> file.None? && filename == old(filename)
      ensures |files| > 0 ==> file == Some(files[0]) && filename == SuggestedName(files[0].name)
    {
      if |files| == 0 {
        // the missing first file is stored, then reading its name throws
        file := None;
        return;
      }
      var f := files[0];
      file := Some(f);
      filename := SuggestedName(f.name);
    }

    /** The range input: `parseInt` of a value between its min 1 and max 100. */
    method SetQuality(value: int)
      requires Valid() && 1 <= value <= 100
      modifies this
      ensures Valid() && quality == value
      ensures file == old(file) && filename == old(filename) && mode == old(mode) && result == old(result)
    {
      quality := value;
    }

    method SetMode(m: Mode)
      requires Valid()
      modifies this
      ensures Valid() && mode == m
      ensures file == old(file) && filename == old(filename) && quality == old(quality) && result == old(result)
    {
      mode := m;
    }

    method SetFilename(name: string)
      requires Valid()
      modifies this
      ensures Valid() && filename == name
      ensures file == old(file) && quality == old(quality) && mode == old(mode) && result == old(result)
    {
      filename := name;
    }

    /** "Change": the file and the last result are dropped. */
    method Change()
      requires Valid()
      modifies this
      ensures Valid() && file.None? && result.None?
      ensures filename == old(filename) && quality == old(quality) && mode == old(mode)
    {
      file := None;
      result := None;
    }

    /**
     * `handleCompress`: nothing without a file. Otherwise the lossless mode
     * calls only the lossless re-save and the strong mode only the
     * re-rendering, at the clamped quality factor; on success the sizes are
     * reported and the result downloaded under the edited name, or
     * "compressed_document" when it is empty; on failure the report is
     * cleared and an alert shown.
     */
    method HandleCompress(load: Loader, viewport: ViewportOf, encode: JpegEncoder, savedSize: SavedSize)
      returns (call: Option<CompressCall>, effect: Effect)
      requires Valid()
      modifies this
      ensures Valid() && file == old(file) && filename == old(filename) && quality == old(quality) && mode == old(mode)
      ensures file.None? ==> call.None? && effect == NoEffect && result == old(result)
      ensures file.Some? && mode == Lossless ==> call == Some(CallLossless(file.value))
      ensures file.Some? && mode == Strong ==> call == Some(CallStrong(file.value, QualityFactor(quality)))
      ensures file.Some? ==>
                var out := if mode == Lossless then CompressPdfLossless(load, file.value)
                           else Rasterized(load, viewport, encode, file.value, QualityFactor(quality));
                match out
                case Some(d) =>
                  effect == Saved(DownloadBlob(SavedPdf(d), OrElse(filename, DefaultName)))
                  && result == Some(SizeReport(file.value.size, savedSize(d)))
                case None => effect == Alerted(CompressError) && result.None?
    {
      if file.None? {
        return None, NoEffect;
      }
      var f := file.value;
      isProcessing := true;
      result := None;
      var blob: Option<Document>;
      if mode == Lossless {
        call := Some(CallLossless(f));
        blob := CompressPdfLossless(load, f);
      } else {
        var qualityFactor := QualityFactor(quality);
        call := Some(CallStrong(f, qualityFactor));
        blob := CompressPdf(load, viewport, encode, f, qualityFactor);
      }
      if blob.Some? {
        result := Some(SizeReport(f.size, savedSize(blob.value)));
        effect := Saved(DownloadBlob(SavedPdf(blob.value), OrElse(filename, DefaultName)));
      } else {
        effect := Alerted(CompressError);
      }
      isProcessing := false;
    }
  }
}
