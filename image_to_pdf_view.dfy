/**
 * The Image to PDF view: a list of images the user extends and prunes,
 * converted into one PDF with a page per image.
 */
module ImageToPdfView {
  import opened Wrappers
  import opened PdfUtils
  import opened ListEdit
  import opened ViewState

  const DefaultName: string := "images_converted"
  const ConvertError: string := "Failed to convert images."

  class ImageToPdfView {
    var images: seq<File>
    var filename: string
    var isProcessing: bool

    constructor ()
      ensures images == [] && filename == DefaultName && !isProcessing
    {
      images := [];
      filename := DefaultName;
      isProcessing := false;
    }

    /** "Generate PDF" is enabled with at least one image and no conversion running. */
    predicate ConvertEnabled()
      reads this
    {
      |images| > 0 && !isProcessing
    }

    /** Newly picked images go after the ones already listed, in the order picked. */
    method AddImages(newFiles: seq<File>)
      modifies this
      ensures images == old(images) + newFiles
      ensures images[..|old(images)|] == old(images) && images[|old(images)|..] == newFiles
      ensures filename == old(filename) && isProcessing == old(isProcessing)
    {
      images := images + newFiles;
    }

    /** The delete button of image `index`: every other image stays, in order. */
    method RemoveImage(index: nat)
      modifies this
      ensures images == RemoveAt(old(images), index)
      ensures filename == old(filename) && isProcessing == old(isProcessing)
    {
      images := RemoveAt(images, index);
    }

    method SetFilename(name: string)
      modifies this
      ensures filename == name && images == old(images) && isProcessing == old(isProcessing)
    {
      filename := name;
    }

    /**
     * `handleConvert`: nothing happens without images, exactly when the
     * button is disabled. Otherwise one page per image is downloaded under
     * the edited name, or "images_converted" when it is empty; an alert when
     * an image cannot be embedded.
     */
    method HandleConvert(decode: ImageDecoder) returns (effect: Effect)
      requires !isProcessing
      modifies this
      ensures images == old(images) && filename == old(filename) && !isProcessing
      ensures effect == NoEffect <==> !old(ConvertEnabled())
      ensures |images| > 0 ==>
                match ImagesDocument(decode, images)
                case Some(d) => effect == Saved(DownloadBlob(SavedPdf(d), OrElse(filename, DefaultName)))
                case None => effect == Alerted(ConvertError)
    {
      if |images| == 0 {
        return NoEffect;
      }
      isProcessing := true;
      var converted := ImagesToPdf(decode, images);
      if converted.Some? {
        effect := Saved(DownloadBlob(SavedPdf(converted.value), OrElse(filename, DefaultName)));
      } else {
        effect := Alerted(ConvertError);
      }
      isProcessing := false;
    }
  }
}
