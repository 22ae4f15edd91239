/**
 * The Merge view: a list of PDF files the user extends, reorders and prunes,
 * merged into one download under a name the user may edit.
 */
module MergeView {
  import opened Wrappers
  import opened PdfUtils
  import opened ListEdit
  import opened ViewState
  import opened Text

  const DefaultName: string := "merged_document"
  const MergeError: string := "Failed to merge PDFs."

  class MergeView {
    var files: seq<File>
    var filename: string
    var isProcessing: bool

    constructor ()
      ensures files == [] && filename == DefaultName && !isProcessing
    {
      files := [];
      filename := DefaultName;
      isProcessing := false;
    }

    /** "Merge and Download" is enabled with at least two files and no merge running. */
    predicate MergeEnabled()
      reads this
    {
      |files| >= 2 && !isProcessing
    }

    /** Files picked in the uploader go after the ones already listed, in the order picked. */
    method AddFiles(newFiles: seq<File>)
      modifies this
      ensures files == old(files) + newFiles
      ensures files[..|old(files)|] == old(files) && files[|old(files)|..] == newFiles
      ensures filename == old(filename) && isProcessing == old(isProcessing)
    {
      files := files + newFiles;
    }

    /** `moveFile`: 'up' is towards the front, 'down' towards the back. */
    method MoveFile(index: nat, d: Direction)
      requires index < |files|
      modifies this
      ensures files == Moved(old(files), index, d)
      ensures |files| == |old(files)| && multiset(files) == multiset(old(files))
      ensures filename == old(filename) && isProcessing == old(isProcessing)
    {
      MovedIsPermutation(files, index, d);
      var newFiles := MoveInCopy(files, index, d);
      files := newFiles;
    }

    /** `removeFile`: the list without entry `index`. */
    method RemoveFile(index: nat)
      modifies this
      ensures files == RemoveAt(old(files), index)
      ensures filename == old(filename) && isProcessing == old(isProcessing)
    {
      files := RemoveAt(files, index);
    }

    method SetFilename(name: string)
      modifies this
      ensures filename == name && files == old(files) && isProcessing == old(isProcessing)
    {
      filename := name;
    }

    /**
     * `handleMerge`: nothing happens with fewer than two files, exactly when
     * the button is disabled. Otherwise every file's pages, file after file,
     * are downloaded under the edited name, or "merged_document" when it is
     * empty; an alert when a file does not load.
     */
    method HandleMerge(load: Loader) returns (effect: Effect)
      requires !isProcessing
      modifies this
      ensures files == old(files) && filename == old(filename) && !isProcessing
      ensures effect == NoEffect <==> !old(MergeEnabled())
      ensures |files| >= 2 ==>
                match LoadAll(load, files)
                case Some(docs) =>
                  effect == Saved(DownloadBlob(SavedPdf(Document(AllPages(docs))), OrElse(filename, DefaultName)))
                case None => effect == Alerted(MergeError)
    {
      if |files| < 2 {
        return NoEffect;
      }
      isProcessing := true;
      var merged := MergePdfs(load, files);
      if merged.Some? {
        effect := Saved(DownloadBlob(SavedPdf(merged.value), OrElse(filename, DefaultName)));
      } else {
        effect := Alerted(MergeError);
      }
      isProcessing := false;
    }
  }

  /** The name of a merged download: the edited name with ".pdf" added, or "merged_document.pdf" when it is empty. */
  lemma MergedFileName(filename: string)
    ensures filename == [] ==> DownloadName(OrElse(filename, DefaultName)) == "merged_document.pdf"
    ensures filename != [] ==> DownloadName(OrElse(filename, DefaultName)) == DownloadName(filename)
  {
    assert !EndsWith(DefaultName, ".pdf") by {
      assert DefaultName[|DefaultName| - 4..] != ".pdf";
    }
  }
}
