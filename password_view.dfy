/**
 * The password view, in its two modes: protect a PDF with a password, or
 * remove the password from a protected PDF.
 */
module PasswordView {
  import opened Wrappers
  import opened Text
  import opened PdfUtils
  import opened ViewState

  /** 'add' protects, 'remove' unlocks; the mode is fixed for the view's lifetime. */
  datatype PasswordMode = Add | Remove

  function Prefix(mode: PasswordMode): string {
    if mode == Add then "protected_" else "unlocked_"
  }

  /** The name an empty name field falls back to. */
  function FallbackName(mode: PasswordMode): string {
    if mode == Add then "protected" else "unlocked"
  }

  /** The name proposed when a file is picked: the mode's prefix and the name with its first ".pdf" removed. */
  function SuggestedName(mode: PasswordMode, name: string): (r: string)
    ensures mode == Add ==> |r| >= 10 && r[..10] == "protected_"
    ensures mode == Remove ==> |r| >= 9 && r[..9] == "unlocked_"
    ensures !Contains(name, ".pdf") ==> r == Prefix(mode) + name
  {
    Prefix(mode) + ReplaceFirst(name, ".pdf", "")
  }

  /** For a usual "<base>.pdf" name the suggestion is the prefix and the base, and the download puts ".pdf" back. */
  lemma SuggestedNameOfPdfFile(mode: PasswordMode, base: string)
    requires !Contains(base, ".pdf")
    ensures SuggestedName(mode, base + ".pdf") == Prefix(mode) + base
    ensures DownloadName(SuggestedName(mode, base + ".pdf")) == Prefix(mode) + base + ".pdf"
  {
    StripPdfSuffix(base);
    NoPdfSuffixAfterPrefix(Prefix(mode), base);
  }

  /** A name made of a prefix ending in '_' and a base without ".pdf" does not end in ".pdf". */
  lemma NoPdfSuffixAfterPrefix(prefix: string, base: string)
    requires |prefix| >= 1 && prefix[|prefix| - 1] == '_' && !Contains(base, ".pdf")
    ensures !EndsWith(prefix + base, ".pdf")
  {
    var s := prefix + base;
    if |base| >= 4 {
      assert !OccursAt(base, ".pdf", |base| - 4);
      assert s[|s| - 4..] == base[|base| - 4..];
    } else if |s| >= 4 {
      // the prefix's '_' falls inside the last four characters
      var k := |prefix| - 1 - (|s| - 4);
      assert s[|s| - 4..][k] == '_';
    }
  }

  const UnknownError: string := "Unknown error"

  /** Which service a submission called, and with what. */
  datatype PasswordCall = CallLock(file: File, password: string) | CallUnlock(file: File, password: string)

  class PasswordView {
    const mode: PasswordMode
    var file: Option<File>
    var password: string
    var filename: string
    var isProcessing: bool

    constructor (mode: PasswordMode)
      ensures this.mode == mode && file.None? && password == [] && filename == [] && !isProcessing
    {
      this.mode := mode;
      file := None;
      password := [];
      filename := [];
      isProcessing := false;
    }

    /** The submit button is enabled with a password and no submission running. */
    predicate SubmitEnabled()
      reads this
    {
      !isProcessing && password != []
    }

    /** `handleFileSelected`: the first picked file and the name suggested for it in this mode. */
    method HandleFileSelected(files: seq<File>)
      modifies this
      ensures password == old(password) && isProcessing == old(isProcessing)
      ensures |files| == 0 ==> file.None? && filename == old(filename)
      ensures |files| > 0 ==> file == Some(files[0]) && filename == SuggestedName(mode, files[0].name)
    {
      if |files| == 0 {
        // the missing first file is stored, then reading its name throws
        file := None;
        return;
      }
      var f := files[0];
      file := Some(f);
      filename := SuggestedName(mode, f.name);
    }

    method SetPassword(value: string)
      modifies this
      ensures password == value && file == old(file) && filename == old(filename) && isProcessing == old(isProcessing)
    {
      password := value;
    }

    method SetFilename(value: string)
      modifies this
      ensures filename == value && file == old(file) && password == old(password) && isProcessing == old(isProcessing)
    {
      filename := value;
    }

    /** "Change" drops the file; the name and the password stay. */
    method ChangeFile()
      modifies this
      ensures file.None? && filename == old(filename) && password == old(password) && isProcessing == old(isProcessing)
    {
      file := None;
    }

    /**
     * `handleSubmit`: nothing without a file or with an empty password.
     * Otherwise protecting calls only the lock and removing only the unlock;
     * the result is downloaded under the edited name, or "protected" /
     * "unlocked" when it is empty, and a failure is alerted with its message,
     * or "Unknown error" when it has none. The processing flag is clear
     * again on every path.
     */
    method HandleSubmit(reader: FileReaderOf, encrypt: Encryptor, libraryLoaded: bool, loadWithPassword: PasswordLoader)
      returns (call: Option<PasswordCall>, effect: Effect)
      requires !isProcessing
      modifies this
      ensures file == old(file) && password == old(password) && filename == old(filename) && !isProcessing
      ensures file.None? || password == [] ==> call.None? && effect == NoEffect
      ensures call.None? <==> file.None? || !old(SubmitEnabled())
      ensures file.Some? && password != [] && mode == Add ==>
                call == Some(CallLock(file.value, password))
                && match LockPdf(reader, encrypt, file.value, password)
                   case Ok(bytes) => effect == Saved(DownloadBlob(PdfBytes(bytes), OrElse(filename, FallbackName(mode))))
                   case Err(m) => effect == Alerted("Failed: " + OrElse(m, UnknownError))
      ensures file.Some? && password != [] && mode == Remove ==>
                call == Some(CallUnlock(file.value, password))
                && match UnlockPdf(libraryLoaded, reader, loadWithPassword, file.value, password)
                   case Ok(doc) => effect == Saved(DownloadBlob(SavedPdf(doc), OrElse(filename, FallbackName(mode))))
                   case Err(m) => effect == Alerted("Failed: " + OrElse(m, UnknownError))
    {
      if file.None? || password == [] {
        return None, NoEffect;
      }
      isProcessing := true;
      var f := file.value;
      var payload: Result<Payload, string>;
      if mode == Add {
        call := Some(CallLock(f, password));
        var locked := LockPdf(reader, encrypt, f, password);
        payload := if locked.Ok? then Ok(PdfBytes(locked.value)) else Err(locked.error);
      } else {
        call := Some(CallUnlock(f, password));
        var unlocked := UnlockPdf(libraryLoaded, reader, loadWithPassword, f, password);
        payload := if unlocked.Ok? then Ok(SavedPdf(unlocked.value)) else Err(unlocked.error);
      }
      if payload.Ok? {
        effect := Saved(DownloadBlob(payload.value, OrElse(filename, FallbackName(mode))));
      } else {
        effect := Alerted("Failed: " + OrElse(payload.error, UnknownError));
      }
      isProcessing := false;
    }
  }

  /**
   * Every failure of the unlock is one of its own two messages, the read
   * failure's message or the reader's own; only a reader error without a
   * message is alerted as "Unknown error".
   */
  lemma UnlockErrorsAreNamed(libraryLoaded: bool, reader: FileReaderOf, loadWithPassword: PasswordLoader, file: File,
                             password: string)
    ensures var r := UnlockPdf(libraryLoaded, reader, loadWithPassword, file, password);
            r.Err? ==> r.error == LibraryMissing || r.error == WrongPassword || r.error == ReadFailure
                       || reader(file) == ReaderFailed(r.error)
    ensures var r := UnlockPdf(libraryLoaded, reader, loadWithPassword, file, password);
            r.Err? && OrElse(r.error, UnknownError) != r.error ==> reader(file) == ReaderFailed([])
  {
  }
}
