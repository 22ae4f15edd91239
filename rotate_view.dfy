/**
 * The Rotate view: one PDF and a clockwise angle the user steps by a quarter
 * turn per click, applied to every page of the download.
 */
module RotateView {
  import opened Wrappers
  import opened PdfUtils
  import opened ViewState

  predicate IsQuarterTurn(r: int) {
    r == 0 || r == 90 || r == 180 || r == 270
  }

  /**
   * One click adds a quarter turn, modulo a full turn. JavaScript's `%`
   * truncates towards zero and Dafny's is Euclidean; they agree here because
   * the angle is never negative.
   */
  function NextRotation(r: nat): (n: nat)
    ensures n < 360 && (n - r - 90) % 360 == 0
  {
    (r + 90) % 360
  }

  /** A click moves round the cycle 0, 90, 180, 270, 0. */
  lemma NextRotationCycle()
    ensures NextRotation(0) == 90 && NextRotation(90) == 180
    ensures NextRotation(180) == 270 && NextRotation(270) == 0
  {
  }

  /** Clicks keep the angle a quarter turn. */
  lemma NextRotationKeepsQuarterTurn(r: nat)
    requires IsQuarterTurn(r)
    ensures IsQuarterTurn(NextRotation(r))
  {
  }

  /** Four clicks bring any angle the view can show back to itself. */
  lemma FourClicksRestore(r: nat)
    requires r < 360
    ensures NextRotation(NextRotation(NextRotation(NextRotation(r)))) == r
  {
  }

  /** Every angle the view can hold is a multiple of 90, so rotating fails only when the file does not load. */
  lemma QuarterTurnsAreAccepted(load: Loader, file: File, r: nat)
    requires IsQuarterTurn(r)
    ensures RotatePdf(load, file, r).Some? <==> load(file).Some?
  {
    assert r % 90 == 0;
  }

  const RotateError: string := "Error rotating PDF. Please try again."

  class RotateView {
    var file: Option<File>
    var rotation: nat
    var isProcessing: bool

    /** The angle is always a quarter turn, and no rotation is running between handlers. */
    ghost predicate Valid()
      reads this
    {
      IsQuarterTurn(rotation) && !isProcessing
    }

    constructor ()
      ensures Valid() && file.None? && rotation == 0
    {
      file := None;
      rotation := 0;
      isProcessing := false;
    }

    method SelectFile(files: seq<File>)
      requires Valid()
      modifies this
      ensures Valid() && rotation == old(rotation)
      ensures file == if |files| > 0 then Some(files[0]) else None
    {
      file := if |files| > 0 then Some(files[0]) else None;
    }

    /** "Change File" drops the file; the chosen angle stays. */
    method ChangeFile()
      requires Valid()
      modifies this
      ensures Valid() && file.None? && rotation == old(rotation)
    {
      file := None;
    }

    /** The rotate button: a quarter turn clockwise. */
    method Click()
      requires Valid()
      modifies this
      ensures Valid() && rotation == NextRotation(old(rotation)) && file == old(file)
    {
      NextRotationKeepsQuarterTurn(rotation);
      rotation := NextRotation(rotation);
    }

    /**
     * `handleRotate`: nothing without a file; otherwise every page set to
     * the chosen angle, downloaded as "rotated_" + the file's name, or an
     * alert when the file does not load.
     */
    method HandleRotate(load: Loader) returns (effect: Effect)
      requires Valid()
      modifies this
      ensures Valid() && file == old(file) && rotation == old(rotation)
      ensures file.None? ==> effect == NoEffect
      ensures file.Some? ==>
                match RotatePdf(load, file.value, rotation)
                case Some(d) => effect == Saved(DownloadBlob(SavedPdf(d), "rotated_" + file.value.name))
                case None => effect == Alerted(RotateError)
      ensures file.Some? ==> (effect.Alerted? <==> load(file.value).None?)
    {
      if file.None? {
        return NoEffect;
      }
      isProcessing := true;
      QuarterTurnsAreAccepted(load, file.value, rotation);
      var rotated := RotatePdf(load, file.value, rotation);
      if rotated.Some? {
        effect := Saved(DownloadBlob(SavedPdf(rotated.value), "rotated_" + file.value.name));
      } else {
        effect := Alerted(RotateError);
      }
      isProcessing := false;
    }
  }
}
