/**
 * What the views have in common: the status a view shows while and after it
 * works, and what a handler leaves behind in the browser once it finishes.
 */
module ViewState {
  import opened PdfUtils

  /** 'idle' | 'processing' | 'success' | 'error' */
  datatype Status = Idle | Processing | Succeeded | Failed

  /** A handler either does nothing visible, starts a download, or shows an alert. */
  datatype Effect = NoEffect | Saved(download: Download) | Alerted(message: string)

  /** JavaScript `s || fallback` on strings: the empty string is replaced by the fallback. */
  function OrElse(s: string, fallback: string): (r: string)
    ensures s != [] ==> r == s
    ensures s == [] ==> r == fallback
    ensures fallback != [] ==> r != []
  {
    if s == [] then fallback else s
  }
}
