/**
 * The Organize view: the pages of one PDF shown as thumbnails in an order the
 * user rearranges and prunes, then saved as a new PDF in that order.
 */
module OrganizeView {
  import opened Wrappers
  import opened PdfUtils
  import opened ListEdit
  import opened ViewState

  /** The order right after loading an n-page file: [0, 1, ..., n - 1]. */
  function Identity(n: nat): (r: seq<nat>)
    ensures |r| == n && forall k :: 0 <= k < n ==> r[k] == k
  {
    seq(n, k => k)
  }

  /** Every entry is a 0-based page index of an n-page file, and no page appears twice. */
  predicate ValidOrder(order: seq<nat>, n: nat) {
    (forall k :: 0 <= k < |order| ==> order[k] < n)
    && (forall j, k :: 0 <= j < k < |order| ==> order[j] != order[k])
  }

  lemma IdentityIsValidOrder(n: nat)
    ensures ValidOrder(Identity(n), n)
  {
  }

  /** Moving a page keeps every entry a distinct valid page index. */
  lemma MovePreservesValidOrder(order: seq<nat>, n: nat, i: nat, d: Direction)
    requires ValidOrder(order, n) && i < |order|
    ensures ValidOrder(Moved(order, i, d), n)
  {
    var r := Moved(order, i, d);
    if d == Earlier && i > 0 {
      MovedEarlier(order, i);
      // position k of r holds the entry from position Source(k) of order
      forall j, k | 0 <= j < k < |r| ensures r[j] != r[k] {
        var sj := if j == i - 1 then i else if j == i then i - 1 else j;
        var sk := if k == i - 1 then i else if k == i then i - 1 else k;
        assert r[j] == order[sj] && r[k] == order[sk] && sj != sk;
      }
    } else if d == Later && i + 1 < |order| {
      MovedLater(order, i);
      forall j, k | 0 <= j < k < |r| ensures r[j] != r[k] {
        var sj := if j == i then i + 1 else if j == i + 1 then i else j;
        var sk := if k == i then i + 1 else if k == i + 1 then i else k;
        assert r[j] == order[sj] && r[k] == order[sk] && sj != sk;
      }
    }
  }

  /** Removing a page keeps every remaining entry a distinct valid page index. */
  lemma RemovePreservesValidOrder(order: seq<nat>, n: nat, i: nat)
    requires ValidOrder(order, n)
    ensures ValidOrder(RemoveAt(order, i), n)
  {
    if i < |order| {
      var r := RemoveAt(order, i);
      RemoveAtShape(order, i);
      forall j, k | 0 <= j < k < |r| ensures r[j] != r[k] {
        var sj := if j < i then j else j + 1;
        var sk := if k < i then k else k + 1;
        assert r[j] == order[sj] && r[k] == order[sk] && sj < sk;
      }
    }
  }

  /** A valid order for the loaded file is always accepted by `organizePDF`, each page taken once. */
  lemma ValidOrderIsAccepted(load: Loader, file: File, order: seq<nat>)
    requires load(file).Some? && ValidOrder(order, |load(file).value.pages|)
    ensures OrganizePdf(load, file, order).Some?
    ensures |OrganizePdf(load, file, order).value.pages| == |order| <= |load(file).value.pages|
  {
    OrderNoLongerThanPageCount(order, |load(file).value.pages|);
  }

  /** Distinct indices below n are at most n in number. */
  lemma {:induction false} OrderNoLongerThanPageCount(order: seq<nat>, n: nat)
    requires ValidOrder(order, n)
    ensures |order| <= n
    decreases n
  {
    if |order| > 0 {
      assert n > 0 by { assert order[0] < n; }
      // without the entry n - 1, if there is one, the rest are distinct indices below n - 1
      var rest := order;
      if k :| 0 <= k < |order| && order[k] == n - 1 {
        rest := RemoveAt(order, k);
        RemovePreservesValidOrder(order, n, k);
        RemoveAtShape(order, k);
        forall m | 0 <= m < |rest| ensures rest[m] < n - 1 {
          var sm := if m < k then m else m + 1;
          assert rest[m] == order[sm] && sm != k;
        }
      }
      assert ValidOrder(rest, n - 1);
      OrderNoLongerThanPageCount(rest, n - 1);
    }
  }

  /** Saving the order just loaded reproduces the file's pages unchanged. */
  lemma IdentityOrderKeepsPages(load: Loader, file: File)
    requires load(file).Some?
    ensures OrganizePdf(load, file, Identity(|load(file).value.pages|)) == Some(Document(load(file).value.pages))
  {
    var pages := load(file).value.pages;
    var r := OrganizePdf(load, file, Identity(|pages|));
    assert r.value.pages == pages;
  }

  /** pdf.js renders page i (1-based) of a file to a data URL; None when it throws. */
  type Renderer = (File, nat) -> Option<string>

  /** The file opens and every one of its pages renders. */
  predicate PreviewRenders(load: Loader, render: Renderer, f: File) {
    load(f).Some? && forall i :: 1 <= i <= |load(f).value.pages| ==> render(f, i).Some?
  }

  const PreviewError: string := "Error loading PDF preview. Make sure the file is not encrypted."
  const SaveError: string := "Error generating PDF."

  class OrganizeView {
    var file: Option<File>
    var pageThumbnails: seq<string>
    var pageOrder: seq<nat>
    var isLoading: bool
    var isProcessing: bool

    /** Between handlers: the order holds distinct thumbnail indices, and no file means nothing shown. */
    ghost predicate Valid()
      reads this
    {
      ValidOrder(pageOrder, |pageThumbnails|)
      && (file.None? ==> pageThumbnails == [] && pageOrder == [])
      && !isLoading && !isProcessing
    }

    constructor ()
      ensures Valid() && file.None?
    {
      file := None;
      pageThumbnails := [];
      pageOrder := [];
      isLoading := false;
      isProcessing := false;
    }

    /**
     * `loadThumbnails`: one thumbnail per page, and the order that shows
     * every page once, as loaded. The state is set only after every page has
     * rendered; on a failure it is left as it was and an alert is shown.
     */
    method LoadThumbnails(pdfFile: File, load: Loader, render: Renderer) returns (alert: Option<string>)
      requires Valid() && file.Some?
      modifies this
      ensures Valid() && file == old(file)
      ensures PreviewRenders(load, render, pdfFile) ==>
                alert.None? && pageOrder == Identity(|load(pdfFile).value.pages|)
                && |pageThumbnails| == |load(pdfFile).value.pages|
                && forall j :: 1 <= j <= |pageThumbnails| ==> pageThumbnails[j - 1] == render(pdfFile, j).value
      ensures !PreviewRenders(load, render, pdfFile) ==>
                alert == Some(PreviewError) && pageOrder == old(pageOrder) && pageThumbnails == old(pageThumbnails)
    {
      isLoading := true;
      var pdf := load(pdfFile);
      if pdf.None? {
        isLoading := false;
        return Some(PreviewError);
      }
      var numPages := |pdf.value.pages|;
      var thumbnails: seq<string> := [];
      var order: seq<nat> := [];
      for i := 1 to numPages + 1
        invariant |thumbnails| == |order| == i - 1
        invariant forall k :: 0 <= k < i - 1 ==> order[k] == k
        invariant forall j :: 1 <= j < i ==> render(pdfFile, j).Some? && thumbnails[j - 1] == render(pdfFile, j).value
      {
        var url := render(pdfFile, i);
        if url.None? {
          isLoading := false;
          return Some(PreviewError);
        }
        thumbnails := thumbnails + [url.value];
        order := order + [i - 1];
      }
      pageThumbnails := thumbnails;
      pageOrder := order;
      isLoading := false;
      return None;
    }

    /**
     * The uploader is shown only while no file is selected; the effect on the
     * new file loads its previews. An empty selection leaves no file, and the
     * effect then clears both lists.
     */
    method SelectFile(files: seq<File>, load: Loader, render: Renderer) returns (alert: Option<string>)
      requires Valid() && file.None?
      modifies this
      ensures Valid()
      ensures |files| == 0 ==> file.None? && alert.None? && pageOrder == [] && pageThumbnails == []
      ensures |files| > 0 ==> file == Some(files[0])
      ensures |files| > 0 && PreviewRenders(load, render, files[0]) ==>
                alert.None? && pageOrder == Identity(|load(files[0]).value.pages|)
                && |pageThumbnails| == |load(files[0]).value.pages|
      ensures |files| > 0 && !PreviewRenders(load, render, files[0]) ==>
                alert == Some(PreviewError) && pageOrder == [] && pageThumbnails == []
    {
      if |files| == 0 {
        file := None;
        pageThumbnails := [];
        pageOrder := [];
        return None;
      }
      file := Some(files[0]);
      alert := LoadThumbnails(files[0], load, render);
    }

    /** "Select New File": the file goes, and with it every thumbnail and the order. */
    method ClearFile()
      modifies this
      ensures Valid() && file.None? && pageThumbnails == [] && pageOrder == []
    {
      file := None;
      pageThumbnails := [];
      pageOrder := [];
      isLoading := false;
      isProcessing := false;
    }

    /** `movePage`: the order with entry `index` moved one place, the page list left valid. */
    method MovePage(index: nat, d: Direction)
      requires Valid() && index < |pageOrder|
      modifies this
      ensures Valid() && pageOrder == Moved(old(pageOrder), index, d)
      ensures multiset(pageOrder) == multiset(old(pageOrder))
      ensures file == old(file) && pageThumbnails == old(pageThumbnails)
    {
      MovePreservesValidOrder(pageOrder, |pageThumbnails|, index, d);
      MovedIsPermutation(pageOrder, index, d);
      var newOrder := MoveInCopy(pageOrder, index, d);
      pageOrder := newOrder;
    }

    /** `removePage`: the order without entry `index`, the page list left valid. */
    method RemovePage(index: nat)
      requires Valid()
      modifies this
      ensures Valid() && pageOrder == RemoveAt(old(pageOrder), index)
      ensures file == old(file) && pageThumbnails == old(pageThumbnails)
    {
      RemovePreservesValidOrder(pageOrder, |pageThumbnails|, index);
      pageOrder := RemoveAt(pageOrder, index);
    }

    /**
     * `handleSave`: the pages in the chosen order, downloaded as
     * "organized_" + the file's name; an alert when the library fails.
     */
    method HandleSave(load: Loader) returns (effect: Effect)
      requires Valid()
      modifies this
      ensures Valid() && file == old(file) && pageOrder == old(pageOrder) && pageThumbnails == old(pageThumbnails)
      ensures file.None? ==> effect == NoEffect
      ensures file.Some? ==>
                match OrganizePdf(load, file.value, pageOrder)
                case Some(d) => effect == Saved(DownloadBlob(SavedPdf(d), "organized_" + file.value.name))
                case None => effect == Alerted(SaveError)
    {
      if file.None? {
        return NoEffect;
      }
      isProcessing := true;
      var organized := OrganizePdf(load, file.value, pageOrder);
      if organized.Some? {
        effect := Saved(DownloadBlob(SavedPdf(organized.value), "organized_" + file.value.name));
      } else {
        effect := Alerted(SaveError);
      }
      isProcessing := false;
    }
  }
}
