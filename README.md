# localPDFFUN in Dafny

localPDFFUN is a browser application for everyday PDF work: merge, split,
organise, rotate, compress, watermark, protect and unlock PDFs, and turn
images or HTML into PDFs. Every byte of PDF work is done by libraries
(pdf-lib, pdf.js, jsPDF, html2canvas and an RC4 encryption routine). This
project models the part the application decides for itself, and proves
properties of it:

- the document services in `services/pdfUtils.ts`: which library call is made
  with which arguments, the order in which pages are produced, page sizes,
  output file names, option defaults, the paper-format table, error messages,
  and the removal of the HTML rendering frame on every exit path;
- the views, each modelled as a class whose fields are the view's React state
  and whose methods are its handlers: the page order of the Organize view, the
  file and image lists of the Merge and Image to PDF views, the quality bands,
  estimate and mode dispatch of the Compress view, the rotation cycle, and the
  guards and status transitions of the HTML to PDF, Password and Watermark
  views.

Library calls are function-typed parameters: a `Loader` is `PDFDocument.load`
on a file's bytes (None when it throws), an `ImageDecoder` is
`embedPng`/`embedJpg`, a `JpegEncoder` is the render, JPEG export, fetch and
`embedJpg` of one page in `compressPDF`, a `FileReaderOf` is how the browser's
FileReader finishes on a file, a `FontMetrics` is the embedded Helvetica Bold
(which texts its WinAnsi encoding accepts, and their measures), a `Rasterizer`
is html2canvas, an `Encryptor` is the encryption routine. A saved document is represented by the `Document` value
it was saved from. What a handler leaves behind in the browser is an `Effect`:
nothing, a download (file name and payload), or an alert.

Files: `wrappers.dfy` (Option, Result), `text.dfy` (the JavaScript string
operations the code relies on: `endsWith`, `replace` with a string pattern,
`includes`, `${n}`, `trim`, the regex `/\.html?$/i`), `pdf_utils.dfy` (the
services), `list_edit.dfy` (move one place, remove at an index),
`view_state.dfy` (status, effects, `s || fallback`) and one file per view.

Each loop-based service is a method proved equal to a specification function
(`ImagesToPdf` to `ImagesDocument`, `AddWatermark` to `Watermarked`,
`CompressPdf` to `Rasterized`, `HtmlToPdf` to `HtmlToPdfOutcome`, `MergePdfs`
to `AllPages` of `LoadAll`). The views' contracts are stated in terms of these
functions.

## Model

| member | source | states |
|---|---|---|
| Text.ReplaceFirst | services/pdfUtils.ts:147 | `replace` with a string pattern: without an occurrence the string is unchanged; otherwise only the first (leftmost) occurrence is replaced |
| Text.ReplaceFirstAbsent | views/PasswordView.tsx:20 | a name without ".pdf" is left unchanged by the replacement |
| Text.StripPdfSuffix | views/CompressView.tsx:17 | for `base + ".pdf"` with no ".pdf" in `base`, removing the first ".pdf" gives back exactly `base` |
| Text.Decimal | services/pdfUtils.ts:147 | the page number is written as one or more decimal digits, with no leading zero ("0" only for 0) |
| Text.DecimalRoundTrip | services/pdfUtils.ts:147 | reading the digits back gives the number |
| Text.DecimalInjective | services/pdfUtils.ts:147 | different page numbers are written differently |
| Text.TrimEmptyIffBlank | views/HtmlToPdfView.tsx:31 | `trim()` is empty exactly when every character is ECMAScript whitespace or a line terminator |
| Text.ReplaceHtmlExtension | views/HtmlToPdfView.tsx:44 | a final ".html" or else ".htm", in any letter case, becomes ".pdf"; any other name is unchanged |
| PdfUtils.DownloadName | services/pdfUtils.ts:119 | the saved name ends in ".pdf" and starts with the given name; it equals the name iff the name already ends in ".pdf", and is 4 longer otherwise |
| PdfUtils.DownloadNameIdempotent | services/pdfUtils.ts:119 | applying the rule twice is applying it once |
| PdfUtils.SplitPartName | services/pdfUtils.ts:147 | every part name ends in ".pdf" |
| PdfUtils.SplitPartDownloadName | services/pdfUtils.ts:147 | downloading a part keeps its name unchanged |
| PdfUtils.SplitPartNameOfPdfFile | services/pdfUtils.ts:147 | for "<base>.pdf" the part i is named "<base>_page_<i+1>.pdf" |
| PdfUtils.SplitPartNamesDistinct | services/pdfUtils.ts:141-149 | two different parts of one split never share a name |
| PdfUtils.SplitPart | services/pdfUtils.ts:142-148 | part i holds page i alone under a name ending in ".pdf" |
| PdfUtils.SplitPdf | services/pdfUtils.ts:136-152 | a loaded file gives exactly one part per page, in page order, part i holding only page i under its part name; a file that does not load gives no parts |
| PdfUtils.LoadAll | services/pdfUtils.ts:128-129 | every file is loaded in order; the whole fails iff some file fails |
| PdfUtils.AllPagesInOrder | services/pdfUtils.ts:128-132 | page p of file k appears right after the pages of the files before k |
| PdfUtils.MergePdfs | services/pdfUtils.ts:126-134 | the merge succeeds iff every file loads, and then holds every file's pages, file after file |
| PdfUtils.OrganizePdf | services/pdfUtils.ts:168-174 | the result succeeds iff the file loads and every index is a page of it; position k holds page `order[k]` |
| PdfUtils.RotatePages | services/pdfUtils.ts:164 | every page gets the angle as its rotation; size and content are kept |
| PdfUtils.RotateLastWins | services/pdfUtils.ts:164 | the angle replaces the previous rotation: rotating by a then b is rotating by b |
| PdfUtils.RotatePdf | services/pdfUtils.ts:162-166 | one rotated page per page of the loaded file, in order; failure iff the file does not load, or it has a page and the angle is not a multiple of 90 (pdf-lib's `setRotation` rejects those) |
| PdfUtils.EmbedFormat | services/pdfUtils.ts:181-185 | PNG embedding iff the MIME type contains "png", JPEG otherwise |
| PdfUtils.ImagePage | services/pdfUtils.ts:187-188 | the page is the image's size and the image covers it exactly from the origin |
| PdfUtils.ImagesDocument | services/pdfUtils.ts:176-191 | one page per image, in input order, each sized to and filled by its image in the chosen format; failure iff some image cannot be embedded |
| PdfUtils.ImagesToPdf | services/pdfUtils.ts:176-191 | the loop builds exactly `ImagesDocument` |
| PdfUtils.OrDefault | services/pdfUtils.ts:207-209 | `value || fallback`: an absent option and 0 both give the fallback |
| PdfUtils.ResolveOptions | services/pdfUtils.ts:207-209 | the style is 48 / 0.3 / -45 for each option that is absent or 0, the given value otherwise; no resolved value is 0 |
| PdfUtils.ResolveOptionsIdempotent | services/pdfUtils.ts:207-209 | resolving a resolved style changes nothing |
| PdfUtils.CentredOrigin | services/pdfUtils.ts:216-218 | the text box's centre is the page's centre; the margins on opposite sides are equal |
| PdfUtils.Stamped | services/pdfUtils.ts:211-224 | the page keeps size, rotation and content and gains one text mark in the style, centred |
| PdfUtils.Watermarked | services/pdfUtils.ts:193-228 | every page of the loaded file, in order, keeps what it had and gains the text in the resolved style, centred by the font's measured width and height (equal margins on opposite sides); failure iff the file does not load, or it has a page and the standard font cannot encode the text |
| PdfUtils.AddWatermark | services/pdfUtils.ts:193-228 | the loop, which fails at the first page when the font cannot encode the text, builds exactly `Watermarked` |
| PdfUtils.CanvasOf | services/pdfUtils.ts:238-241 | the canvas is the viewport truncated to whole pixels: within one pixel below it on each side |
| PdfUtils.RasterPage | services/pdfUtils.ts:237-250 | the new page is the viewport size truncated to whole pixels and is filled by one JPEG |
| PdfUtils.Rasterized | services/pdfUtils.ts:230-254 | one JPEG page per page of the loaded file, in order, within a pixel of the page's viewport; failure iff the file does not load or some page fails to render, export, fetch or embed at the quality |
| PdfUtils.CompressPdf | services/pdfUtils.ts:230-254 | the loop over pages 1..n, stopping at the first page that fails, builds exactly `Rasterized` |
| PdfUtils.CompressPdfLossless | services/pdfUtils.ts:256-261 | the re-saved document has exactly the file's pages |
| PdfUtils.ReadFileAsArrayBuffer | services/pdfUtils.ts:10-23 | the bytes iff the reader yields an ArrayBuffer; any other result fails with "Failed to read file"; a reader error fails with its own message |
| PdfUtils.LockPdf | services/pdfUtils.ts:27-72 | a failed read is passed on with its message; otherwise the encryptor is called on the bytes read with the password as both passwords, its error is passed on with its message, an empty output fails with "Encryption returned empty result.", and success holds iff the output is non-empty |
| PdfUtils.UnlockPdf | services/pdfUtils.ts:74-110 | without the library: "PDF library not loaded."; a failed read: its own message; any load failure of the bytes read: "Incorrect password. Please try again."; otherwise every page copied in order |
| PdfUtils.Geometry | services/pdfUtils.ts:295-363 | letter: 816 x 1056 px, width 8.5, page height 11, inches; anything else: 794 x 1123 px, width 210, page height 297, millimetres |
| PdfUtils.GeometryIs96Dpi | services/pdfUtils.ts:295-298 | the pixel sizes are the paper at 96 pixels per inch, exact for letter and within half a pixel for A4 |
| PdfUtils.SingleImagePdf | services/pdfUtils.ts:352-382 | exactly one PNG at the origin, paper-wide, its height keeping the canvas's aspect ratio, whichever side of the page height it falls |
| PdfUtils.HtmlToPdfOutcome | services/pdfUtils.ts:272-390 | no document: the browser-environment error; no frame document: "Failed to create iframe for HTML rendering"; a rendering error comes back prefixed "Failed to convert HTML: "; otherwise the single-image document; every error message is non-empty |
| PdfUtils.HtmlToPdf | services/pdfUtils.ts:263-392 | the result is `HtmlToPdfOutcome`, and the frame attached at line 286 is detached again on every path out |
| ListEdit.MovedEarlier | views/OrganizeView.tsx:57-58 | moving entry i > 0 to the left swaps entries i - 1 and i; no other entry changes |
| ListEdit.MovedLater | views/OrganizeView.tsx:59-60 | moving entry i < len - 1 to the right swaps entries i and i + 1; no other entry changes |
| ListEdit.MovedAtEnds | views/OrganizeView.tsx:55-63 | left at 0 and right at the last index leave the list unchanged |
| ListEdit.MovedIsPermutation | views/OrganizeView.tsx:55-63 | every move keeps the length and the multiset of entries |
| ListEdit.MoveEarlierThenLater | views/MergeView.tsx:25-33 | moving up at i and then down at i - 1 restores the list |
| ListEdit.MoveInCopy | views/OrganizeView.tsx:55-63 | swapping in place in a copied array yields exactly the moved list |
| ListEdit.RemoveAtIsFilter | views/OrganizeView.tsx:65-67 | removal is the source's index filter: every entry whose index differs, in order |
| ListEdit.RemoveAtShape | views/OrganizeView.tsx:65-67 | removing entry i drops the length by one, keeps the entries before i, shifts the later ones forward, and loses exactly `s[i]` |
| ViewState.OrElse | views/MergeView.tsx:16 | `s || fallback` on strings: a non-empty string is kept, the empty string replaced |
| OrganizeView.Identity | views/OrganizeView.tsx:33-46 | the order after loading n pages is [0, 1, ..., n - 1] |
| OrganizeView.IdentityIsValidOrder | views/OrganizeView.tsx:43 | that order is a duplicate-free list of valid page indices |
| OrganizeView.MovePreservesValidOrder | views/OrganizeView.tsx:55-63 | a move keeps the order duplicate-free and within the page range |
| OrganizeView.RemovePreservesValidOrder | views/OrganizeView.tsx:65-67 | a removal keeps the order duplicate-free and within the page range |
| OrganizeView.ValidOrderIsAccepted | views/OrganizeView.tsx:73 | a valid order for the loaded file is always accepted by `organizePDF`, with no more pages than the file |
| OrganizeView.OrderNoLongerThanPageCount | views/OrganizeView.tsx:73 | distinct indices below n number at most n |
| OrganizeView.IdentityOrderKeepsPages | views/OrganizeView.tsx:43 | saving the order just loaded reproduces the file's pages |
| OrganizeView.OrganizeView.constructor | views/OrganizeView.tsx:9-13 | no file, no thumbnails, empty order |
| OrganizeView.OrganizeView.LoadThumbnails | views/OrganizeView.tsx:24-53 | when every page renders: one thumbnail per page in page order and the identity order; otherwise the preview alert and the state unchanged; the invariant holds either way |
| OrganizeView.OrganizeView.SelectFile | views/OrganizeView.tsx:15-22 | picking a file (possible only with none) loads its previews as above; an empty selection leaves no file and both lists empty |
| OrganizeView.OrganizeView.ClearFile | views/OrganizeView.tsx:18-21 | clearing the file empties both thumbnails and order |
| OrganizeView.OrganizeView.MovePage | views/OrganizeView.tsx:55-63 | the order becomes the moved order, a permutation of the old one; the invariant is kept |
| OrganizeView.OrganizeView.RemovePage | views/OrganizeView.tsx:65-67 | the order loses exactly entry `index`; the invariant is kept |
| OrganizeView.OrganizeView.HandleSave | views/OrganizeView.tsx:69-81 | no file: nothing; otherwise the pages in the chosen order downloaded as "organized_" + name, or "Error generating PDF." |
| MergeView.MergeView.constructor | views/MergeView.tsx:7-9 | no files, name "merged_document" |
| MergeView.MergeView.AddFiles | views/MergeView.tsx:46 | new files go after the existing ones, both in their own order |
| MergeView.MergeView.MoveFile | views/MergeView.tsx:25-33 | the list becomes the moved list, a permutation of the same length |
| MergeView.MergeView.RemoveFile | views/MergeView.tsx:35-37 | exactly the file at `index` is removed |
| MergeView.MergeView.SetFilename | views/MergeView.tsx:8 | the name field is replaced; nothing else changes |
| MergeView.MergeView.HandleMerge | views/MergeView.tsx:11-23 | nothing happens iff fewer than two files, which is when the button is disabled; otherwise all pages file after file under the name or "merged_document", or "Failed to merge PDFs."; the flag is clear afterwards |
| MergeView.MergedFileName | views/MergeView.tsx:16 | an empty name downloads as "merged_document.pdf"; any other name as the name with ".pdf" ensured |
| ImageToPdfView.ImageToPdfView.constructor | views/ImageToPdfView.tsx:7-9 | no images, name "images_converted" |
| ImageToPdfView.ImageToPdfView.AddImages | views/ImageToPdfView.tsx:33 | new images go after the existing ones, in order |
| ImageToPdfView.ImageToPdfView.RemoveImage | views/ImageToPdfView.tsx:68 | exactly the image at `index` is removed |
| ImageToPdfView.ImageToPdfView.SetFilename | views/ImageToPdfView.tsx:8 | the name field is replaced; nothing else changes |
| ImageToPdfView.ImageToPdfView.HandleConvert | views/ImageToPdfView.tsx:11-23 | nothing iff no images (the button's disabled condition); otherwise the one-page-per-image document under the name or "images_converted", or "Failed to convert images."; the flag is clear afterwards |
| CompressView.QualityLabel | views/CompressView.tsx:73-78 | every quality is in exactly one band: < 15 Ultra Low, < 40 High Compression, < 75 Optimal, else High Clarity |
| CompressView.QualityLabelMonotone | views/CompressView.tsx:73-78 | a higher quality never shows a lower band |
| CompressView.ReductionPercent | views/CompressView.tsx:63-68 | `quality / 100` against 0.1, 0.3, 0.6 gives 85, 70, 45, 15 percent, i.e. the integer thresholds 10, 30, 60 |
| CompressView.RoundHundredths | views/CompressView.tsx:70 | `Math.round(n / 100)`: the nearest integer, halves up |
| CompressView.EstimatedSize | views/CompressView.tsx:61-71 | 0 without a file; with one, exactly the larger of 1024 and the kept share of the size rounded to the nearest byte (halves up) |
| CompressView.EstimatedSizeMonotone | views/CompressView.tsx:61-71 | for a fixed file the estimate never decreases as quality rises |
| CompressView.EstimatedSizeAtMostOriginal | views/CompressView.tsx:61-71 | for a file of at least 1 KiB the estimate never exceeds its size |
| CompressView.QualityFactor | views/CompressView.tsx:32 | `Math.max(0.05, quality / 100)`: at least both, and equal to one of them |
| CompressView.QualityFactorRange | views/CompressView.tsx:32 | for slider values 1..100 the factor is in [0.05, 1]: 0.05 below 5, `quality / 100` from 5 on |
| CompressView.SuggestedName | views/CompressView.tsx:17 | "compressed_" + the name with its first ".pdf" removed |
| CompressView.SuggestedNameOfPdfFile | views/CompressView.tsx:17 | for "<base>.pdf" the suggestion is "compressed_<base>" |
| CompressView.CompressView.constructor | views/CompressView.tsx:7-12 | no file, empty name, quality 50, no result, lossless mode |
| CompressView.CompressView.HandleFileSelected | views/CompressView.tsx:14-18 | the first file and its suggested name; an empty selection stores no file and, as reading the missing name throws, keeps the name |
| CompressView.CompressView.SetQuality | views/CompressView.tsx:164-171 | the slider sets a quality within 1..100 |
| CompressView.CompressView.SetMode | views/CompressView.tsx:130-141 | the mode buttons set the mode; nothing else changes |
| CompressView.CompressView.SetFilename | views/CompressView.tsx:115 | the name field is replaced; nothing else changes |
| CompressView.CompressView.Change | views/CompressView.tsx:103 | "Change" drops the file and the result |
| CompressView.CompressView.HandleCompress | views/CompressView.tsx:20-51 | no file: nothing; lossless mode calls only the lossless re-save, strong mode only the re-rendering with the clamped factor; success reports both sizes and downloads under the name or "compressed_document"; failure clears the report and alerts |
| RotateView.NextRotation | views/RotateView.tsx:58 | the next angle is below 360 and congruent to the previous plus 90 |
| RotateView.NextRotationCycle | views/RotateView.tsx:58 | clicks go 0, 90, 180, 270, 0 |
| RotateView.NextRotationKeepsQuarterTurn | views/RotateView.tsx:58 | a click keeps the angle in {0, 90, 180, 270} |
| RotateView.QuarterTurnsAreAccepted | views/RotateView.tsx:11-23 | for every angle the view can hold, rotating fails exactly when the file does not load |
| RotateView.FourClicksRestore | views/RotateView.tsx:58 | four clicks restore the angle |
| RotateView.RotateView.constructor | views/RotateView.tsx:7-9 | no file, rotation 0 |
| RotateView.RotateView.SelectFile | views/RotateView.tsx:33 | the first file, or none for an empty selection; the angle stays |
| RotateView.RotateView.ChangeFile | views/RotateView.tsx:44 | the file goes; the angle stays |
| RotateView.RotateView.Click | views/RotateView.tsx:58 | the angle becomes the next one and stays a quarter turn |
| RotateView.RotateView.HandleRotate | views/RotateView.tsx:11-23 | no file: nothing; otherwise every page at the angle downloaded as "rotated_" + name, or "Error rotating PDF. Please try again.", which happens exactly when the file does not load |
| HtmlToPdfView.OutputName | views/HtmlToPdfView.tsx:44 | no file: "converted.pdf"; a final ".html"/".htm" in any case becomes ".pdf"; another non-empty name is kept; never empty |
| HtmlToPdfView.OutputNameOfHtmlFile | views/HtmlToPdfView.tsx:44 | an HTML file's output name ends in ".pdf", so the download adds nothing |
| HtmlToPdfView.GuardedIffBlankOrNoFile | views/HtmlToPdfView.tsx:31-32 | the handler stops iff paste mode with whitespace-only content, or file mode without a file |
| HtmlToPdfView.HtmlToPdfView.constructor | views/HtmlToPdfView.tsx:8-17 | the sample HTML, no file, paste mode, A4, portrait, idle |
| HtmlToPdfView.HtmlToPdfView.HandleFileSelected | views/HtmlToPdfView.tsx:19-28 | a non-empty selection sets the file, its text and the status back to idle; an empty one changes nothing |
| HtmlToPdfView.HtmlToPdfView.SetInputMethod | views/HtmlToPdfView.tsx:66-67 | the tab buttons set the input method; nothing else changes |
| HtmlToPdfView.HtmlToPdfView.SetOptions | views/HtmlToPdfView.tsx:90-101 | the selects set format and orientation; nothing else changes |
| HtmlToPdfView.HtmlToPdfView.HandleConvert | views/HtmlToPdfView.tsx:30-54 | guarded: nothing changes; started: the statuses are processing then exactly one of success (download under the output name) or error (the conversion's own message); the frame count is restored |
| PasswordView.SuggestedName | views/PasswordView.tsx:20 | "protected_" (add) or "unlocked_" (remove) + the name with its first ".pdf" removed |
| PasswordView.SuggestedNameOfPdfFile | views/PasswordView.tsx:20 | for "<base>.pdf" the suggestion is the prefix and the base, and it downloads as that plus ".pdf" |
| PasswordView.NoPdfSuffixAfterPrefix | views/PasswordView.tsx:20 | a prefix ending in "_" followed by a base without ".pdf" does not end in ".pdf" |
| PasswordView.PasswordView.constructor | views/PasswordView.tsx:11-15 | the fixed mode, no file, empty password and name |
| PasswordView.PasswordView.HandleFileSelected | views/PasswordView.tsx:17-21 | the first file and the name suggested for it in this mode; an empty selection stores no file and, as reading the missing name throws, keeps the name |
| PasswordView.PasswordView.SetPassword | views/PasswordView.tsx:94 | the password field is replaced; nothing else changes |
| PasswordView.PasswordView.SetFilename | views/PasswordView.tsx:78 | the name field is replaced; nothing else changes |
| PasswordView.PasswordView.ChangeFile | views/PasswordView.tsx:66 | the file goes; name and password stay |
| PasswordView.PasswordView.HandleSubmit | views/PasswordView.tsx:23-39 | no file or empty password: nothing, and a service is called iff a file is selected and the submit button is enabled; add mode calls only the lock, remove mode only the unlock; the result downloads under the name or "protected"/"unlocked"; a failure alerts "Failed: " + its message or "Unknown error"; the flag is clear afterwards |
| PasswordView.UnlockErrorsAreNamed | views/PasswordView.tsx:35 | every unlock failure is "PDF library not loaded.", "Incorrect password. Please try again.", "Failed to read file" or the reader's own error message; only a reader error with an empty message is alerted as "Unknown error" |
| WatermarkView.AppliedStyle | views/WatermarkView.tsx:22-26 | for slider positions the drawn font size is the chosen one, but opacity 0 is drawn at 0.3 and rotation 0 at -45 |
| WatermarkView.InitialSettingIsDrawnAsShown | views/WatermarkView.tsx:9-12 | the initial 48 / 0.3 / -45 are drawn as shown |
| WatermarkView.WatermarkView.constructor | views/WatermarkView.tsx:8-14 | no file, "CONFIDENTIAL", 48, 0.3, -45, idle |
| WatermarkView.WatermarkView.HandleFileSelected | views/WatermarkView.tsx:37-40 | the first file, or none for an empty selection, and the status back to idle |
| WatermarkView.WatermarkView.SetText | views/WatermarkView.tsx:60 | the text field is replaced; nothing else changes |
| WatermarkView.WatermarkView.SetSliders | views/WatermarkView.tsx:67-81 | the sliders stay within 20..200, 0..1 in tenths and -90..90 |
| WatermarkView.WatermarkView.HandleApply | views/WatermarkView.tsx:16-35 | no file or empty text: nothing, and the status changes iff a file is selected and the apply button is enabled; otherwise processing then exactly one of success (every page stamped, downloaded as "watermarked_" + name) or error ("Failed to apply watermark.") |

## Left out

- Library internals (pdf-lib, pdf.js, jsPDF, html2canvas, the RC4 routine) are function parameters; their own behaviour, page content and byte formats are outside the model.
- Reading a file's bytes with `arrayBuffer` is folded into the loader: a failed read is a failed load. `readFileAsArrayBuffer`, used by the lock and the unlock, is modelled as its own step.
- PdfUtils.UnlockPdf: `PDFDocument.create`, `copyPages` and `save` on the new document are taken to succeed; a rejection there, rethrown with its own message, is not modelled.
- `downloadBlob`'s Blob, object URL and anchor mechanics; only the saved name and the payload are modelled.
- The verification block of `lockPDF` (services/pdfUtils.ts:47-63) and all `log` callbacks: every exception inside the block is caught, so it never changes the result.
- `extractPages` (services/pdfUtils.ts:154-160): no modelled view calls it.
- Timers and asynchronous sequencing: the 500 ms settle before rendering and the gap between split downloads. Each handler runs to completion; the processing flag and status are set and cleared inside it, and the sequence of statuses is kept in a ghost log.
- Multi-page slicing in `htmlToPDF`: the code adds one image in both branches (services/pdfUtils.ts:372-382) and the model follows the code.
- PdfUtils.HtmlToPdfOutcome: only html2canvas can fail inside the conversion; a failure of jsPDF or of `toDataURL` inside the same `try` is not modelled, and the rendering height passed to html2canvas is the paper's minimum height, not the body's measured `scrollHeight`.
- PdfUtils.CompressPdf: the JPEG quality is passed to the page encoder, whose image bytes are not modelled; the page structure and each page's failure are.
- HtmlToPdfView.HtmlToPdfView.HandleFileSelected: the FileReader's text is taken as already read; a conversion started before the read finishes is not modelled.
- CompressView.EstimatedSize: computed exactly on integers rather than in IEEE doubles, so it can differ by one byte from the browser where the double product rounds across a half.
- CompressView.QualityFactor: exact rational arithmetic, not IEEE division.
- `formatSize` and the savings percentage in the Compress view: floating-point display formatting.
- The opacity slider is modelled in tenths, its only positions with step 0.1; the browser's `Number` of "0.1" etc. is the nearest double.
- Thumbnails are opaque data-URL strings; the thumbnail viewport scale and canvas drawing are not modelled. The page count pdf.js reports is taken to be the loader's.
- The Split view, the UI components (uploader, drop zone, layout, tool grid and switcher, status banner), JSX rendering and routing: pure presentation.
- Disabled buttons appear as predicates (`MergeEnabled`, `ConvertEnabled`, `SubmitEnabled`, `ApplyEnabled`) that the handlers' contracts state their guards by, and as handler preconditions on the processing flag; clicks while a handler runs are not modelled.
