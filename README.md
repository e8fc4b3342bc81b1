# barcode-cxm: identifier issuing and page assembly

This project models the core of the barcode-cxm upload server (`server.js`) in Dafny and proves properties of it. A user uploads a PDF. The server checks the upload, then copies every page into a new document. On each page it stamps a Code 128 barcode, the page's content identifier `CXM-MMDDYY-NNNNN` and the date. It appends a summary page that lists every identifier with blank "Completed" and "Posted" columns. It saves the result as `generated_<counter - 1>.pdf` and answers with a download link.

The model has six modules:

- `Basics` (basics.dfy): the `Option` and `Result` datatypes the other modules share.
- `Text` (text.dfy): the JavaScript string operations the identifier is built from. These are `String(n)`, `padStart`, `slice(-2)`, and, as their partner, reading a run of decimal digits back as a number.
- `Identifier` (identifier.dfy): the date code, the content identifier, and the process-wide `contentCounter`. The counter is a class `ContentCounter` with a field `value` and a ghost record `issued` of every identifier handed out. `NextId` formats the identifier for a given date and increments the counter.
- `Layout` (layout.dfy): the overlay drawn on each copied page and the summary page. `BuildSummary` is the source's loop with the moving `yOffset`. Coordinates and page heights are reals, and the summary page's height is a parameter.
- `Upload` (upload.dfy): the request checks of the `/upload` handler, in the handler's order.
- `Assembler` (assembler.dfy): the page loop (`StampPages`), the whole run of `generatePDFWithContentAndBarcode` (`GeneratePdf`), and the handler (`HandleUpload`).

Outside effects are parameters:

- The clock is `clock: nat -> Date`, the date read at page k. The source reads `new Date()` once per page, so one run can carry more than one date code.
- The barcode encoder is `encode: string -> Option<Image>`. It covers rendering the PNG with bwip-js and embedding it with `embedPng`. `None` stands for a failure of either step.
- Moving the upload into place is `moveOk`, and saving and writing the output is `writeOk`.
- The parsed upload is `parsed: Option<seq<SourcePage>>`. `None` means the bytes are not a PDF.

A page is its height and an opaque content token. Each drawing call is recorded with its position and size. The summary page is the blank page `addPage()` creates without a size. pdf-lib then uses A4, 595.28 x 841.89 points, and the assembler passes that height (`DefaultPageHeight`).

## Model

| member | source | states |
|---|---|---|
| Text.ParseDigitsOf | server.js:102 | Reading `String(n)` back as decimal digits gives `n`. |
| Text.DigitsOfShape | server.js:101-102 | `String(n)` is all decimal digits, with no leading zero unless it is "0". |
| Text.PadStartShape | server.js:101-102 | `padStart` keeps the string whole at the end of its result and puts only the fill character before it, so it never truncates. |
| Text.ParsePadded | server.js:102 | Zero-padding `String(n)` to any width gives an all-digit string that still reads back as `n`. |
| Text.DigitsOfLength | server.js:102 | `String(n)` has at most k digits exactly when `n < 10^k`, in both directions. |
| Text.LastTwoDigits | server.js:101 | For `n >= 10`, `String(n).slice(-2)` is two digits that read as `n % 100`. |
| Identifier.DateCode | server.js:101 | For a calendar date the code has 6 characters, or 5 for the years 0 to 9, where `slice(-2)` keeps one digit. |
| Identifier.SequenceField | server.js:102 | Below 100000 the padded counter has exactly 5 characters. |
| Identifier.ContentId | server.js:102 | A 6-character date code and a counter below 100000 give the 16-character form `CXM-MMDDYY-NNNNN`. |
| Identifier.SequenceNumberOfContentId | server.js:102 | The number after the last '-' of `CXM-<code>-<padded n>` is `n`, whatever the date code holds. |
| Identifier.ContentIdInjective | server.js:102 | Two identifiers are equal only when their date codes and their counters are both equal. |
| Identifier.SequenceFieldWidth | server.js:102 | Below 100000 the counter field has exactly 5 characters. From 100000 on it equals `String(n)`, so every digit appears. |
| Identifier.TwoDigitField | server.js:101 | A number below 100 padded to two places gives two digits that read back as the number. |
| Identifier.DateCodeFields | server.js:101 | For a calendar date with year >= 10, the date code is 6 digits. Its fields read back as month index + 1, the day and the year mod 100. |
| Identifier.DateCodeOfJune152024 | server.js:101 | June 15, 2024 (month index 5) gives the date code "061524". |
| Identifier.SmallSequenceFields | server.js:102 | Counters 1, 2 and 3 give the fields "00001", "00002" and "00003". |
| Identifier.FirstIdentifiersOfJune152024 | server.js:100-103 | On June 15, 2024, counters 1 to 3 give `CXM-061524-00001` to `CXM-061524-00003`. |
| Identifier.IssuedInOrderAppend | server.js:102-103 | Issuing the identifier numbered one past the record keeps the record numbered 1, 2, 3, ..., and that identifier is new. |
| Identifier.IssuedDistinct | server.js:102-103 | Identifiers numbered in issuance order are pairwise distinct. |
| Identifier.ContentCounter.constructor | server.js:10 | The counter starts at 1 with nothing issued. |
| Identifier.ContentCounter.NextId | server.js:100-103 | The result is `CXM-<date code>-<old counter padded to 5>`. The counter grows by exactly 1, the identifier joins the record, and it was never issued before in the process. |
| Layout.Annotate | server.js:110-129 | The stamped page keeps the source page's height and content and carries exactly three drawing calls. |
| Layout.AnnotateKeepsPageAndStacksOverlay | server.js:110-129 | The overlay keeps the source page's size and content and adds exactly three calls. They are the image at (20, h-80) sized 100x50, "Barcode: <id>" at (20, h-90) and "Date: <date>" at (20, h-110), all at size 12. |
| Layout.OverlayPlacementDependsOnHeightOnly | server.js:110-129 | Two pages of equal height get their overlay calls at the same positions, whatever their content, identifier, image or date. |
| Layout.RowsFrom | server.js:148-153 | The table body has three drawing calls per identifier. |
| Layout.SummaryPage | server.js:136-153 | The summary page is a blank page of the given height with 4 heading calls and 3 calls per identifier. |
| Layout.RowsFromAppend | server.js:148-153 | Appending an identifier to the list appends its row, 20 points lower per earlier row. |
| Layout.RowsFromAt | server.js:148-153 | Row k holds `barcodeList[k]` and two blanks at y - 20k. |
| Layout.SummaryPageRows | server.js:136-153 | For any page height h, the summary page is a blank page with the title at h-50 and the three headers at h-80. For every k, row k shows `barcodeList[k]` at (50, h-100-20k) with blank markers at x=250 and x=400. |
| Layout.SummaryRowsOnPage | server.js:140-153 | The table is not paginated. On a page of height h, row k's baseline is on the page exactly when 20k <= h - 100, and once a row falls off, every later row does too. |
| Layout.SummaryRowsOnDefaultPage | server.js:136-153 | On pdf-lib's default A4 page (841.89 points high) exactly the first 38 rows are on the page. |
| Layout.BuildSummary | server.js:136-153 | The loop that moves `yOffset` down by 20 per row builds exactly the summary page above. |
| Upload.Validate | server.js:23-41 | An accepted file is the single file sent under `pdfFile`. A thrown request has files, but none under `pdfFile`. |
| Upload.AcceptedExactly | server.js:23-41 | A request passes exactly when it has files and a single file under `pdfFile`, of type application/pdf and at most 5 MiB. The accepted file is that one. |
| Upload.RejectionOrder | server.js:23-41 | Each outcome holds exactly under its own condition, so the checks run in the handler's order: no files first, then the type, then the size. A missing `pdfFile` among other files throws. |
| Upload.RepeatedFieldIsNotPdf | server.js:28-34 | A `pdfFile` field sent more than once becomes an array without a `mimetype`, so it is refused as not a PDF. |
| Upload.SizeLimitBoundary | server.js:37-38 | The limit is 5242880 bytes and is inclusive: 5242880 passes and 5242881 is too large. |
| Assembler.OutputFileName | server.js:156 | The name is `generated_`, then decimal digits that read back as the number, then `.pdf`. |
| Assembler.IdOfPage | server.js:95-103 | For a calendar date outside the years 0 to 9 and a counter below 100000, page k's identifier has the 16-character form. |
| Assembler.IssuedIds | server.js:95-103 | A run of n pages lists exactly n identifiers. |
| Assembler.IssuedIdAt | server.js:95-103 | Page k of a run that starts with counter c0 gets the identifier with counter c0 + k and the date code of its own clock reading. |
| Assembler.IssuedIdsNumbered | server.js:95-133 | A run of n pages issues n identifiers, numbered c0, c0 + 1, ... in page order, and pairwise distinct even when the date changes mid-run. |
| Assembler.OutputFileNameInjective | server.js:156 | Two file names are equal exactly when their counter values are equal. |
| Assembler.OutputFileNameOfRun | server.js:95-156 | A run of P >= 1 pages from counter c0 writes `generated_<c0 + P - 1>.pdf`. That name is the last identifier's sequence number and differs from every earlier identifier's number. |
| Assembler.UnencodableIdFailsRun | server.js:105-106 | One page whose identifier the encoder rejects is enough for the run not to have every identifier encoded. |
| Assembler.StampPages | server.js:95-133 | If every page encodes, `barcodeList` is the run's identifiers in page order and page k carries its overlay. The counter then ends at c0 + P and the record grows by the list. If page k fails, the loop stops there: the list holds pages 0..k-1 and the counter has advanced by k + 1. |
| Assembler.GeneratePdf | server.js:81-162 | The run succeeds exactly when every identifier encodes and the write succeeds. The document is then the stamped pages in order plus the summary page, P + 1 pages in all, named `generated_<c0 + P - 1>.pdf`. A write failure happens exactly when every identifier encoded and the write fails, and it leaves the counter advanced by P. An encoding failure on page k leaves it advanced by k + 1. |
| Assembler.HandleUpload | server.js:22-78 | Each rejection gives its 400 message with the counter untouched. A missing `pdfFile` throws, and a failed move gives the move error. A download link to `/uploads/generated_<c0 + P - 1>.pdf` is returned exactly when the request passes, the move succeeds, the PDF parses, every identifier encodes and the write succeeds. Any other outcome after the move is a generation error carrying its cause. An unparsable upload, and only that, is a parse error, and it leaves the counter untouched. When some identifier of the run does not encode, the reply is an encoding error. A write failure leaves it advanced by P. An encoding failure on page k leaves it advanced by k + 1, with identifiers for pages 0..k issued. |
| Assembler.EmptyRunReusesFileName | server.js:136-160 | After a successful run, a run over a document with no pages issues no identifier and writes under the same file name, so it replaces the earlier output. |

## Left out

- Express set-up, CORS, the upload middleware, static serving of `/uploads` and `app.listen` are not modelled. They are transport plumbing.
- The multipart parsing of the request is not modelled. A request is its optional map from field names to what the middleware put there: one file (name, MIME type, size), or an array when the field was sent more than once.
- File system effects are not modelled. `pdfFile.mv` is the `moveOk` parameter, and `newPdfDoc.save` with `fs.writeFileSync` is `writeOk`. `fs.readFileSync` is folded into `parsed`, and the `fs.unlink` after the response is not modelled.
- PDF parsing, page copying, PNG embedding and serialisation in pdf-lib are foreign library calls. A page is a height plus an opaque content token.
- Coordinates and page heights are exact reals. pdf-lib computes them in floating point.
- The default size of a page added without one (A4, 841.89 points high) is pdf-lib's. It is a constant here, and pdf-lib is not part of this model.
- Barcode rasterisation in bwip-js (Code 128, scale 3, height 10 mm) and the PNG embedding in pdf-lib are the opaque `encode` function. A failure of either is `None`.
- The system clock and `toLocaleDateString('en-US')` are parameters. The locale text is carried but not computed.
- Concurrent requests sharing the counter, and the async ordering of callbacks, are not modelled. One caller runs at a time.
- Console logging is not modelled.
- The text of a generation error (`error.message`) is not modelled. A failure after the move is `GenerationFailed` with the failing step: parsing, encoding page k, or writing.
- The counter is an unbounded integer. JavaScript numbers lose integer precision above 2^53, which is not modelled.
- Identifier.DateCodeFields: covers years from 10 on. For years 0 to 9, `slice(-2)` keeps a single digit and the date code has 5 characters, which the lemma does not state.
- Identifier.ContentCounter.NextId: takes a whole `Date` rather than separate month, day and year. Only those three fields are used for the identifier.
