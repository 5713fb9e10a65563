# SSCC barcode sheet generator — Dafny model

Code_barcode_converter reads the first column of an Excel sheet of SSCC codes. It checks each code: 18 digits, optionally preceded by the GS1 application-identifier tag `(00)`. It renders every code as a GS1-128 barcode with its human-readable text, and writes the images into a PDF. The repository holds two variants of `process_file`, and both are modelled here:

- **Parallel script** (`main3--work-littlewind.py`):
  - It removes *all* whitespace from a cell and reports an empty cell as an error.
  - It checks every row before deciding, and refuses the whole batch with every bad row number listed.
  - It renders in a thread pool whose workers only build the images. As each render completes, the collecting loop writes its image into an index-addressed buffer (`images[idx] = image`), so the slots are filled in completion order by a single writer.
  - It emits one small page per image, in row order.
- **Sequential script** (`main1-work-1thread.py`):
  - It drops blank cells and trims each code at both ends only.
  - It stops at the first bad code.
  - It lays the labels out ten to an A4 page at `x = 30`, `y = 20 + 70·(i mod 10)` mm.

Modules:

- `Results`: the `Option` and `Result` types.
- `Text`: ASCII `str.isspace` and `str.isdigit`, `str.strip`, and `''.join(s.split())`.
- `Sscc`: the acceptance rule shared by both scripts.
- `Labels`: the pixel geometry of a labelled barcode in each script.
- `Completion`: the result buffer filled in an arbitrary completion order.
- `BatchPipeline`: the parallel script.
- `SequentialPipeline`: the sequential script.

Things that cannot be seen from Dafny are parameters:

- The barcode renderer is `symbolOf`, from code to raster size.
- The font's text width is `textWidthOf`.
- The completion order of the pool is `order`, any permutation of the task positions.

Two consequences of the code as written:

- In the parallel script, the "rows read ≠ codes read" check can never fire. `BatchPipeline.Decide` only ever fails with `RowErrors`.
- In the sequential script, the vertical offset grows by 70 mm per label while a page holds ten labels. The fifth to tenth labels of every page are therefore placed at offsets of 300 mm to 650 mm, below the bottom of a 297 mm A4 page. `SequentialPipeline.Paginate` states the offsets exactly as computed.

## Model

| member | source | states |
|---|---|---|
| Text.RemoveSpaces | main3--work-littlewind.py:61 | the joined code has no whitespace left, is never longer than the cell, leaves a whitespace-free cell unchanged and turns an all-whitespace cell into "" |
| Text.RemoveSpacesKeeps | main3--work-littlewind.py:61 | a character survives the split-and-join exactly when it is in the cell and is not whitespace |
| Text.RemoveSpacesConcat | main3--work-littlewind.py:61 | split-and-join works piecewise: the result for `a + b` is the result for `a` followed by the result for `b`, so order is kept |
| Text.TrimStartSpec | main1-work-1thread.py:67 | the left trim removes a prefix made only of whitespace and stops at a non-whitespace character or at the end |
| Text.TrimEndSpec | main1-work-1thread.py:67 | the right trim removes a suffix made only of whitespace and stops at a non-whitespace character or at the start |
| Text.Strip | main1-work-1thread.py:67 | a stripped code neither starts nor ends with whitespace, is empty exactly when the code is all whitespace, and a code without outer whitespace comes back unchanged |
| Text.StripMiddle | main1-work-1thread.py:67 | the stripped code is a contiguous middle part of the input, and what is cut off before and after it is whitespace only |
| Text.RemoveSpacesAfterStrip | main3--work-littlewind.py:60-61 | stripping before the split-and-join changes nothing: the result equals split-and-join of the raw cell |
| Sscc.Accept | main3--work-littlewind.py:65-72 | an accepted code is 22 characters: the `(00)` tag followed by 18 digits; a cell containing whitespace is never accepted |
| Sscc.AcceptIff | main3--work-littlewind.py:65-72 | a code is accepted exactly when it is 18 digits, or `(00)` followed by 18 digits; the first gets the tag prepended and the second is kept as it is |
| Sscc.DigitsAcceptedIffEighteen | main3--work-littlewind.py:69 | a digit string is accepted exactly when its length is 18, so 17 or 19 digits fail |
| Sscc.AcceptRoundTrip | main1-work-1thread.py:70-78 | any 18 digits, bare or tagged, are accepted and yield `(00)` + digits |
| Sscc.AcceptIdempotent | main3--work-littlewind.py:72 | re-checking an emitted canonical code accepts it and yields the same code |
| Labels.FloorHalf | main3--work-littlewind.py:103 | `a // 2` rounds towards negative infinity: `2q <= a < 2q + 2` |
| Labels.ComposeCentered | main3--work-littlewind.py:93-103 | the canvas is as wide as the symbol and 15 px taller; the text is drawn exactly 2 px below the symbol, inside the canvas, and its left and right margins differ by 0 or 1 px |
| Labels.CenteredTextOverhang | main3--work-littlewind.py:103 | the text starts left of the canvas exactly when it is wider than the symbol |
| Labels.ComposeBelow | main1-work-1thread.py:83-88 | the canvas is as wide as the symbol and 30 px taller; the text is drawn at x = 10, 5 px below the symbol and 25 px above the canvas bottom |
| Completion.Drain | main3--work-littlewind.py:107-112 | after k completions the buffer still has one slot per task, and the k progress counts read 1, 2, …, k |
| Completion.DrainSlots | main3--work-littlewind.py:88-111 | after k completions, slot i holds task i's image exactly when task i is among the first k completed, and is `None` otherwise |
| Completion.DrainWritesEmptySlot | main3--work-littlewind.py:109-111 | every completion writes into a slot that is still empty, so no image is overwritten |
| Completion.DrainFillsEverySlot | main3--work-littlewind.py:107-111 | once all tasks have completed, in any order, every slot holds its own task's image |
| Completion.RunPool | main3--work-littlewind.py:88-112 | for every completion order, the buffer read in index order equals the task results in submission order, and progress runs through 1..n |
| Completion.RunPoolOrderIndependent | main3--work-littlewind.py:107-111 | two completion orders give the same images and progress |
| BatchPipeline.NormalizeStripsThenJoins | main3--work-littlewind.py:60-61 | the normalised cell equals split-and-join applied after strip, and contains no whitespace |
| BatchPipeline.ValidateRow | main3--work-littlewind.py:60-72 | an accepted row yields a 22-character code which the rule accepts again unchanged |
| BatchPipeline.ValidateRowIff | main3--work-littlewind.py:60-72 | a row that is empty after normalisation is rejected; a row is accepted exactly when, with all whitespace removed, it is 18 digits or `(00)` followed by 18 digits; the code emitted is then the row's whitespace-free text with `(00)` in front, or that text unchanged when it already starts with `(00)` |
| BatchPipeline.InteriorSpaceAccepted | main3--work-littlewind.py:61 | 18 digits split by a whitespace character are still accepted, as the digits joined together with the tag prepended |
| BatchPipeline.Verdicts | main3--work-littlewind.py:59-72 | one verdict per row, in row order, each being that row's own check |
| BatchPipeline.ScanVerdicts | main3--work-littlewind.py:57-72 | every row lands in exactly one accumulator; each error line is the 1-based number of a rejected row; each code entry is an accepted row, with its own index and canonical code |
| BatchPipeline.ScanErrorLinesIncreasing | main3--work-littlewind.py:59-71 | `error_lines` is strictly increasing |
| BatchPipeline.ScanCodesIncreasing | main3--work-littlewind.py:59-72 | the row indices in `codes` are strictly increasing |
| BatchPipeline.ScanWithoutErrorsWellIndexed | main3--work-littlewind.py:72-78 | with no error line, the code at position i belongs to row i |
| BatchPipeline.ScanReportsEveryRejectedRow | main3--work-littlewind.py:62-71 | every rejected row's 1-based number is in `error_lines` |
| BatchPipeline.Decide | main3--work-littlewind.py:74-78 | success exactly when every row is accepted; a failure is always a non-empty, increasing list of row errors, never a count mismatch; on success codes are indexed by row and agree with each row's verdict |
| BatchPipeline.DecideErrorLines | main3--work-littlewind.py:74-75 | the reported lines lie in 1..n, and line i+1 is reported exactly when row i was rejected |
| BatchPipeline.ValidateBatch | main3--work-littlewind.py:57-78 | the batch is accepted as a unit exactly when every row is valid, or refused with row errors only; accepted codes are one per row, in row order, each being that row's canonical code |
| BatchPipeline.BatchErrorsNameRejectedRows | main3--work-littlewind.py:57-75 | a refused batch names every rejected row by its 1-based number, and no other row |
| BatchPipeline.Generate | main3--work-littlewind.py:90-105 | the label of a code shows that code over its own symbol; the canvas is the symbol's width and 15 px taller; the text is 2 px below the symbol and centred to within one pixel for the font's text width |
| BatchPipeline.Assemble | main3--work-littlewind.py:117-118 | the loop adds one page per image, so page i is numbered i and carries image i |
| BatchPipeline.Publish | main3--work-littlewind.py:107-118 | for any completion order, page i shows the label generated for task i's code |
| BatchPipeline.ProcessFile | main3--work-littlewind.py:57-118 | for any completion order, the run succeeds exactly when every row is valid and otherwise fails with the validator's error; on success there is one page per row, page i showing the centred label of row i's canonical code |
| BatchPipeline.ProcessFileOrderIndependent | main3--work-littlewind.py:107-117 | the document does not depend on the completion order |
| SequentialPipeline.DropBlank | main1-work-1thread.py:55 | dropping blanks never adds cells, every code kept comes from a non-blank cell, and a column with no blank cell is kept whole and in order |
| SequentialPipeline.DropBlankConcat | main1-work-1thread.py:55 | dropping blanks works piecewise over the column, so the codes keep the column's order |
| SequentialPipeline.CheckRow | main1-work-1thread.py:67-76 | a code passes exactly when, once trimmed, it is 18 digits or `(00)` followed by 18 digits; the result is the trimmed code with the tag in front |
| SequentialPipeline.InteriorSpaceRejected | main1-work-1thread.py:67-76 | a code with whitespace between non-blank characters is rejected, because only outer whitespace is trimmed |
| SequentialPipeline.RenderFrom | main1-work-1thread.py:64-90 | success exactly when every remaining code is accepted; a failure names the first rejected code by its 1-based number, together with its trimmed text, and every earlier code was accepted; on success there is one label per code, in order, drawn under the symbol of its own canonical code |
| SequentialPipeline.Paginate | main1-work-1thread.py:94-109 | the page count is the ceiling of n/10; label i goes on page i div 10 at x = 30, y = 20 + 70·(i mod 10), width 150; the last label lands on the last page |
| SequentialPipeline.PageBreaks | main1-work-1thread.py:100-103 | the page number rises by one exactly at the labels whose number is a multiple of ten |
| SequentialPipeline.Render | main1-work-1thread.py:64-109 | the first rejected code aborts the run with its row number and trimmed text, and all earlier codes are valid; otherwise there is one label and one placement per code; label j carries code j's canonical form under its own symbol, with the text 10 px in and 5 px below the symbol; placement j is on page j div 10 at x = 30, y = 20 + 70·(j mod 10), width 150; the page count is the ceiling of n/10 |
| SequentialPipeline.ProcessFile | main1-work-1thread.py:54-109 | the same as `Render`, for the column with its blank cells: rows are numbered after the blanks are dropped |

## Left out

- The Tkinter window, the file dialog, the button state and the status-bar messages are user interface. The progress counter of the parallel script is kept, as `RunPool`'s progress sequence; its message text is not.
- Reading the workbook is not modelled; cells arrive already read.
  - The parallel script reads every cell as a string, and an empty cell as "". The model's rows are `string`s.
  - The sequential script lets pandas mark cells as missing. By default that covers empty cells and also cells reading `NA`, `N/A`, `null`, `nan` and similar. `dropna` drops them without any report. The model writes every cell pandas marks missing as `None`.
  - The sequential script also lets pandas turn numeric cells into numbers before `astype(str)`. Depending on the column, an 18-digit number may come back as a float and then be rejected, or as an integer whose text is its digits. The model receives the text of each cell as it stands, so this coercion is not modelled.
  - In both scripts pandas treats the first sheet row as a header. The model's rows are the data rows.
- Text: `IsSpace` and `IsDigit` cover ASCII only. Python's `str.isspace`, `str.split` and `str.isdigit` also accept non-ASCII whitespace and digits, such as superscript digits.
- GS1-128 rendering and font measurement are opaque. They enter as `symbolOf` and `textWidthOf`, and a renderer failure is not modelled.
- The six-worker thread pool is modelled only through its observable order of completion, a permutation.
- Page placement in the parallel script uses floating-point millimetres: a 100×60 mm page with the image at x = 10.0, y = 5, width 80. It is not modelled beyond one page per image, in buffer order.
- Temporary PNG files, the output path and writing the PDF are file-system effects.
  - Each temporary image is saved, embedded and removed without `try`/`finally`. A failure after the save leaves the file behind.
  - The model therefore makes no claim about temporary files being cleaned up on failure.
  - The sequential script's `pageCount` counts the pages its loop adds. When the PDF library closes a document with no pages, it may add one blank page of its own. That is not modelled.
- `generate_icon.py` and `main(1).py` are not part of this model.
