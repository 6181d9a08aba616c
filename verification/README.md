# Product-page spider: pacing, extraction and spreadsheet upsert

A Dafny model of the decision logic of the `ExampleSpider` crawler
(`example.py`). For every product URL the spider fetches the page, classifies
the response as blocked or not, adjusts its inter-request delay, checks that
the product layout rendered, reads thirteen fields one at a time (each
failure isolated to its own field) and upserts one row per URL into a
sixteen-column spreadsheet that it bootstraps on start-up.

The model is pure functions over immutable datatypes:

- `wrappers.dfy` (`Wrappers`): `Option` and `Result`.
- `pacing.dfy` (`Pacing`): `is_blocked`, the delay update (`Observe`), runs of
  updates (`Run`) and their bounds, monotonicity, closed forms and
  convergence.
- `text.dfy` (`Text`): Python's `str.strip()` (`Trim`) with its
  characterisation, and `','.join` (`Join`) with `str.split` (`Split`) as its
  inverse.
- `extraction.dfy` (`Extraction`): the page as one lookup outcome per field,
  the marker check and the per-field captures (`Extract`).
- `store.dfy` (`Store`): the header, `init_excel` (`Bootstrap`), and
  `update_excel` both as written (`UpsertAsWritten`, `UpdateExcelAsWritten`)
  and as intended (`Upsert`, `UpdateExcel`).
- `crawl.dfy` (`Crawl`): construction (`Start`), one `parse` call (`Parse`),
  a whole crawl (`Crawl`) and the single-page scenario.

The browser is replaced by a `Page` value giving, per field, either a failed
lookup or the text / `src` value read. Whether reading or writing the
workbook succeeds is an input (`StoreFile` is `Absent`, `Unreadable` or
`Present`; a `writeOk` flag says whether the write goes through). A write
is all or nothing.

The upsert by URL is the one place where the code does not do what it
evidently means. For a URL not yet in the workbook, `update_excel` appends a
row built from a dictionary (example.py:204-211). For a URL already there it
assigns a positional list to the matching row (example.py:200-202). That list
carries the same fifteen values, for the same columns and in the same order,
as the dictionary: everything except `No`. So line 200 evidently means to
overwrite those fifteen columns. As written, it assigns 15 values to a
16-column row, which raises. The handler at example.py:215-216 swallows the
error, so a known URL's row is never updated. The model follows the code in
`UpsertAsWritten`, `UpdateExcelAsWritten` and the driver `Parse`. It states
the intended overwrite separately in `Upsert`, `UpdateExcel` and
`ParseIntended` (see Findings). The intended overwrite keeps the row's `No`
cell, which the code never writes.

## Model

| member | source | states |
|---|---|---|
| Pacing.IsBlocked | example.py:218-229 | a response is blocked exactly when its status is in the block set {403, 503} |
| Pacing.BlockedIffBlockStatus | example.py:218-229 | a response is blocked exactly when its status is 403 or 503, and responses with equal status get the same verdict whatever their body or URL |
| Pacing.Observe | example.py:89-95 | one update keeps a delay in [1, 30]; a blocked response never lowers a delay at or below 30 and never leaves it above 30; an unblocked one never raises a delay at or above 1 and never leaves it below 1; within range it moves by at most 2 and stays put only at the matching bound |
| Pacing.Run | example.py:90-95 | any sequence of updates from a delay in [1, 30] ends in [1, 30] |
| Pacing.RunAppend | example.py:90-95 | updating over two batches of responses equals updating over their concatenation |
| Pacing.RunUnblocked | example.py:94 | k unblocked responses from d >= 1 give max(d - 2k, 1) |
| Pacing.RunBlocked | example.py:91 | k blocked responses from d <= 30 give min(d + 2k, 30) |
| Pacing.ReachesFloorIff | example.py:94 | from d in [1, 30], k unblocked responses reach 1 if and only if k >= ceil((d - 1) / 2) |
| Pacing.ReachesCeilingIff | example.py:91 | from d in [1, 30], k blocked responses reach 30 if and only if k >= ceil((30 - d) / 2) |
| Pacing.ConvergenceBetweenExtremes | example.py:44-47 | 15 unblocked responses bring 30 down to 1 and 14 do not; 15 blocked responses bring 1 up to 30 and 14 do not |
| Pacing.RunMonotone | example.py:90-95 | a larger starting delay never ends lower after the same responses |
| Pacing.RunDrift | example.py:90-95 | from a delay in range, the final delay is at most 2 per blocked response above and at most 2 per unblocked response below the start |
| Text.Trim | example.py:112-187 | the stripped text has no whitespace at either end and sits inside the original with only whitespace around it |
| Text.TrimCharacterization | example.py:112-187 | any non-blank-ended string that sits inside whitespace padding is the stripped text, so stripping is uniquely determined |
| Text.TrimIdempotent | example.py:112-187 | stripping twice equals stripping once |
| Text.Join | example.py:201 | the join of no pieces is ""; otherwise its length is the pieces' total length plus one separator between each two neighbours, and it starts with the first piece |
| Text.Split | example.py:201 | the reference inverse of the comma-join (Python's `str.split`): at least one piece, no piece holds the separator, and one more piece than separators |
| Text.JoinSplit | example.py:201 | joining the pieces of a split restores the string |
| Text.SplitJoin | example.py:207 | a non-empty list of comma-free addresses is recovered by splitting its comma-join |
| Text.JoinEmptyIsAmbiguous | example.py:207 | an empty image list and a list holding one empty string are both stored as "" |
| Extraction.Capture | example.py:112-187 | a field is present exactly when its lookup succeeds; a text field then holds exactly the stripped text (so it has no whitespace at either end), the main image its `src` verbatim |
| Extraction.CaptureList | example.py:135-145 | an image list is every `src` read when the lookup succeeds and the initial empty list when it fails |
| Extraction.Extract | example.py:100-187 | a page is skipped exactly when the `div.options` marker is missing; otherwise every field is captured from its own lookup alone |
| Extraction.FieldPresentIffFound | example.py:109-187 | each single-valued field is Some(strip(text)) (Some(src) for the main image) exactly when its lookup succeeds, None otherwise |
| Extraction.ScalarFailureIsolated | example.py:112-187 | a failing lookup blanks its own field and leaves every other field and both lists unchanged |
| Extraction.ListFailureIsolated | example.py:135-145 | a failing image-list lookup empties that list and leaves everything else unchanged |
| Extraction.NothingFoundStillExtracts | example.py:108-187 | a page with the marker on which every lookup fails still yields a record with every field absent and both lists empty |
| Store.SchemaShape | example.py:52-56 | the header has 16 distinct names with `No` first and `URL` second |
| Store.Bootstrap | example.py:49-63 | a missing workbook is created with the header and no rows, or creation fails when the write fails; an existing one, readable or not, is left as it is |
| Store.BootstrapIdempotent | example.py:49-63 | a second bootstrap changes nothing, and a fresh workbook is well formed and empty |
| Store.DataCells | example.py:200-211 | the fifteen positional values, preceded by an empty `No`, are exactly the new-row dictionary aligned with the header: both spellings carry the same values for the same columns |
| Store.NewRowDict | example.py:204-211 | the new-row dictionary has an entry for every header column after `No`, none for `No`; `URL` holds the record's URL, `URL type` its URL type, and `other_pictures` / `description_images` the comma-join of the image lists (so an empty list gives `""`) |
| Store.ColumnName | example.py:52-56 | each single-valued field has a header column other than `No` and `URL` |
| Store.ColumnNamesDistinct | example.py:52-56 | distinct fields go to distinct columns |
| Store.NewRowDictFields | example.py:204-211 | every single-valued field is stored, unchanged, under its own column of the new row |
| Store.RowFromDict | example.py:212 | appending a dictionary as a row gives one cell per column: the entry of the same name, or an empty cell when the dictionary has none |
| Store.FirstUrlMatch | example.py:198-199 | finds an index exactly when some row carries the URL, and it is the first such row |
| Store.AssignRow | example.py:200-202 | a positional row assignment succeeds exactly when the value count equals the column count, and otherwise fails with both counts |
| Store.UpsertAsWritten | example.py:196-212 | for a URL already present the 15-value assignment fails against the 16-column header; for a new URL it appends like the intended upsert |
| Store.Upsert | example.py:196-212 | a new URL appends one row with empty `No` and the data cells after all earlier rows unchanged; an existing URL rewrites only the first matching row's data cells and keeps its `No`; the result is well formed, holds the URL and keeps URLs unique |
| Store.ReadTable | example.py:197 | reading succeeds exactly when the workbook is present, and returns its table |
| Store.Commit | example.py:213-216 | the file changes only when every step and the write succeed, and then holds the updated table |
| Store.UpdateExcelAsWritten | example.py:193-216 | the file is either unchanged or replaced by the upserted table; an update for a URL already present leaves it unchanged; a new URL on a readable workbook with a working write is appended |
| Store.UpdateExcel | example.py:193-216 | a missing or unreadable file or a failed write leaves the file unchanged; otherwise it holds the upserted table, still well formed |
| Store.UpsertLastWriteWins | example.py:198-202 | upserting a then b under the same URL equals upserting b alone: no column of a survives |
| Store.UpsertIdempotent | example.py:198-212 | upserting the same record twice equals upserting it once |
| Store.FirstMatchUnique | example.py:199 | a row that carries the URL with no earlier row carrying it is the one the lookup returns |
| Store.AsWrittenKeepsStaleRow | example.py:198-202 | on a workbook holding the URL at price $5, an update to $6 is dropped as written and applied as intended |
| Crawl.Start | example.py:42-47 | construction succeeds exactly when bootstrap does, starts at delay 10, and holds exactly the bootstrapped workbook: an existing one kept unread, an absent one created empty; when the workbook is well formed with unique URLs, the spider invariant holds |
| Crawl.RecordOf | example.py:189-191 | the record handed to the upsert carries the response's URL and URL type and the page's extracted fields |
| Crawl.Pace | example.py:87-95 | a failed navigation leaves the delay alone; otherwise the delay takes one pacing step for the response's block verdict, with the block-direction promises |
| Crawl.Parse | example.py:85-191 | a failed navigation changes nothing; the delay is paced before the marker check; a page without the marker, a failed read or write, or a URL already in the workbook leaves the workbook unchanged; a new URL gets exactly one appended row with an empty `No` and the page's values; delay range, well-formedness and URL uniqueness are preserved |
| Crawl.ParseIntended | example.py:85-202 | as `Parse`, but a page with the marker on a readable, writable workbook leaves exactly the intended upsert of its record, which agrees with `Parse` for a new URL |
| Crawl.Crawl | example.py:85-191 | any sequence of pages preserves the delay range, well-formedness and URL uniqueness |
| Crawl.Verdicts | example.py:87-90 | one visit gives its block verdict when the browser reached it and nothing otherwise; all verdicts in order when every navigation succeeded |
| Crawl.VerdictsAppend | example.py:87-90 | the verdicts of consecutive batches of visits are the concatenation of each batch's verdicts, so with the one-visit case they are the verdicts of the reached visits, in order |
| Crawl.CrawlDelayIsRun | example.py:87-95 | the delay after a crawl is the pacing run over the block verdicts of the pages the browser reached, and nothing else |
| Crawl.SkippedPagesLeaveStore | example.py:100-106 | pages that all lack the marker leave the workbook unchanged |
| Crawl.WidgetPageExtraction | example.py:108-187 | a page with the marker text `Widget` and price `$5` yields those two fields and nothing else |
| Crawl.WidgetFirstVisit | example.py:85-212 | the `Widget` page on an empty workbook appends exactly the expected row and lowers the delay from 10 to 8 |
| Crawl.SingleWidgetPage | example.py:85-191 | starting without a workbook, one status-200 `Widget` page leaves exactly the row (blank No, URL, Widget, $5, empty image lists, URL type New) and the delay at 8 |

## Left out

- The sleep before extraction (`time.sleep(self.delay + random.uniform(0, 2))`, example.py:98) is not modelled: it is real time plus a floating-point random jitter, and it changes no state.
- The browser is not modelled: Selenium, `implicitly_wait`, and the CSS/XPath selectors. Each field's lookup is an input value. Whether `driver.get` raised (example.py:87) is the visit's `navigated` flag: Scrapy drops a callback that raises.
- Crawl.Parse receives every response, whatever its status. Scrapy's default middleware may decide otherwise, and that is not modelled. The spider sets no `handle_httpstatus_list`, and the crawler settings at example.py:242-244 set only the log level. Scrapy's default HTTP-error filtering may therefore drop 403 and 503 responses (503 after retries) before `parse` runs. In that case the blocked branch at example.py:90-92 would be unreachable as configured. This was read from Scrapy's documented defaults; nothing was run to confirm it.
- `get_attribute('src')` returning None is not modelled: attribute values are assumed to be strings.
- Text fields are stripped of the characters Python's `str.isspace()` accepts. The model lists those code points explicitly and does no Unicode normalisation.
- Workbook file I/O and pandas type coercion are not modelled: a read fails when the file is missing or unreadable, and a write succeeds or leaves the file as it was. Empty strings and None becoming NaN when the file is read back is not modelled, so the image-list cells keep "" as written.
- Store.Upsert requires a well-formed table: the sixteen-column header and one cell per column. The same goes for `UpdateExcel`, `UpdateExcelAsWritten`, `Parse`, `ParseIntended` and `Crawl`. The workbook is assumed to have been written by this spider. `init_excel` keeps an existing file without reading it, so a workbook with a foreign header is possible, but appending to one (where pandas would add columns) is not modelled.
- Reading the seed list in `start_requests` is not modelled, including the `URL type` default of `New` (example.py:65-83). Each visit carries its URL and URL type.
- The logging setup, the directory and file-name construction, the command-line entry point and `closed`/`driver.quit` are not modelled (example.py:18-42, 231-246): they are I/O and resource cleanup.
- Crawl.Parse does not model scheduling: Scrapy hands responses over one at a time, which `Crawl` models as a sequence.

## Findings

| source | as written | input that shows it | evidently intended | confidence | as-written member | corrected member |
|---|---|---|---|---|---|---|
| example.py:200-202 | `df.loc[index] = [...]` assigns 15 values (no `No`) to a row of the 16-column header; pandas raises on the length mismatch, the `except` at line 215 swallows it, and the workbook is not rewritten | a workbook holding a row for `https://x/1` with price `$5`, then the same URL crawled with price `$6`: the row keeps `$5` | the 15 values go to the columns `URL` … `URL type` of the first matching row, leaving its `No` as it was | not executed; the raise follows from pandas' rule that a list assigned to a whole row must have one value per column | Store.UpsertAsWritten, Store.AsWrittenKeepsStaleRow | Store.Upsert, Store.UpsertLastWriteWins |
