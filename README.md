# n8n-excel-uploader, modelled in Dafny

This project models the data-reshaping logic of the n8n Excel uploader scripts. Each model
is written in the shape the script has:

- The processor converts each customer's newest workbook into the desktop template. It splits
  composite product cells and regenerates identifiers as a zero-padded sequence.
- The central dashboard server:
  - normalises uploaded cells;
  - keeps an in-memory record store and a processing history, with filter, delete, bulk
    delete, update, append and listing;
  - turns pasted text into table rows ("magic extract");
  - exports an edited table;
  - lists a site's files.
- The central agent renames each customer's columns to the central schema through a mapping
  table.
- The smart downloader keeps a ledger of the files already seen, per customer.
- Smart automation and the uploader classify the runs and log history entries idempotently.
- The download bots watch the download folder one tick at a time until the download has
  finished.
- The link extractor pulls file names out of `href="download_secure/…"` links and builds the
  `encodeURIComponent` URL of one of them.

The file layout:

- There is one module per script: `Processor`, `ServerCells`, `Store`, `MagicExtract`,
  `ServerViews`, `CentralAgent`, `SmartDownloader`, `SmartAutomation`, `Uploader`,
  `UniversalBot`, `UnsplashDownloader` and `DownloadFiles`.
- Four modules are shared:
  - `JsText` holds the JavaScript string operations.
  - `Cells` holds ExcelJS cell values and worksheets.
  - `Sorting` holds the stable newest-first sort.
  - `Wrappers`/`Seqs` hold Option, Result and sequence helpers.
- `Monitor` holds the folder watch shared by both bots, `UriComponent` holds
  `encodeURIComponent` with its inverse, and `ProcessorExamples` holds worked examples.

State the scripts change in place is modelled in place:

- The record store and the history are classes (`Store.DataStore`, `Store.HistoryLog`).
  A class whose size grows holds a `seq` field that its methods reassign.
- The downloader ledger is a class (`SmartDownloader.Tracker`) with a `map` field.
- The loops that mutate counters and flags are methods with loop invariants. These are the
  ID counter in the processor, the row loops of the upload and the central agent, the folder
  watch, and the classification and logging loops.

Each method is proved equal to a specification function. The properties the scripts promise
are then proved about those functions as lemmas.

Where the design description of the repository and the code disagree, the model follows the code:

- `POST /api/magic-extract` has no header-keyword stage. It builds rows per line with the
  two regular expressions, then falls back to the raw lines.
- Text whose lines all have a trimmed length of at most 3 (in UTF-16 code units, as
  JavaScript's `length` counts) yields the raw-line answer with no
  records at all (`MagicExtract.ExtractOutcome`).
- The central agent's `indexOf` runs over the header list with the empty header cells
  removed. A source header with g empty header cells before it therefore reads the column
  g places to the left of its own (`CentralAgent.HeaderGapsShiftColumn`; a worked example
  with one empty cell is `CentralAgent.HeaderGapShiftsColumn`).
- `GET /api/processing-history` without a customer filter sorts the stored history itself,
  because `filtered` is the stored array (`Store.HistoryLog.List`).

## Model

| member | source | states |
|---|---|---|
| Processor.CellValueCases | scripts/processor.js:53-61 | an empty cell reads as `''`; a primitive or a Date reads unchanged; a formula reads as its result, a hyperlink as its non-empty text; any other object reads as its JSON serialisation |
| Processor.TrailingDigitCount | scripts/processor.js:73 | the counted suffix is all digits and is the longest such suffix |
| Processor.MatchTrailingNumber | scripts/processor.js:73 | a match splits the id into a prefix and a digit run whose concatenation is the id |
| Processor.MatchTrailingNumberIsLazyMatch | scripts/processor.js:73-77 | `^(.*?)(\d+)$` matches exactly when some split point qualifies, and the match is the shortest qualifying prefix with the rest as the digit run |
| Processor.MatchPrefixDigits | scripts/processor.js:73 | a prefix not ending in a digit followed by a digit run is matched as exactly that prefix and run |
| Processor.FirstIdReproducesRaw | scripts/processor.js:72-99 | the first regenerated id, prefix plus counter padded to the run's width, equals the seeding raw id |
| Processor.ItemsShape | scripts/processor.js:85-87 | without `/` the untrimmed value is the single item; with `/` every item is non-empty, trimmed and free of `/` |
| Processor.ItemsOfTwo | scripts/processor.js:85-87 | `a/b` with trimmed non-empty parts yields exactly `[a, b]` |
| Processor.OnlySeparatorsYieldNothing | scripts/processor.js:85-87 | a product made only of `/` and spaces yields no item |
| Processor.RowItemsShareFinancials | scripts/processor.js:103-109 | every item of one source row carries that row's item name, its cell-3 price and its cell-4 date |
| Processor.BatchSnoc | scripts/processor.js:67-114 | one more source row appends its items, numbered from the state after the earlier rows, and advances the state by its item count |
| Processor.BatchLength | scripts/processor.js:85-101 | the batch has one record per item summed over the rows |
| Processor.StateAfterAppend | scripts/processor.js:63-101 | the ID state after two runs of rows is the state after the second run started from the state after the first |
| Processor.BatchAppend | scripts/processor.js:67-114 | the batch of two runs of rows is the first batch followed by the second, numbered from the state the first leaves |
| Processor.IdsConsecutive | scripts/processor.js:98-101 | once seeded, the j-th emitted record gets the counter plus j, padded, and the counter grows by exactly one per emitted record |
| Processor.RawIdsUntilSeeded | scripts/processor.js:72-98 | until a row seeds the state, every record carries its row's raw id unchanged and the state stays unset |
| Processor.SeedingRowAlike | scripts/processor.js:72-79 | the seeding row is numbered from the state it seeds itself |
| Processor.SplitAtFirstSeed | scripts/processor.js:72-101 | the batch is the raw-id records of the rows before the first seeding row, then the numbered records seeded by that row |
| Processor.RoleOfFirstMatch | scripts/processor.js:103-111 | a header's role is the first upper-case keyword rule it matches, in the order ID, NAME/CUSTOMER, PRODUCT/DESC, PRICE/AMOUNT, DATE, and no rule matching means unmapped |
| Processor.FillRow | scripts/processor.js:103-111 | an output row has exactly one entry per template header |
| Processor.DesktopSheetShape | scripts/processor.js:44-113 | the output sheet is the template header row followed by one row per item; every row is as wide as the template |
| Processor.ConvertSheet | scripts/processor.js:63-114 | the `eachRow` loop with its mutable id counter produces exactly the desktop sheet |
| Processor.ConvertRow | scripts/processor.js:67-113 | one source row emits the filled rows of its items, and the mutable prefix, counter and padding then encode the advanced state |
| Processor.InitIds | scripts/processor.js:70-79 | the id variables encode the state after the initialisation step |
| Processor.EmitItems | scripts/processor.js:93-113 | the per-item loop emits the rows of the items and advances the counter by the item count |
| Processor.FillRowLoop | scripts/processor.js:103-111 | the header loop's pushes build exactly the row for the item |
| Processor.ConvertToDesktopFormat | scripts/processor.js:21-118 | the customer loop produces the outputs of the customers in order, skipping those without a directory or an `.xlsx` file |
| Processor.ConvertCustomer | scripts/processor.js:25-50 | one customer yields the conversion of its newest file, or nothing |
| Processor.OutputsNamedPerCustomer | scripts/processor.js:23-117 | there is at most one output per customer, each named `processed_<customer>.xlsx` after a customer that has a directory |
| Processor.OutputNameInjective | scripts/processor.js:117 | different customers get different output file names |
| Processor.OutputsDistinctFiles | scripts/processor.js:23-117 | when no customer is listed twice, no two outputs share a file name |
| Processor.DesktopFilesDistinct | scripts/processor.js:23-117 | for the three configured customers the driver never writes two outputs to the same file |
| ProcessorExamples.ExampleItems | scripts/processor.js:85-87 | `Mouse/Keyboard` is split into two items |
| ProcessorExamples.ExampleSeed | scripts/processor.js:72-78 | the raw id `INV-001` seeds prefix `INV-`, counter 1 and width 3 |
| ProcessorExamples.ExampleFormat | scripts/processor.js:99 | counters 1, 2 and 3 with prefix `INV-` and width 3 render as `INV-001`, `INV-002` and `INV-003` |
| ProcessorExamples.ExampleIds | scripts/processor.js:93-101 | a two-item row with raw id `INV-001` followed by a row with `INV-002` yields `INV-001`, `INV-002` and `INV-003` |
| Sorting.Insert | scripts/processor.js:35 | inserting adds the element to the multiset, and it goes first unless the head has a larger key |
| Sorting.InsertSorted | scripts/processor.js:35 | inserting into a newest-first sequence keeps it newest first |
| Sorting.SortDesc | scripts/processor.js:35 | the sort is a permutation of its input, ordered by key with the largest first |
| Sorting.InsertMapMultiset | scripts/processor.js:35 | inserting adds exactly the image of the new element to the multiset of images |
| Sorting.SortDescMapMultiset | scripts/server.js:464-473 | sorting permutes the names of the entries |
| Sorting.FirstMax | scripts/processor.js:35-39 | the index holds the largest key, and no earlier element has a key as large |
| Sorting.SortFirstIsFirstMax | scripts/processor.js:35-39 | the stable sort puts first the earliest element with the largest key |
| Sorting.InsertKeepsSameKey | scripts/processor.js:35 | inserting an element puts it in front of every element with the same key and leaves their order alone |
| Sorting.SortDescStable | scripts/processor.js:35 | the sort is stable: for every key, the elements with that key come out in their original order |
| Sorting.Newest | scripts/uploader.js:36-40 | there is no file exactly for an empty listing; otherwise the result is the earliest listed file with the greatest time |
| Sorting.WithExtension | scripts/server.js:465 | the result holds exactly the listed entries whose name ends with the extension |
| JsText.Trim | scripts/processor.js:86 | the result is the slice of the input after its leading white space, with only white space after it, and it neither starts nor ends with white space |
| JsText.TrimIdempotent | scripts/processor.js:86 | trimming twice equals trimming once |
| JsText.TrimUnpadded | scripts/processor.js:86 | a string that starts and ends with non-space is its own trim |
| JsText.Utf16Length | scripts/server.js:302 | a string's `length` counts between one and two code units per character |
| JsText.Utf16LengthBmp | scripts/server.js:302 | a string inside the Basic Multilingual Plane has as many code units as characters |
| JsText.Utf16LengthAppend | scripts/server.js:302 | code units add up over a concatenation |
| JsText.PadStart | scripts/processor.js:99 | the result is at least as long as the width, never truncated; it ends with the input and is filled before it |
| JsText.Split | scripts/processor.js:86 | there is at least one part, and no part holds the separator |
| JsText.SplitNoSep | scripts/processor.js:85-87 | a string without the separator splits into itself |
| JsText.SplitAtSep | scripts/processor.js:86 | splitting `a + sep + b` gives `a` followed by the parts of `b` |
| JsText.JoinSplit | scripts/uploader.js:80 | joining the parts of a split restores the string |
| JsText.SplitJoin | scripts/uploader.js:80 | splitting joined separator-free parts gives the parts back |
| JsText.NatToString | scripts/processor.js:99 | the decimal rendering is non-empty, all digits, and only `0` starts with `0` |
| JsText.ParseNatToString | scripts/processor.js:76 | parsing the decimal rendering of n gives n |
| JsText.NatToStringParse | scripts/processor.js:76 | a digit run without a leading zero is the rendering of its value |
| JsText.PadRoundTrip | scripts/processor.js:73-99 | `String(parseInt(d)).padStart(d.length, '0')` reproduces any digit run d, leading zeros included |
| Cells.QuoteJson | scripts/processor.js:58 | the serialisation of a string is enclosed in double quotes |
| Cells.DataRowsIsFilter | scripts/processor.js:67-68 | the rows `eachRow` hands on are exactly the rows after row 1 that hold a value, in order |
| ServerCells.Render | scripts/server.js:22-32 | the value a cell yields is always a primitive, and a primitive is kept as it is |
| ServerCells.CellValue | scripts/server.js:11-33 | the server's normaliser always yields a primitive |
| ServerCells.CellValueCases | scripts/server.js:13-32 | an empty cell reads as `''`; formula results, hyperlink texts and primitives read as themselves; a Date reads as its ISO calendar day; rich text reads as the concatenation of its runs; anything else reads as JSON |
| ServerCells.DateReadsAsCalendarDay | scripts/server.js:23-25 | a valid Date reads as the part of its ISO string before `T` |
| ServerCells.InvalidDateReadsAsShown | scripts/server.js:26-27 | an invalid Date reads as its `toString` |
| ServerCells.AgreesWithProcessor | scripts/server.js:11-33 | the two normalisers agree up to rendering, except for rich text and empty hyperlinks, where the processor yields JSON |
| Store.Merge | scripts/server.js:192 | the merge has the keys of both records, the body's values winning |
| Store.HeaderCellsSound | scripts/server.js:133-136 | every header is a non-empty cell of row 1 at its 1-based column, and the columns increase |
| Store.HeaderCellsComplete | scripts/server.js:133-136 | every non-empty cell of row 1 is a header at its column |
| Store.KeyOfShape | scripts/server.js:145 | a key is the header text with ASCII letters lower-cased and every space turned into `_`, letter for letter |
| Store.FillRecordKeys | scripts/server.js:144-147 | filling adds exactly the header keys to the record |
| Store.FillRecordKeeps | scripts/server.js:144-147 | a key no header writes keeps its value |
| Store.FillRecordLastWins | scripts/server.js:144-147 | for a key written by several headers, the value read for the last of them wins |
| Store.NewRecordShape | scripts/server.js:138-147 | an uploaded record has `id`, `customer` and the header keys; `customer` is upper-cased and each header key reads its column |
| Store.ByCustomer | scripts/server.js:162-168 | with no customer or `all`, the whole store is returned; otherwise exactly the records whose customer matches case-insensitively are returned, in their stored order (the subsequence `Seqs.Filter` keeps); the filter fails with 500 exactly when some record has no string customer |
| Store.WithoutId | scripts/server.js:173 | the result keeps exactly the records without the id |
| Store.DeleteRemovesExactly | scripts/server.js:173 | deleting removes exactly the records with the id, keeps the order of the rest, and changes nothing when no record has it |
| Store.WithoutIds | scripts/server.js:182 | the result keeps exactly the records whose id is not listed |
| Store.BulkDeleteRemovesExactly | scripts/server.js:179-184 | bulk delete splits the store, as a multiset, into the kept records and the records whose id is listed; the kept part is taken piecewise over any split of the store, so order is kept; an empty list changes nothing |
| Store.Updated | scripts/server.js:188-197 | an unknown id gives None; otherwise only the first record with the id is replaced, by its merge with the body |
| Store.DataStore.constructor | scripts/server.js:40-51 | the store starts with the loaded records |
| Store.DataStore.Clear | scripts/server.js:117-121 | the store becomes empty, answered with 200 `All data cleared` |
| Store.DataStore.Upload | scripts/server.js:124-159 | the store is extended by one record per data row; a missing customer fails with 500 before any push |
| Store.DataStore.BuildRecord | scripts/server.js:140-147 | building field by field gives the record of the row |
| Store.DataStore.Query | scripts/server.js:162-169 | the answer is the customer filter of the store |
| Store.DataStore.Delete | scripts/server.js:172-176 | the store loses exactly the records with the id, answered with 200 `Deleted` |
| Store.DataStore.BulkDelete | scripts/server.js:179-185 | a non-array is refused with 400 and the store is unchanged; otherwise the listed ids are removed and the count of ids is reported |
| Store.DataStore.Update | scripts/server.js:188-197 | an unknown id gives 404 with no change; otherwise the first match is merged with the body and the answer is 200 |
| Store.NewEntry | scripts/server.js:218-222 | the entry has `id`, `timestamp` and the body's keys; the body's values win |
| Store.ListingFilteredAndSorted | scripts/server.js:202-213 | the history listing is sorted newest first and fails exactly when narrowed over an entry without a string customer; unnarrowed it is a permutation of the stored entries, narrowed a permutation of the customer's entries (each as often as stored) |
| Store.HistoryLog.constructor | scripts/server.js:53-64 | the history starts with the loaded entries |
| Store.HistoryLog.Add | scripts/server.js:217-226 | the new entry is appended and returned with 201 |
| Store.HistoryLog.List | scripts/server.js:202-214 | the answer is the filtered, sorted listing; an unfiltered listing sorts the stored history in place |
| Store.HistoryLog.Delete | scripts/server.js:229-234 | the history loses exactly the entries with the id |
| MagicExtract.AmountEndMatches | scripts/server.js:311 | the end found is the end of an amount match at p |
| MagicExtract.AmountEndBoundsMatches | scripts/server.js:311 | every amount match at p ends no later than the end found |
| MagicExtract.AmountEndIsLongestMatch | scripts/server.js:311 | the end found is the longest amount match at p, and there is none exactly when no match exists |
| MagicExtract.AmountSpans | scripts/server.js:311 | the global scan's spans are non-empty, lie in the line after the start, are ordered and do not overlap |
| MagicExtract.AmountSpansAreMatches | scripts/server.js:311 | every span is a longest amount match |
| MagicExtract.AmountSpansMissNothing | scripts/server.js:311 | no amount match starts between spans or after the last one |
| MagicExtract.Amounts | scripts/server.js:311 | every matched amount text is non-empty |
| MagicExtract.StripLeavesNoDigit | scripts/server.js:315 | removing every amount match leaves no digit |
| MagicExtract.StripRemovesMatches | scripts/server.js:315 | the stripped text is as long as the line less the characters the amount matches cover |
| MagicExtract.RemoveFirstQtyWithoutDigits | scripts/server.js:315 | the quantity removal after stripping changes nothing |
| MagicExtract.UnitThenBoundary | scripts/server.js:312 | a unit word is taken only where a word boundary follows it |
| MagicExtract.QtyEndMatches | scripts/server.js:312 | the end found is the end of a quantity match at p |
| MagicExtract.QtyEndBoundsMatches | scripts/server.js:312 | every quantity match at p ends no later than the end found |
| MagicExtract.QtyEndIsLongestMatch | scripts/server.js:312 | the end found is the longest quantity match at p, and there is none exactly when no match exists |
| MagicExtract.FirstQty | scripts/server.js:312 | the first quantity match is the leftmost start, with the longest match there |
| MagicExtract.LineRowFields | scripts/server.js:314-319 | quantity defaults to `1`; unit price is the first amount or `0`; total is the last of two or more amounts, else the unit price; the item name is the trimmed stripped line and holds no digit |
| MagicExtract.CandidateLines | scripts/server.js:302 | the candidate lines are exactly the lines of the text whose trimmed length, in UTF-16 code units, exceeds 3 |
| MagicExtract.RowsOfUsable | scripts/server.js:309-322 | the rows are the records of the lines whose item name is longer than 2 UTF-16 code units, in order |
| MagicExtract.RespondOutcome | scripts/server.js:324-333 | with some usable line the answer is the four product columns and the usable rows; otherwise it is `Original Text` with one record per candidate line |
| MagicExtract.RespondKeys | scripts/server.js:306-329 | every record has exactly the answer's columns as keys |
| MagicExtract.RowsKeys | scripts/server.js:314-321 | every row record has exactly the four product keys |
| MagicExtract.RowsEmpty | scripts/server.js:321-325 | there are no rows exactly when no line is usable |
| MagicExtract.CollectRows | scripts/server.js:309-322 | the `forEach` with `push` collects exactly the rows |
| MagicExtract.MagicExtract | scripts/server.js:288-338 | the handler answers the extraction, with 400 for missing text and 200 otherwise |
| MagicExtract.ExtractOutcome | scripts/server.js:288-333 | missing or empty text is an error; otherwise the answer takes the product or the raw-line form as in Respond, over the candidate lines |
| ServerViews.ExportExcel | scripts/server.js:339-355 | missing columns or data give 400; otherwise the sheet is the export of the data |
| ServerViews.ExportedShape | scripts/server.js:348-355 | the header row is the columns; every item gives a row with one cell per column, holding the item's truthy value or `''` |
| ServerViews.RespondFilled | scripts/server.js:314-333 | every record of an extraction holds non-empty strings |
| ServerViews.ExtractionFilled | scripts/server.js:288-333 | every record extracted from text holds non-empty strings |
| ServerViews.ParsedFilled | scripts/server.js:316-318 | quantity, unit price and total of every line row are non-empty |
| ServerViews.ExportOfFilled | scripts/server.js:352-355 | exporting filled records with the right keys reproduces every value |
| ServerViews.ExportOfExtraction | scripts/server.js:288-355 | exporting an extraction reproduces every extracted value in its column |
| ServerViews.ListFilesOrder | scripts/server.js:464-473 | the listing holds the names of the `.xlsx` files, each as often as listed, newest first, with the newest file first |
| CentralAgent.SourceHeaderFirst | scripts/customer_to_central_agent.js:78 | the source header is the first mapping key whose value is the canonical name, and none exists exactly when no key maps to it |
| CentralAgent.IndexOf | scripts/customer_to_central_agent.js:79 | the result is the first position of the header, or -1 exactly when it is absent |
| CentralAgent.MappedCellCases | scripts/customer_to_central_agent.js:78-84 | a header that is not found gives `''` for that cell; otherwise the cell is at position `colIndex + 1` |
| CentralAgent.ConvertedShape | scripts/customer_to_central_agent.js:68-87 | the output is the canonical header row (`id, item_name, total_price, date`) followed by one 4-cell row per data row, each cell resolved through the mapping |
| CentralAgent.GapFreeHeaderReadsItsColumn | scripts/customer_to_central_agent.js:62-81 | a source header with only non-empty cells before it reads its own column |
| CentralAgent.HeaderGapsShiftColumn | scripts/customer_to_central_agent.js:62-81 | a source header at column p with g empty header cells before it reads the row's cell at column p - g |
| CentralAgent.TruthyPosition | scripts/customer_to_central_agent.js:62-79 | the position `indexOf` finds among the truthy header cells is the header's own position less the falsy cells before it |
| CentralAgent.HeaderGapShiftsColumn | scripts/customer_to_central_agent.js:62-81 | worked example: with `ID`, an empty cell and `Product` in row 1, `item_name` is read from column 2 |
| CentralAgent.DefaultMappingResolves | scripts/customer_to_central_agent.js:8-21 | the default mapping resolves the four canonical names to `ID`, `Product`, `Amount` and `Date` |
| CentralAgent.ConvertSheet | scripts/customer_to_central_agent.js:69-87 | the `eachRow` loop builds exactly the converted sheet |
| CentralAgent.ConvertRow | scripts/customer_to_central_agent.js:73-85 | the inner push loop builds exactly the central row |
| CentralAgent.OutcomeCases | scripts/customer_to_central_agent.js:28-111 | an empty file list skips the customer; otherwise `files[0]` is converted and uploaded; any failure gives an error outcome |
| CentralAgent.RunAgent | scripts/customer_to_central_agent.js:25-115 | every customer gets its own outcome, and an error for one does not stop the loop |
| SmartDownloader.LatestFileReasons | scripts/smart_downloader.js:59-110 | a missing file name gives `no_files`, a failed fetch gives `download_failed` with the name, and a crash gives `error` |
| SmartDownloader.OutcomeCases | scripts/smart_downloader.js:114-162 | a failed download keeps its reason and the ledger; a known name is `already_processed` with no change; a new name is appended once with `downloaded: true`; other customers are untouched |
| SmartDownloader.DownloadedIffRecorded | scripts/smart_downloader.js:132-161 | the result is `downloaded` exactly when the ledger changes |
| SmartDownloader.RecordIdempotent | scripts/smart_downloader.js:146-154 | recording the same download twice changes nothing the second time, and the second time is `already_processed` |
| SmartDownloader.RecordKeepsDistinct | scripts/smart_downloader.js:146-158 | the per-customer lists stay free of duplicates |
| SmartDownloader.Tracker.constructor | scripts/smart_downloader.js:115-121 | the tracker starts with the saved ledger |
| SmartDownloader.Tracker.SmartDownload | scripts/smart_downloader.js:114-162 | the result and the new ledger are the outcome and the recording of the download |
| SmartAutomation.SummariesOfRuns | scripts/smart_automation.js:46-71 | the summaries are those of the runs that printed a `Result:` line, in order |
| SmartAutomation.StatusCases | scripts/smart_automation.js:56-70 | an exception gives `error`, `downloaded: true` gives `new_file`, any other result gives `no_new_file`, and no result line gives no summary |
| SmartAutomation.AssignLookup | scripts/smart_automation.js:62 | assigning a key sets it and leaves every other key and the distinctness of keys alone |
| SmartAutomation.ProcessedFilesLookup | scripts/smart_automation.js:41-62 | `processedFiles` maps each customer to its last new file, and it is empty exactly when no run was new |
| SmartAutomation.Classify | scripts/smart_automation.js:39-71 | the config loop computes the new-file flag, the summaries and the processed files |
| SmartAutomation.NewEntryMatches | scripts/smart_automation.js:10-26 | the posted entry matches its customer and downloaded file |
| SmartAutomation.LoggedCases | scripts/smart_automation.js:6-31 | an unreachable history changes nothing; a duplicate posts nothing; otherwise exactly one entry is added; after a post the pair is present |
| SmartAutomation.LoggingIsIdempotent | scripts/smart_automation.js:10-18 | logging the same pair again adds nothing |
| SmartAutomation.LogProcessingHistory | scripts/smart_automation.js:6-31 | the history becomes the logged history |
| SmartAutomation.LoggedAllKeepsPairs | scripts/smart_automation.js:109-128 | after the logging loop, every pair that was present or was posted is present |
| SmartAutomation.KeepsDuplicate | scripts/smart_automation.js:10-26 | logging never removes a pair that is present |
| SmartAutomation.RunSmartAutomation | scripts/smart_automation.js:33-131 | with no new file the run stops before processing or logging; a failed processor logs nothing; otherwise every processed file is logged |
| Uploader.OriginalFileCases | scripts/uploader.js:31-42 | the original file is `N/A` exactly when there is no temp listing or no `.xlsx` file; otherwise it is a newest `.xlsx` file |
| Uploader.NewestXlsx | scripts/uploader.js:36-40 | the chosen name is a newest `.xlsx` entry of the listing |
| Uploader.NewestOfSelection | scripts/uploader.js:36-40 | the entry with the greatest time among the `.xlsx` files is a newest `.xlsx` entry of the listing |
| Uploader.UploadStepCases | scripts/uploader.js:12-78 | a missing processed file logs nothing; a duplicate pair is skipped; a failed history fetch still logs; a post adds one entry, and a failed post adds none |
| Uploader.StepLine | scripts/uploader.js:16-76 | a customer produces a line exactly when its processed file exists, and the line is a single line |
| Uploader.StepKeepsMatch | scripts/uploader.js:45-77 | a step never removes a pair that is present |
| Uploader.StepRecords | scripts/uploader.js:57-74 | after a successful post or a skip, the pair is present |
| Uploader.RepeatIsSkipped | scripts/uploader.js:49-61 | a pair already present is skipped and the history keeps its entries |
| Uploader.OneLinePerProcessed | scripts/uploader.js:12-78 | there is one result line per customer with a processed file |
| Uploader.LinesAreSingleLines | scripts/uploader.js:59-76 | no result line holds a newline |
| Uploader.RunRecordsPosted | scripts/uploader.js:12-78 | every successfully posted customer's pair is in the final history |
| Uploader.LogToHistory | scripts/uploader.js:6-81 | the history becomes the run's history, and the answer is its lines joined with newlines |
| Uploader.AnswerLines | scripts/uploader.js:80 | the answer splits back into its result lines, one per processed customer |
| UniversalBot.FindSite | scripts/universal_bot.js:8-13 | the site found is the first with the id, and there is none exactly when no site has it |
| UniversalBot.WatchFolder | scripts/universal_bot.js:108-128 | the bounded tick loop with its flags ends as the watch does |
| UniversalBot.RunBot | scripts/universal_bot.js:5-28 | an unknown site aborts before any work; otherwise the watch is run in the site's download directory |
| UniversalBot.RunBotOutcome | scripts/universal_bot.js:21-128 | the directory is `../websites` exactly for `excel`; success is false only when no tick met a stopping test, and then all 120 ticks were read |
| UnsplashDownloader.MonitorDownload | scripts/unsplash_downloader.js:93-126 | the loop ends as the watch does, and it warns exactly when the download never started and the final count is at most the initial count |
| UnsplashDownloader.WarningCases | scripts/unsplash_downloader.js:122-126 | the warning is given exactly when no listing read was partial and the final count is at most the initial count |
| UnsplashDownloader.StoppedWithoutWarning | scripts/unsplash_downloader.js:105-126 | a watch that stopped at a listing gives no warning for that listing |
| Monitor.PartialsAndFinished | scripts/universal_bot.js:114-115 | partial and finished entries split the listing: each entry is in exactly one of them, as often as it is listed |
| Monitor.ObserveCounts | scripts/universal_bot.js:114-115 | the counts of a listing are the lengths of `crFiles` and `finishedFiles` |
| Monitor.ObserveSplitsListing | scripts/universal_bot.js:114-117 | the counts add up to the listing, and there are no partials exactly when no entry is partial |
| Monitor.StartedBeforeSome | scripts/universal_bot.js:117-118 | `downloadStarted` holds exactly when some earlier listing was partial |
| Monitor.WatchStep | scripts/universal_bot.js:117-124 | a partial listing raises the flag and goes on; a listing without partials stops when the test holds, and goes on otherwise |
| Monitor.RunsThroughAll | scripts/universal_bot.js:111-124 | running through a tick means no earlier tick met the stopping test |
| Monitor.WatchFromOutcome | scripts/universal_bot.js:111-124 | a watch from any tick ends within the limit, with the right flag, at the first stopping tick or at the limit |
| Monitor.WatchOutcome | scripts/universal_bot.js:111-128 | the watch reads at most 120 listings; it stops exactly when some tick meets the test, at the first such tick; the flag says whether any listing read was partial |
| Monitor.StoppedWatch | scripts/universal_bot.js:117-124 | a stopped watch ended on a listing without partials, after a start or with more finished entries than before |
| DownloadFiles.QuoteFromIsFirst | download_files.js:31 | the position found is the first `"` from i, or the end |
| DownloadFiles.ScanMatches | download_files.js:31 | every start the scan reports is a match |
| DownloadFiles.ScanOrdered | download_files.js:31 | the matches are in order and do not overlap |
| DownloadFiles.ScanFindsFirst | download_files.js:31 | the scan finds nothing exactly when no match exists, and otherwise it starts at the first match |
| DownloadFiles.ScanSkipsNothing | download_files.js:31 | no match starts between two reported matches |
| DownloadFiles.ScanAfterLast | download_files.js:31 | no match starts after the last reported one |
| DownloadFiles.ScanShift | download_files.js:31 | scanning after a prefix finds the matches of the suffix, shifted |
| DownloadFiles.Captures | download_files.js:32 | there is one name per match |
| DownloadFiles.CapturesAt | download_files.js:32 | the k-th name is the capture of the k-th match |
| DownloadFiles.MatchIsLink | download_files.js:31-32 | every match is the link of its non-empty, quote-free capture |
| DownloadFiles.CaptureLinkable | download_files.js:31-32 | every captured name is non-empty and quote-free |
| DownloadFiles.NamesAreLinks | download_files.js:31-32 | the names are the captures of the links in the page, in order of appearance |
| DownloadFiles.CapturesShift | download_files.js:31-32 | captures after a prefix are those of the suffix |
| DownloadFiles.LinkMatches | download_files.js:31-32 | a link matches at its start and captures its name |
| DownloadFiles.LinkFirst | download_files.js:31-32 | a page that starts with a link yields its name first |
| DownloadFiles.LinksRoundTrip | download_files.js:31-32 | a page made of links to some names yields exactly those names |
| DownloadFiles.NoNamesNoLinks | download_files.js:31-40 | there are no names exactly when the page holds no link |
| DownloadFiles.Pick | download_files.js:42 | `Math.floor(Math.random() * n)` is a valid index |
| DownloadFiles.PickEach | download_files.js:42-43 | every index can be picked |
| DownloadFiles.PlanCases | download_files.js:37-47 | no link means no download; otherwise the file is one of the names and the URL is the base, `/`, and the encoded name, which decodes back to the name |
| DownloadFiles.EveryLinkReachable | download_files.js:42-47 | every listed name is fetched for some random value, at its encoded URL |
| UriComponent.HexDigit | download_files.js:47 | a hex digit is upper-case hexadecimal |
| UriComponent.Utf8 | download_files.js:47 | UTF-8 encodes a code point in 1 to 4 bytes |
| UriComponent.EncodeAlphabet | download_files.js:47 | the encoding holds only unreserved characters and `%` with upper-case hex digits |
| UriComponent.EncodeUnreserved | download_files.js:47 | a string of unreserved characters is its own encoding |
| UriComponent.HexRoundTrip | download_files.js:47 | every hex digit reads back as its value |
| UriComponent.PercentRoundTrip | download_files.js:47 | a percent-encoded byte reads back as itself |
| UriComponent.PercentAllRoundTrip | download_files.js:47 | a run of percent-encoded bytes reads back as the bytes |
| UriComponent.Utf8WellFormed | download_files.js:47 | each character's UTF-8 bytes are well formed and decode to its code point |
| UriComponent.DecodeEncodeChar | download_files.js:47 | decoding an encoded character followed by more text gives the character followed by the rest |
| UriComponent.DecodeSequence | download_files.js:47 | a well-formed percent-encoded sequence decodes to its code point |
| UriComponent.DecodeEncode | download_files.js:47 | decoding the encoding of any string gives the string back |

## Left out

- Browser automation is left out: logging in, navigating, clicking and the page contents.
  These are calls into a browser the model cannot see. The page body and the clicked file
  name are parameters.
- HTTP is left out: express routing, multer uploads, axios calls and FormData. Each request
  is a method call with its body as arguments, and each answer is a status and a value.
- Filesystem I/O is left out: directory listings, `stat`, reading and writing the JSON
  store, history and ledger files, and unlinking temp files. Listings are sequences of
  `(name, mtime)` entries; persisted state is what a constructor receives and a method
  leaves.
- ExcelJS parsing and writing are left out. A workbook is its first worksheet, a sequence
  of rows of cells, and the output sheets are sequences of rows.
- Child processes (`execSync`) and the parsing of their output are left out, and so are
  sleeps, timeouts and log lines.
- `Math.random`, `Date.now` and `new Date()` are parameters: a random value, a generated
  id, a timestamp. Date values are given by their two renderings, and the timestamps of
  history entries are read by a `time` function parameter.
- JavaScript numbers are left out. Numbers are unbounded integers, so floating-point
  rendering, NaN and overflow are not modelled. A sort comparator that yields NaN is not
  modelled either.
- Case conversion is ASCII-only.
- Processor.TemplateHeaders: the template's header cells are taken to be strings. A
  non-string header makes `header.toUpperCase()` (scripts/processor.js:104) throw, and that
  failure is not modelled.
- The ECMAScript regular-expression engine in general is left out. The amount, quantity,
  trailing-number and link patterns are written out as scanners proved to find the matches
  the engine reports.
- Lone UTF-16 surrogates, for which `encodeURIComponent` throws, are left out. Strings are
  sequences of Unicode scalar values.
- Object key order follows the mapping tables as sequences. The integer-like key ordering
  of JavaScript objects is not modelled.
- `path.join` normalisation is left out. Paths are the joined strings.
- The remaining dashboard endpoints are not modelled:
  - the original-file download and preview,
  - the site file upload and file deletion,
  - run-automation,
  - static file serving.
- audio_downloader.js, scripts/downloader.js, scripts/test_automation.js,
  scripts/create_dummy_data.js, scripts/create_template.js, check_headers.js and
  check_headers_all.js are not part of this model. They are I/O drivers and fixtures.
- Monitor.Observe counts the partial and finished entries of a listing instead of building
  the two arrays. `Monitor.ObserveCounts` proves the counts equal the arrays' lengths.
- DownloadFiles.QuoteFrom: its own contract states only the bounds. Where the quote lies is
  stated by `DownloadFiles.QuoteFromIsFirst`.
- DownloadFiles.Captures: its own contract states only the length. The content is stated by
  `DownloadFiles.CapturesAt`.
- Processor.FillRow: its own contract states only the width. Which value fills each column is
  stated through the roles of `Processor.RoleOfFirstMatch`.
