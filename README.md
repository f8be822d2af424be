# Financial analyser: the deterministic core, in Dafny

The repository scrapes quarterly reports of two companies listed on the
Colombo Stock Exchange, Dipped Products PLC (DIPD) and Richard Pieris
Exports PLC (REXP). One step copies the income-statement page of each PDF
into a second directory. A separate step sends each scraped report, whole and
from the scrape directory, to an LLM for six metrics. It builds one CSV table
per company from those replies, turns the
table rows into passages for a vector store, and shows a dashboard over the
table. This project models the deterministic logic between those library
calls and proves what that logic guarantees.

| file | module | models |
|---|---|---|
| `wrappers.dfy` | `Wrappers` | `Option` |
| `strings.dfy` | `Strings` | `str.strip`, `lower`, `isalnum` filtering, `", ".join`, decimal rendering |
| `config.dfy` | `Config` | the constants of `src/backend/core/config.py` |
| `periods.dfy` | `Periods` | `MM/YYYY` periods: `pd.to_datetime(…, format="%m/%Y")`, their order, `strftime('%m/%Y')` |
| `dataset_creation.dfy` | `DatasetCreation` | metric-name normalisation, reply cleaning, the JSON slice, records, and the per-company table |
| `extract_data.dfy` | `ExtractData` | the page scan and the success/failed bookkeeping of `data_extractor` |
| `rag_vector_save.dfy` | `RagVectorSave` | the passage and metadata built per table row by `load_and_prepare_documents` |
| `web_scrape.dfy` | `WebScrape` | ticker extraction, PDF-link collection, output directory and file names |
| `company_route.dfy` | `CompanyRoute` | the dispatch of `company_process` on the company name |
| `dashboard.dfy` | `Dashboard` | the dashboard's header rewriting to `MM/YYYY` and its date-range column filter |

Every library call is a parameter:
- `json.loads` is `parse: string -> Option<Dict>`.
- The page-marker `re.search` is `search: (string, string) -> bool`.
- The LLM's reply text is an input (`None` when the upload or the call raised).
- PDF opening, page text, listings, CSV reads and HTTP downloads are inputs as well.

Loops in the source are methods with loop invariants. Each method is
proved equal to a specification function. The properties are proved as
lemmas about those functions.

A few behaviours of the code are easy to misread:
- A metric key such as `" Period"` strips to `"Period"` and is not the
  period key itself, so it does end up among the metrics
  (`DatasetCreation.SpacedPeriodKeyIsAMetric`). The period is kept out of
  the metrics only when no other key strips to `"Period"`
  (`DatasetCreation.PeriodNotAMetric`).
- The ticker pattern `symbol=([A-Z]+)\.N0000` can itself capture the word
  `UNKNOWN`. So `"UNKNOWN"` from `WebScrape.ExtractSymbol` does not by
  itself mean there was no match, and the contract states both directions
  separately.
- On the dashboard, a header written with a one-digit month such as
  `3/2022` passes formatting unchanged and parses. `strftime` then writes
  it back as `03/2022`, which is not a column name, so that column never
  reaches the filtered view (`Dashboard.OneDigitMonthColumnHidden`).
- A dashboard header that pandas reads as NaT, such as `nan`, passes the
  parsing step, and the page then stops at the date-range comparison
  (`Dashboard.NatLabelStops`).
- The dataset builder reads each company's `input_dir`, where the scraper
  saves the whole reports (`WebScrape.OutputDirIsInputDir`), not the
  `output_dir` that holds the selected pages.

## Model

| member | source | states |
|---|---|---|
| `Strings.Strip` | src/backend/services/dataset_creation.py:120 | The result is the input with its maximal leading and trailing whitespace runs removed, using Python's `isspace` set; it neither begins nor ends with whitespace |
| `Strings.StripOfTrimmed` | src/backend/services/dataset_creation.py:32 | A string that neither begins nor ends with whitespace is its own strip |
| `Strings.StripIdempotent` | src/backend/services/dataset_creation.py:32 | Stripping twice is the same as stripping once |
| `Strings.Lower` | src/backend/routes/get_company_route.py:22 | Lower-casing keeps the length and lower-cases each character in place |
| `Strings.KeepAlnum` | src/frontend/app.py:69 | The result holds only alphanumeric characters, is no longer than the input, and equals the input when all of it is alphanumeric; a one-character string is kept iff that character is alphanumeric |
| `Strings.KeepAlnumConcat` | src/frontend/app.py:69 | Filtering a concatenation is the concatenation of the filtered parts |
| `Strings.Join` | src/backend/services/rag_vector_save.py:39 | Joining no parts gives the empty string; joining one part gives that part |
| `Strings.JoinSnoc` | src/backend/services/rag_vector_save.py:39 | Joining one more part appends the separator and that part to the join of the others |
| `Strings.NatToString` | src/backend/services/web_scrape.py:67 | The decimal rendering of a counter is a non-empty string of digits |
| `Strings.DecimalRoundTrip` | src/backend/services/web_scrape.py:67 | Reading the decimal rendering back gives the number |
| `Strings.NatToStringInjective` | src/backend/services/web_scrape.py:67 | Different counters render differently |
| `Periods.Parse` | src/backend/services/dataset_creation.py:39-44 | An accepted period is six or seven characters long and lies in the pandas timestamp range (10/1677 to 04/2262) |
| `Periods.Render` | src/frontend/app.py:109 | `strftime('%m/%Y')` writes seven characters with `/` third |
| `Periods.ParseRender` | src/frontend/app.py:108-112 | Parsing what `strftime` wrote gives back the same month |
| `Periods.RenderParse` | src/frontend/app.py:108-112 | A two-digit-month label is rewritten by parse-then-`strftime` to itself |
| `Periods.KeyInjective` | src/backend/services/dataset_creation.py:156 | Two months with the same sort key are the same month |
| `Periods.CanonicalKeyInjective` | src/backend/services/dataset_creation.py:156 | Two two-digit-month labels with the same sort key are the same label |
| `DatasetCreation.TargetMetricsTrimmed` | src/backend/services/dataset_creation.py:12-19 | None of the six metric names carries surrounding whitespace |
| `DatasetCreation.StandardizeMetric` | src/backend/services/dataset_creation.py:22-32 | A stripped name that is one of the six synonyms becomes its canonical name, which is a target metric; any other name is returned stripped; the result is always stripped |
| `DatasetCreation.StandardizeIdempotent` | src/backend/services/dataset_creation.py:24-32 | Normalising twice is the same as normalising once |
| `DatasetCreation.TargetsAreNotSynonyms` | src/backend/services/dataset_creation.py:12-31 | No target metric name is itself one of the synonyms that get replaced |
| `DatasetCreation.TargetMetricsStandard` | src/backend/services/dataset_creation.py:12-32 | Each target metric name normalises to itself |
| `DatasetCreation.Get` | src/backend/services/dataset_creation.py:133 | `dict.get`: None exactly when no entry has the key, otherwise the value of an entry with that key |
| `DatasetCreation.CleanReply` | src/backend/services/dataset_creation.py:120-126 | The result is a slice of the stripped reply: it starts 7 characters in iff the reply starts with "```json"; after that it stops 3 characters short iff the rest ends with "```"; otherwise it runs to the end |
| `DatasetCreation.CleanFencedReply` | src/backend/services/dataset_creation.py:120-126 | A body wrapped in "```json" and "```" is cleaned back to the body |
| `DatasetCreation.CleanUnfencedReply` | src/backend/services/dataset_creation.py:120-126 | A reply without either fence is only stripped |
| `DatasetCreation.JsonSpan` | src/backend/services/dataset_creation.py:128-130 | The span runs from the first `{` to the last `}`, both included; there is none exactly when no `{` has a `}` after it |
| `DatasetCreation.PeriodKey` | src/backend/services/dataset_creation.py:39-44 | `extract_date`: the month's sort key of a string period that parses; any other period is undated |
| `DatasetCreation.PeriodOf` | src/backend/services/dataset_creation.py:133 | When a key is "Period" the period is exactly the value stored under it; when none is, it is "Unknown" |
| `DatasetCreation.MetricsKeys` | src/backend/services/dataset_creation.py:134 | A name is a metric iff some key other than "Period" normalises to it |
| `DatasetCreation.MetricsLastWins` | src/backend/services/dataset_creation.py:134 | When keys collide after normalisation, the metric holds the value of the last such key |
| `DatasetCreation.StandardizedPeriod` | src/backend/services/dataset_creation.py:22-32 | Only a key that strips to "Period" normalises to "Period" |
| `DatasetCreation.TargetMetricsExcludePeriod` | src/backend/services/dataset_creation.py:12-19 | "Period" is not a target metric, so it never becomes a table row |
| `DatasetCreation.PeriodNotAMetric` | src/backend/services/dataset_creation.py:134 | If no key other than "Period" strips to "Period", then "Period" is not among the metrics |
| `DatasetCreation.SpacedPeriodKeyIsAMetric` | src/backend/services/dataset_creation.py:134 | A key " Period", whatever its value, is kept as a metric named "Period" |
| `DatasetCreation.SpanData` | src/backend/services/dataset_creation.py:128-132 | Without a span there is no data; with one, the data is `json.loads` of exactly that span |
| `DatasetCreation.Metrics` | src/backend/services/dataset_creation.py:134 | The comprehension over the decoded object: each key other than "Period", normalised, mapped to its value, later keys overwriting earlier ones |
| `DatasetCreation.FileRecord` | src/backend/services/dataset_creation.py:61-145 | A file yields a record iff its name ends in .pdf (any case), the LLM call returned text, and the sliced JSON decodes; the record carries the file's name, the decoded object's period and its normalised metrics |
| `DatasetCreation.Records` | src/backend/services/dataset_creation.py:137-145 | `file_data`: the records of the usable files, in listing order |
| `DatasetCreation.RecordsAppend` | src/backend/services/dataset_creation.py:137-145 | The records of a listing are the records of its parts, in order: one file's failure does not affect the others |
| `DatasetCreation.CleanText` | src/backend/services/dataset_creation.py:120-126 | The step-by-step reassignment of `raw_text` computes `CleanReply` |
| `DatasetCreation.DecodeSpan` | src/backend/services/dataset_creation.py:128-132 | The regex search and `json.loads` compute `SpanData` |
| `DatasetCreation.DecodeReply` | src/backend/services/dataset_creation.py:120-132 | Cleaning followed by decoding computes the data of the reply |
| `DatasetCreation.ProcessFile` | src/backend/services/dataset_creation.py:61-145 | One iteration of the file loop yields exactly `FileRecord` |
| `DatasetCreation.ExtractRecords` | src/backend/services/dataset_creation.py:60-145 | The file loop appends exactly `Records(files)`: one record per usable file, in listing order |
| `DatasetCreation.DistinctPeriods` | src/backend/services/dataset_creation.py:156 | The set comprehension: no duplicates; a period is present iff some record carries it and it is not "Unknown"; all-"Unknown" records give no period |
| `DatasetCreation.SortPeriods` | src/backend/services/dataset_creation.py:156 | The result is sorted by date (undated periods last), has the same length and elements as the input, and keeps distinctness |
| `DatasetCreation.TablePeriodsSpec` | src/backend/services/dataset_creation.py:156 | The table's periods are distinct and sorted; they are exactly the non-"Unknown" periods of the records |
| `DatasetCreation.CanonicalPeriodsAscending` | src/backend/services/dataset_creation.py:156 | When every period is a two-digit-month label, the columns are in strictly ascending (year, month) order |
| `DatasetCreation.AllUnknownNoPeriods` | src/backend/services/dataset_creation.py:152-156 | If every period is "Unknown", there are no period columns |
| `DatasetCreation.FirstWithPeriod` | src/backend/services/dataset_creation.py:162 | `next(...)`: the lowest index whose record carries the period, or None when no record does |
| `DatasetCreation.CellsFor` | src/backend/services/dataset_creation.py:163 | A column has one cell per target metric |
| `DatasetCreation.IndexOfHeader` | src/backend/services/dataset_creation.py:164 | The index of a column with that header, or None when no column has it |
| `DatasetCreation.SetColumn` | src/backend/services/dataset_creation.py:164 | Assigning a new header appends the column at the end |
| `DatasetCreation.PeriodColumns` | src/backend/services/dataset_creation.py:160-164 | One column per period, in order, the j-th headed by the j-th period and holding its cells |
| `DatasetCreation.FillAppends` | src/backend/services/dataset_creation.py:160-164 | Filling distinct new periods appends one column per period, in period order |
| `DatasetCreation.TableShape` | src/backend/services/dataset_creation.py:159-164 | The table is the name column (the six metrics in fixed order) followed by one column per sorted distinct period |
| `DatasetCreation.TableCell` | src/backend/services/dataset_creation.py:160-164 | The cell for a metric in a period's column is that metric's value in the first record with the period, or "" when that record lacks it |
| `DatasetCreation.FirstRecordWins` | src/backend/services/dataset_creation.py:162-163 | Records added after the first one with a period do not change that period's column |
| `DatasetCreation.AssembleTable` | src/backend/services/dataset_creation.py:159-164 | The loop over periods builds exactly `Table(records)` |
| `DatasetCreation.Table` | src/backend/services/dataset_creation.py:159-164 | `final_df`: the name column filled with one column per sorted distinct period |
| `DatasetCreation.CompanyTable` | src/backend/services/dataset_creation.py:53-167 | A company's body raises iff its directory cannot be listed or its periods cannot be hashed and sorted (an array or object period, or a null period beside another non-"Unknown" one); otherwise its saved table is `Table(Records(files))` |
| `DatasetCreation.PeriodsRaise` | src/backend/services/dataset_creation.py:148-156 | The period analysis raises: some period is an array or object, or a null period sits beside another non-"Unknown" period |
| `DatasetCreation.NullBesideDatedPeriodRaises` | src/backend/services/dataset_creation.py:156 | A null period next to a parseable period makes the body raise |
| `DatasetCreation.SingleNullPeriodIsAColumn` | src/backend/services/dataset_creation.py:156-164 | When null is the only period besides "Unknown", nothing raises and null is the one period column |
| `DatasetCreation.SuccessPrefix` | src/backend/services/dataset_creation.py:52-173 | The longest prefix on which every step succeeds, with each step's result; the step after it fails |
| `DatasetCreation.SuccessPrefixUnique` | src/backend/services/dataset_creation.py:52-173 | Any sequence meeting those three conditions is that prefix |
| `DatasetCreation.Written` | src/backend/services/dataset_creation.py:52-173 | The tables saved are those of the companies before the first one whose body raises, each its `CompanyTable`; the first failing company saves nothing |
| `DatasetCreation.DatasetMessage` | src/backend/services/dataset_creation.py:169-173 | "Succesful" when every company's table was saved, otherwise the handler's "Error in Dataset creation: " text |
| `DatasetCreation.WrittenUnique` | src/backend/services/dataset_creation.py:52-173 | The saved tables are determined by those conditions |
| `DatasetCreation.AllTablesWritten` | src/backend/services/dataset_creation.py:169 | With every directory listed and no unsortable period, every company's table is saved and the reply is "Succesful" |
| `DatasetCreation.FailureDiscardsLater` | src/backend/services/dataset_creation.py:171-173 | After a failing company no later company is processed, and the reply is the error text |
| `DatasetCreation.MissingDirectoryStops` | src/backend/services/dataset_creation.py:60-173 | A missing input directory stops the run there: the earlier tables are saved and the reply is the error text |
| `DatasetCreation.CreateDataset` | src/backend/services/dataset_creation.py:49-173 | The company loop saves exactly `Written(companies)` and replies "Succesful" when every company completes, the handler's error text otherwise |
| `ExtractData.ScanFrom` | src/backend/services/extract_data.py:34-44 | A match is the lowest matching page at or after the start; no match iff every page there is readable and none matches; a page error implies an unreadable page |
| `ExtractData.FirstMatchIsLowest` | src/backend/services/extract_data.py:34-44 | A matching page preceded only by readable pages is found, at that index or earlier |
| `ExtractData.ScanPages` | src/backend/services/extract_data.py:34-44 | The page loop with its `break` computes `FirstMatch` |
| `ExtractData.FileOutcome` | src/backend/services/extract_data.py:29-56 | Success iff the file opens, a page matches and the output can be written; success writes that single page; no match writes a whole copy under the same name; a page that raises while scanning writes nothing; nothing is written unless the file opens and the output is writable |
| `ExtractData.FirstMatch` | src/backend/services/extract_data.py:34-44 | The scan of the page loop from the first page: the first matching page, no match, or a page that raises first |
| `ExtractData.ListsPartitionPdfNames` | src/backend/services/extract_data.py:24-56 | The success and failed lists together hold each .pdf name exactly once, as multisets |
| `ExtractData.ListsHoldOnlyPdfNames` | src/backend/services/extract_data.py:25 | Names not ending in .pdf (any case) are in neither list |
| `ExtractData.ListsAppend` | src/backend/services/extract_data.py:54-56 | The lists of a listing are the lists of its parts: a failing file does not stop the others |
| `ExtractData.ProcessPdf` | src/backend/services/extract_data.py:26-56 | One file's processing, with its `found` flag, has outcome `FileOutcome` |
| `ExtractData.ProcessCompany` | src/backend/services/extract_data.py:20-56 | The file loop yields exactly the success list, the failed list and the written outputs of the specification functions |
| `ExtractData.ExtractionPartitions` | src/backend/services/extract_data.py:14-66 | When every listing succeeds, the returned lists hold each .pdf name of every company exactly once, concatenated in configuration order |
| `ExtractData.ListingErrorDiscardsLists` | src/backend/services/extract_data.py:68-70 | A listing that fails anywhere makes the whole call return the error string |
| `ExtractData.ErrorPersists` | src/backend/services/extract_data.py:68-70 | Once an error has occurred, the result stays the error |
| `ExtractData.SavedAfterError` | src/backend/services/extract_data.py:68-70 | No further company is processed after the error |
| `ExtractData.DataExtractor` | src/backend/services/extract_data.py:14-70 | The company loop returns `ExtractionOf(inputs)` and writes `SavedOf(inputs)` |
| `RagVectorSave.CellOf` | src/backend/services/rag_vector_save.py:36 | The cell of a column is present iff the row has that column, and it is that column's cell |
| `RagVectorSave.DataPointText` | src/backend/services/rag_vector_save.py:36 | "N/A" when the row has no 'Data Point Name' column; "nan" when that cell is missing; otherwise the cell's text |
| `RagVectorSave.KeptCells` | src/backend/services/rag_vector_save.py:39 | No more values are kept than the row has cells |
| `RagVectorSave.KeptCellsSpec` | src/backend/services/rag_vector_save.py:39 | A (column, value) pair is kept iff the row has it with a present value and the column is not 'Data Point Name' |
| `RagVectorSave.KeptCellsAppend` | src/backend/services/rag_vector_save.py:39 | Kept values follow the row's column order |
| `RagVectorSave.ValueParts` | src/backend/services/rag_vector_save.py:39 | One `col: val` part per kept cell, in order |
| `RagVectorSave.RowDataString` | src/backend/services/rag_vector_save.py:39 | The value list: the kept `col: val` parts joined with ", " |
| `RagVectorSave.Passage` | src/backend/services/rag_vector_save.py:36-40 | The page content: "Company: C (S). Data Point: N. Values: " followed by the value list |
| `RagVectorSave.RowDocument` | src/backend/services/rag_vector_save.py:53 | The document of a row: its passage with the row's metadata |
| `RagVectorSave.PassageWithoutValues` | src/backend/services/rag_vector_save.py:36-40 | A row holding only its data-point name renders as "Company: C (S). Data Point: N. Values: " |
| `RagVectorSave.PassageWithoutDataPoint` | src/backend/services/rag_vector_save.py:36-40 | A row without the 'Data Point Name' column renders "Data Point: N/A" |
| `RagVectorSave.KeptAll` | src/backend/services/rag_vector_save.py:39 | A row of present values and no data-point column keeps every cell, in order |
| `RagVectorSave.RowMetadata` | src/backend/services/rag_vector_save.py:43-51 | The metadata holds company, symbol, source_file and row_index, plus data_point_name and year exactly when those columns exist, with their cell texts |
| `RagVectorSave.BuildMetadata` | src/backend/services/rag_vector_save.py:43-51 | Copying the configured metadata and updating key by key gives `RowMetadata` |
| `RagVectorSave.FileDocuments` | src/backend/services/rag_vector_save.py:21-53 | A missing or unreadable file gives no document; otherwise one document per row |
| `RagVectorSave.FileDocumentsAt` | src/backend/services/rag_vector_save.py:34-53 | The i-th document of a readable file is built from its i-th row with row index i |
| `RagVectorSave.FileDocumentsSnoc` | src/backend/services/rag_vector_save.py:34-53 | One more row appends exactly that row's document at the end |
| `RagVectorSave.OneDocumentPerRow` | src/backend/services/rag_vector_save.py:17-53 | There are as many documents as rows in the readable files |
| `RagVectorSave.AllDocumentsAppend` | src/backend/services/rag_vector_save.py:17 | Documents follow the configuration's file order |
| `RagVectorSave.RowDocuments` | src/backend/services/rag_vector_save.py:34-53 | The row loop builds the file's documents |
| `RagVectorSave.LoadAndPrepareDocuments` | src/backend/services/rag_vector_save.py:17-59 | The file loop, with its two `continue`s, returns `AllDocuments(files)` |
| `WebScrape.MatchFrom` | src/backend/services/web_scrape.py:21 | The leftmost position at or after `p` where the ticker pattern matches, or None when there is none |
| `WebScrape.SymbolAt` | src/backend/services/web_scrape.py:21-23 | `match.group(1)` at a match: a non-empty upper-case run followed by ".N0000" |
| `WebScrape.ExtractSymbol` | src/backend/services/web_scrape.py:21-26 | "UNKNOWN" when the pattern never matches; otherwise the group of the leftmost match |
| `WebScrape.ProfileUrlMatches` | src/backend/services/web_scrape.py:21-23 | The pattern matches right after the `?` of an appended `?symbol=SYM.N0000` and captures SYM |
| `WebScrape.NoMatchInPage` | src/backend/services/web_scrape.py:21 | A page URL without `=` holds no match before its appended `?symbol` query |
| `WebScrape.SymbolOfProfileUrl` | src/backend/services/web_scrape.py:21-26 | A profile page URL with `?symbol=SYM.N0000` appended, and no `=` before, yields SYM |
| `WebScrape.UpperRunIs` | src/backend/services/web_scrape.py:21 | An upper-case run ended by another character has exactly that length |
| `WebScrape.DippedSymbol` | src/backend/core/config.py:12 | The configured Dipped Products URL yields DIPD |
| `WebScrape.RichardSymbol` | src/backend/core/config.py:13 | The configured Richard Pieris URL yields REXP |
| `WebScrape.ConfiguredSymbols` | src/backend/services/web_scrape.py:21-26 | Both configured URLs yield their tickers |
| `WebScrape.UnknownWithoutPattern` | src/backend/services/web_scrape.py:25-26 | A URL without "symbol=" yields "UNKNOWN" |
| `WebScrape.Hrefs` | src/backend/services/web_scrape.py:43-52 | The collected hrefs all end in ".pdf" and are no more than the rows; a single row contributes its href iff it is a PDF link |
| `WebScrape.HrefsMembers` | src/backend/services/web_scrape.py:43-52 | A string is collected iff some row is a PDF link with that href |
| `WebScrape.HrefsAppend` | src/backend/services/web_scrape.py:42-52 | Links are collected in row order, and a failed lookup skips only that row |
| `WebScrape.PdfLinks` | src/backend/services/web_scrape.py:40-52 | At most 12 links, each ending in ".pdf"; they are the first min(12, n) of the n PDF hrefs among the first 14 rows |
| `WebScrape.PdfLinksIgnoreLaterRows` | src/backend/services/web_scrape.py:42 | Rows after the 14th are never consulted |
| `WebScrape.PdfLinksKeepAll` | src/backend/services/web_scrape.py:40-52 | With at most 14 rows and at most 12 .pdf hrefs, all of them are collected, in order |
| `WebScrape.CollectPdfLinks` | src/backend/services/web_scrape.py:40-52 | The loop over rows 1..14, with its `continue` and `break`, computes `PdfLinks` |
| `WebScrape.OutputDirIsInputDir` | src/backend/services/web_scrape.py:55-58 | For the two configured tickers the download directory is the extractor's input directory |
| `WebScrape.OutputDir` | src/backend/services/web_scrape.py:55-58 | `data/unprocess_data/SYM` for the two configured tickers, `data/unprocess_data` otherwise |
| `WebScrape.ReportPath` | src/backend/services/web_scrape.py:67 | `dir/financial_report_SYM_i.pdf` for the i-th link |
| `WebScrape.ReportPathInjective` | src/backend/services/web_scrape.py:67 | Different link numbers give different file paths, so no download overwrites another |
| `WebScrape.ReportNameIsPdf` | src/backend/services/web_scrape.py:67 | Every saved name ends in ".pdf", so the extractor will pick it up |
| `WebScrape.SavedAt` | src/backend/services/web_scrape.py:64-70 | When links 1..k were all fetched, the k-th is saved under its numbered path with the downloaded bytes |
| `WebScrape.SavedOnly` | src/backend/services/web_scrape.py:64-70 | Every saved path is the numbered path of a link whose predecessors were all fetched |
| `WebScrape.SaveReports` | src/backend/services/web_scrape.py:64-70 | The download loop saves exactly `Saved(...)` and succeeds iff every download succeeded |
| `WebScrape.FailureStopsSaving` | src/backend/services/web_scrape.py:66-76 | A failed download leaves only the files saved before it |
| `WebScrape.ConfiguredScrape` | src/backend/services/web_scrape.py:21-72 | For a configured company whose downloads all succeed, the message is "Web scrape completed for SYM." and the i-th link lands in the company's input directory |
| `WebScrape.ScrapeMessage` | src/backend/services/web_scrape.py:72-76 | "Web scrape completed for SYM." when the page loads and every download succeeds, otherwise the handler's error text |
| `WebScrape.Scrape` | src/backend/services/web_scrape.py:19-76 | The whole scrape returns `ScrapeMessage` and saves `ScrapeSaved` |
| `CompanyRoute.Selection` | src/backend/routes/get_company_route.py:22-40 | A name containing "dipped" in any case selects the DIPD URL and reply; otherwise one containing "richard" selects REXP; neither gives no selection |
| `CompanyRoute.CompanyProcess` | src/backend/routes/get_company_route.py:18-44 | The URL scraped is exactly the selected one, and none without a selection |
| `CompanyRoute.DippedTakesPrecedence` | src/backend/routes/get_company_route.py:22-30 | A name containing both words selects Dipped Products |
| `CompanyRoute.DippedIgnoresCase` | src/backend/routes/get_company_route.py:22 | "Dipped Products PLC" selects the DIPD URL |
| `CompanyRoute.LowerKeepsMention` | src/backend/routes/get_company_route.py:22-30 | A name containing a word still contains that word's lower-cased form after lower-casing |
| `CompanyRoute.DippedMentionSelects` | src/backend/routes/get_company_route.py:22-27 | Any name containing "dipped" in any letter case selects the DIPD URL and reply |
| `CompanyRoute.RichardMentionSelects` | src/backend/routes/get_company_route.py:30-35 | A name containing "richard" in any letter case and no "dipped" selects the REXP URL and reply |
| `CompanyRoute.InvalidNameScrapesNothing` | src/backend/routes/get_company_route.py:38-40 | A name with neither word scrapes nothing and answers 'Invalid Company name' |
| `CompanyRoute.ResponseIgnoresScrapeMessage` | src/backend/routes/get_company_route.py:24-35 | The answer does not depend on the scrape's returned message (an error string still answers "Scrape Completed") |
| `CompanyRoute.RaisedScrapeIsServerError` | src/backend/routes/get_company_route.py:42-44 | An exception escaping the scrape becomes HTTP 500 with its text |
| `Dashboard.Title` | src/frontend/app.py:72 | `str.title` keeps the length |
| `Dashboard.FormatLabel` | src/frontend/app.py:69-84 | The header rewriting: month abbreviation plus year, six characters as MM/YYYY, otherwise the header unchanged, all applied to the alphanumeric characters of the header |
| `Dashboard.TitleOfThreeLetters` | src/frontend/app.py:72 | Three letters title-case to the first upper-cased and the other two lower-cased |
| `Dashboard.TitleOfDigits` | src/frontend/app.py:72 | Title-casing leaves digits alone |
| `Dashboard.MonthNameLabel` | src/frontend/app.py:69-77 | A header whose letters and digits are a month abbreviation in any case plus four characters becomes the month's two digits, "/", those four |
| `Dashboard.NumericLabel` | src/frontend/app.py:79-81 | A header whose letters and digits are six digits becomes the first two, "/", the last four |
| `Dashboard.ShortNumericLabelKept` | src/frontend/app.py:82-84 | A one-digit-month header such as "3/2022" is kept verbatim |
| `Dashboard.SlashedLabelIsFixedPoint` | src/frontend/app.py:69-81 | Any header of two digits, `/`, four digits is left unchanged |
| `Dashboard.CanonicalLabelIsFixedPoint` | src/frontend/app.py:69-81 | A header already in two-digit-month MM/YYYY form is left unchanged |
| `Dashboard.FormatColumns` | src/frontend/app.py:65-84 | The loop gives one label per header, in the same order, the i-th being `FormatLabel` of the i-th header |
| `Dashboard.CanonicalColumnsUnchanged` | src/frontend/app.py:65-87 | Headers written by the table assembler come out of the loop unchanged |
| `Dashboard.ParseAll` | src/frontend/app.py:91-96 | `to_datetime` raises, stopping the page, iff some label is neither a NaT string nor a parseable period; otherwise there is one stamp per label, that label's stamp |
| `Dashboard.ParseLabel` | src/frontend/app.py:91-92 | A label becomes NaT iff it is one of pandas' NaT strings ("", "NaT", "nat", "NAT", "nan", "NaN", "NAN"), a date iff it parses as MM/YYYY, and raises otherwise |
| `Dashboard.InRangeDates` | src/frontend/app.py:108-111 | The comprehension raises iff some stamp is NaT; otherwise every kept date string is a two-digit-month label whose first day lies in the selected range |
| `Dashboard.InRangeDatesSnoc` | src/frontend/app.py:108-111 | One more dated column appends its `strftime` rendering exactly when its first day lies in the range, so every in-range date is kept, in column order |
| `Dashboard.Existing` | src/frontend/app.py:112 | A candidate is kept iff it is a column |
| `Dashboard.ExistingSnoc` | src/frontend/app.py:112 | One more candidate is appended exactly when it is a column, so the kept candidates keep their order |
| `Dashboard.FilterColumns` | src/frontend/app.py:91-113 | The page stops iff some label is not an MM/YYYY-parseable period (an unparseable label raises at parsing, a NaT label at the range comparison); otherwise "Data Point Name" comes first and every other kept column is a label, in MM/YYYY form, whose month lies in the range |
| `Dashboard.NatLabelStops` | src/frontend/app.py:91-111 | A NaT label such as "nan" passes parsing, yet the page stops at the range comparison |
| `Dashboard.LabelsInRange` | src/frontend/app.py:108-111 | A string is an in-range label iff it is one of the labels, in MM/YYYY form, whose month lies in the range |
| `Dashboard.FilterCanonical` | src/frontend/app.py:108-113 | With all labels in MM/YYYY form, the filter gives "Data Point Name" followed by exactly the in-range labels, in their column order |
| `Dashboard.OneDigitMonthColumnHidden` | src/frontend/app.py:69-113 | A one-digit-month header survives formatting but never appears among the filtered columns |

## Left out

- The LLM upload and generation calls and the prompt: the reply text is an input, `None` when either call raised. The sign, scale and profit arithmetic is asked of the model and never performed by the code.
- `json.loads` is the parameter `parse`. Values are reduced to `null`, a string, or another literal kept as text. A null period sorts only on its own; an array or object period cannot be hashed. Both make the company's body raise as `DatasetCreation.PeriodsRaise` states. A number or boolean period is treated as undated, and pandas' reading of a number as a date is not modelled.
- `DatasetCreation.SortPeriods`: periods that do not parse get NaT from `extract_date`, and every comparison with NaT is false. Keys such as [T2, NaT, T1] then form one non-descending run that the sort leaves as it is, so with any undated period present even the dated columns can come out unsorted. Equal dated keys, such as "3/2024" and "03/2024", keep the set's hash order. The model fixes one order instead: dated periods ascending, then undated ones, in first-seen order; `SortPeriods` and `TablePeriodsSpec` state that order.
- `DatasetCreation.TableShape` and `DatasetCreation.TableCell` assume no period is literally "Data Point Name": such a period would replace the name column.
- A count lemma (one record per usable file) is not stated separately. `DatasetCreation.RecordsAppend` and the definition of `Records` give it per file.
- The `Counter` duplicate-period logging and all other logging.
- `genai.Client` construction is assumed to succeed, and so is the `to_csv` write. The exception text the handler appends is the parameter `error`.
- The dashboard's NaT dates stop the page at the range comparison, as pandas 2 raises on comparing NaT with a date (`Dashboard.InRangeDates`). Pandas before 2.0 answered False there and would drop the column instead; the model follows the raising behaviour.
- Literal periods compare by their text. Python's numeric equality (`1`, `1.0` and `true` are one set element) and a `NaN` period never equal to itself at `next(...)` are not modelled.
- `lower()`, `isalnum` and `title()` are modelled on ASCII. The substrings searched ("dipped", "richard", ".pdf", month names) are ASCII, but non-ASCII letters and digits in dashboard headers are not modelled.
- Regex search over page text, `fitz` page extraction and `os.listdir` order: pages, listings and the match test are inputs. A raising `os.makedirs` is folded into a failed listing.
- Partial output: a PDF write that fails midway is modelled as nothing written.
- `read_csv` parsing and pandas' dtype-dependent rendering of cell values: a cell is its text or missing, and a missing cell renders as "nan".
- The text splitter, embeddings, Pinecone index and vector store, and `rag_retriver.py`: these are library calls.
- A raising `os.makedirs` in the scraper, which reaches its handler, is not modelled: the scrape's outcome depends only on the page load and the downloads.
- Selenium navigation and waits, `requests` downloads (a download is `fetch: string -> Option<bytes>`), file writes, and `driver.quit`.
- FastAPI routing, `main.py`, `chatbot_route.py`, `visualize_data_route.py` and its background task: orchestration and concurrency.
- The Streamlit page, the slider's own bounds (its selection is the parameter `lo`, `hi`), charts, KPIs and `get_ratio`, which uses floating point.
- The dashboard gives the REXP frame the DIPD frame's formatted headers (app.py line 88): the model formats one header list. A length mismatch raises in pandas, and that is not modelled.
- `data_analysis.py`, `llm_model.py` and `all_models.py`: prints, client construction and pydantic shells.
- `config.py` is transcribed as constants in `Config`, not modelled as a file.
