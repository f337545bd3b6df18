# GHDB Scanner: a Dafny model of its scan pipeline

GHDB Scanner reads a list of search "dorks" from a CSV file. For each dork it
runs a site-restricted web search against one target host. It writes every
matched URL to a timestamped CSV file. This project models the logic that sits
between the I/O calls in `ghdb_scanner_final.py`, and proves properties of it:

- **Input validation** (`validate_inputs`): module `Validation`. The answers of
  `urlparse` and `os.path.exists` are inputs to the model.
- **Dork-list loading** (the row loop of `load_dorks_from_csv`): module
  `Loader`. The CSV reader's output comes in as rows of fields (`CsvSource.Rows`),
  or as `Unreadable` when opening or parsing failed.
- **The scan** (`scan_with_progress`): module `Scan`. It covers the output file
  name, the query text, the findings loop and the rows of the result file.
  The search provider's answer to each request is an input: `Failure` when the
  call raised, `Success(items)` otherwise. The clock reading is an input too.
- Module `Strings` holds the Python string operations these use: `strip`
  (with and without an argument), `replace`, `lower`, `endswith`, and the
  zero-padded number fields of `strftime`.

The loops of the source are methods with loop invariants. The loader loop and
the two search loops are proved equal to specification functions: `BodyDorks`,
`ItemFindings`, `Findings` and `Requests`. The promised properties are then
lemmas about those functions. The loop that builds the result rows,
`ResultRows`, is the exception: its contract states each row directly.

Three behaviours of the code are easy to misread:

- The loader strips every leading and trailing `"` (`strip('"')`), so `""a""`
  gives `a`.
- The `.csv` test runs only for an existing file (`elif`), so a missing file
  gives one file message.
- An item counts only when its `href` is present and non-empty (`if url:`).

## Model

| member | source | states |
|---|---|---|
| Validation.ValidateInputs | ghdb_scanner_final.py:85-103 | The error list is empty exactly when the scheme and netloc are non-empty, the file exists, and its lower-cased name ends in `.csv`. There is one message per rejected part, so at most two, with the URL message first. Each message is present exactly under its own condition. The missing-file and not-a-CSV messages exclude each other, and the name is only judged for an existing file. |
| Validation.MessagesDistinct | ghdb_scanner_final.py:93-101 | The four message texts differ from each other, and no URL message is a file message. |
| Validation.IsCsvName | ghdb_scanner_final.py:100 | `path.lower().endswith('.csv')` holds exactly when the last four characters are `.`, then `c`/`C`, `s`/`S`, `v`/`V`. |
| Strings.Lower | ghdb_scanner_final.py:100 | The lower-cased string has the input's length, and each character is the lower-case form of the input character at that place. |
| Strings.PythonSpaceTable | ghdb_scanner_final.py:117 | `IsPythonSpace` holds for exactly the 29 characters for which `str.isspace()` is true, which are the characters `strip()` removes. |
| Strings.Strip | ghdb_scanner_final.py:117 | A non-empty stripped string neither starts nor ends with a character of the stripped set. |
| Strings.StripIsSlice | ghdb_scanner_final.py:117 | The stripped string is a slice of the input, and everything cut off before and after it belongs to the stripped set. |
| Loader.Normalise | ghdb_scanner_final.py:117 | A cleaned field (`strip()` then `strip('"')`) that is non-empty neither begins nor ends with `"`. |
| Loader.LoadDorksFromCsv | ghdb_scanner_final.py:105-129 | A failed read gives the empty list. Otherwise the result is `DorkList` of the rows: the header is dropped and each later row's kept dork is appended in row order. |
| Loader.HeaderOnly | ghdb_scanner_final.py:113 | A file of zero or one row gives no dork. |
| Loader.HeaderIgnored | ghdb_scanner_final.py:113-119 | The first row never affects the result: only the rows after it count. |
| Loader.BodyDorksShape | ghdb_scanner_final.py:115-119 | Every dork is non-empty and neither begins nor ends with `"`. There are at most as many dorks as rows after the header. |
| Loader.BodyDorksAppend | ghdb_scanner_final.py:115-119 | Output order follows row order: the dorks of `a + b` are those of `a` followed by those of `b`. |
| Loader.DorkSource | ghdb_scanner_final.py:115-119 | Every dork is the cleaned first field of some non-empty row after the header. |
| Loader.RowGivesDork | ghdb_scanner_final.py:115-119 | Every non-empty row whose first field cleans to a non-empty string contributes that string. |
| Loader.BodyDorksMember | ghdb_scanner_final.py:115-119 | A string is a dork if and only if some row after the header yields it. |
| Loader.BodyDorksFirstFieldsOnly | ghdb_scanner_final.py:116-117 | Fields after the first are ignored: rows that are empty in the same places and agree on their first fields give the same dorks. |
| Loader.SkippedRowContributesNothing | ghdb_scanner_final.py:116-118 | An empty row, or a row whose first field cleans to the empty string, can be removed without changing the result. |
| Loader.LoaderExample | ghdb_scanner_final.py:113-119 | Header `dork` and rows `a`, `  b  `, an empty field, then `"c"` give exactly `a`, `b`, `c`. |
| Strings.Padded | ghdb_scanner_final.py:142 | A zero-padded `strftime` field is exactly `width` characters, all decimal digits. |
| Strings.PaddedValue | ghdb_scanner_final.py:142 | A zero-padded `strftime` field reads back as the number it was made from. |
| Scan.FormatTimestamp | ghdb_scanner_final.py:142 | `%Y%m%d_%H%M%S` is fifteen characters: digits, with `_` at position 8. |
| Scan.FormatTimestampFields | ghdb_scanner_final.py:142 | Year, month, day, hour, minute and second each read back from their place in the formatted text. |
| Strings.Replace | ghdb_scanner_final.py:141 | The result has the input's length. Each character is the substitute where the input had the target, and unchanged elsewhere. |
| Scan.HostName | ghdb_scanner_final.py:141 | The host part has the netloc's length and holds no `.`. Each `.` became `_`, and every other character is kept in place. |
| Scan.OutputFileName | ghdb_scanner_final.py:141-142 | The output name is 25 characters longer than the netloc: the host part, then `_scan_`, the fifteen timestamp characters, and it ends with `.csv`. |
| Scan.OutputFileNameExample | ghdb_scanner_final.py:141-142 | Target `example.com` at 2024-01-01 00:00:00 gives `example_com_scan_20240101_000000.csv`. |
| Scan.SearchQuery | ghdb_scanner_final.py:158 | The query is six characters longer than the netloc and the dork together, and it splits back into `site:`, the netloc, one space, and the dork as everything after it. |
| Scan.SearchQueryInjective | ghdb_scanner_final.py:158 | The query `site:<netloc> <dork>` determines the dork: for one target, different dorks give different queries. |
| Scan.RequestsAt | ghdb_scanner_final.py:158-161 | There is one provider call per dork, in order. The i-th call searches `site:<netloc> <dork i>` with the `max_results` cap. |
| Scan.AppendItemFindings | ghdb_scanner_final.py:162-168 | The inner loop appends one `(dork, href)` per item with a non-empty href, in item order, and leaves the earlier findings in place. |
| Scan.ItemFindingsAppend | ghdb_scanner_final.py:162-168 | The findings follow item order: the findings of items `a + b` are those of `a` followed by those of `b`. |
| Scan.CollectFindings | ghdb_scanner_final.py:150-171 | The gathered findings are `Findings(dorks, responses)`, and the calls made are `Requests(netloc, dorks, max_results)`. |
| Scan.ResultRows | ghdb_scanner_final.py:181-185 | The written rows are the header `dork, matched_url`, then one `[dork, url]` per finding in collection order: findings + 1 rows. |
| Scan.ScanWithProgress | ghdb_scanner_final.py:131-191 | A scan returns the findings, the output name computed from the netloc and clock reading, the provider calls, and the rows of the result file. |
| Scan.FindingsAppend | ghdb_scanner_final.py:150-171 | The findings of two runs of dorks concatenate in order. |
| Scan.FindingsPrefix | ghdb_scanner_final.py:150-171 | Later dorks only append: the findings after the first `i` dorks are a prefix of the final list. |
| Scan.FailedSearchAddsNothing | ghdb_scanner_final.py:169-171 | A failed search can be removed from the scan without changing the findings. |
| Scan.SuccessfulSearchAppends | ghdb_scanner_final.py:160-168 | A successful search appends exactly its own item findings after the earlier ones. |
| Scan.ItemFindingsCount | ghdb_scanner_final.py:162-168 | A successful search adds as many findings as it has items with a non-empty href. |
| Scan.FindingsCount | ghdb_scanner_final.py:150-171 | The total number of findings is the sum of the per-dork URL counts, with zero for a failed call. |
| Scan.TotalCountUniform | ghdb_scanner_final.py:150-171 | If every call returns `n` URLs, the sum of the counts over `k` calls is `k * n`. |
| Scan.UniformScan | ghdb_scanner_final.py:150-171 | `k` dorks whose searches each succeed with `n` URLs give `k * n` findings. |
| Scan.ItemFindingsMember | ghdb_scanner_final.py:162-168 | A finding comes from an answer if and only if its URL is non-empty, it names the dork, and some item carries that URL. |
| Scan.FindingSource | ghdb_scanner_final.py:150-171 | Every finding names a scanned dork whose search succeeded, and a non-empty URL one of its items carried. |
| Scan.FindingComplete | ghdb_scanner_final.py:150-171 | Every item with a non-empty href in a successful answer gives a finding for its dork. |

## Left out

- The search provider (`DDGS().text`) is a network client. Each call's outcome
  is an input, and the model does not bound the number of items by
  `max_results`.
- An exception raised part-way through one search's items has no outcome of
  its own. The source keeps the findings appended before it, so such a call
  is given as `Success` of the items yielded before the exception. A
  `Failure` stands for a call that raised before yielding anything.
- CSV tokenising and quoting (`csv.reader`, `csv.writer`) are library code. The
  model reads already-split rows and produces the rows to be written, not the
  file text.
- `urlparse` and `os.path.exists` are not modelled. Their answers are inputs:
  a scheme and netloc or a raised exception, and a boolean.
- File open, read and write failures are I/O. A failed load is the abstract
  `Unreadable`, which gives the empty list. A failed write changes nothing in
  the returned results, so it is not modelled.
- Strings.Lower: models only the ASCII case mapping of `str.lower`. No other
  character lowers to `.`, `c`, `s` or `v`, so the `.csv` test does not depend on this.
- Scan.FormatTimestamp: requires a four-digit year. `strftime('%Y')` for years
  before 1000 depends on the platform.
- The progress bar is left out: it is floating-point and only cosmetic. So are
  the `Colors` constants, the banner and status printing, and screen clearing.
- Scan.ScanWithProgress: has no delay parameter. It assumes a delay that
  `time.sleep` accepts: non-negative, not NaN, and below about 9.2e9 seconds
  (2^63 nanoseconds). `--delay` is parsed as a float, so a negative value,
  `nan`, `inf` or a value too large such as `1e10` gets through. With such a
  delay, `time.sleep(delay)` at line 174 raises after the first dork's search,
  because it sits outside the `try`. The source then stops with no result file
  written, and `main` exits with status 1. The model always completes all
  `|dorks|` searches and builds every row. For an accepted delay, the pause has
  no effect on the results.
- `main` is left out: the `input()` prompts, the default file name, `argparse`,
  and the exit paths (`sys.exit`, `KeyboardInterrupt`). It is process control
  around the three modelled stages.
