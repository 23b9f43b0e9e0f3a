# Stock data scripts: a verified Dafny model

This project models the Python scripts that collect and screen daily
exchange-traded fund data. The model has five parts:

- **Outlier screening** (`py/mad.py`). The script concatenates a history
  segment and a new segment. It refuses a merged series of 20 rows or
  fewer. It then runs the lagged rolling MAD detector and counts the
  outliers in the new segment. At each index t ≥ k, the detector takes the k
  values strictly before t, their median and their median absolute
  deviation. A zero MAD is floored to 1e-8. The detector computes the robust
  z-score 0.6745·(x − median)/MAD and flags values whose |z| exceeds the
  threshold.
- **Daily totals** (`py/szse_csv.py`). Several fetcher CSV files are
  aggregated into one dictionary, keyed by the trade date with its hyphens
  removed. Each date maps to the summed amount. Rows are skipped when they
  are too short, have an empty amount or have an unparsable amount. The
  totals are written sorted by date.
- **Shanghai fetcher** (`py/sse_data_fetcher.py`):
  - the JSONP slice and the `TX_DATE` parameter;
  - `is_json_complete`;
  - the ten-column record `save_to_csv` builds;
  - the create-with-header-or-append file write;
  - the loop over codes and days with its success and failure counters.
- **Shenzhen fetcher** (`py/szse_data_fetcher.py`). The same parts as the
  Shanghai fetcher, with a twelve-column record taken from
  `data[0]["data"][0]` and a different completeness rule.
- **Completeness count** (`py/count.py`). `csv.DictReader` takes the first
  record as the field names and skips blank records. The script counts the
  rows whose `数据完整性` value is exactly `是`.

The Python values these scripts handle are modelled as follows:

- **JSON values.** A parsed response is the datatype `PyJson.Json`. Python's
  `None` is `JNull`.
- **Python operations on JSON.** `len`, `.get`, indexing and truthiness are
  modelled with the exception each raises (`TypeError`, `AttributeError`,
  `KeyError`, `IndexError`), so the fetchers' error paths are part of the
  model.
- **Files.** The files the fetchers write are a map from file name to
  records, held by the `CsvStore.Store` class, which `save_to_csv` updates
  in place.
- **Loops.** Each loop of the scripts is a Dafny method with a loop. Each is
  proved against a specification function over the whole run:
  - `ApplyWrites` over the `Writes` of all (code, day) pairs, with
    `Successes` for the success counter;
  - `Totals` over `AllEntries` for the aggregation;
  - `CountMarked` for the count.

Two behaviours of the detector are worth stating, because a reader might
expect otherwise:

- **Constant windows.** A constant window does not flag every differing
  value. The floored MAD makes the z-score 0.6745e8·(v − c), so at
  threshold 2.0 a value is flagged only when |v − c| > 2/0.6745e8.
  `LaggedMad.ConstantWindowTinyDeviation` shows that a deviation of 1e-8
  is not flagged.
- **Short series.** The detector accepts any length and leaves zero scores
  and false flags before index k. Only the script refuses a merged length
  of 20 or less. `LaggedMad.LaggedRollingMad` has no length precondition,
  and `LaggedMad.DetectNewSegment` models the refusal.

## Model

| member | source | states |
|---|---|---|
| Stats.SortedCopy | py/mad.py:86 | the copy np.median sorts is as long as the window |
| Stats.SortedCopySorted | py/mad.py:86 | the copy np.median sorts is in ascending order |
| Stats.SortedCopyPermutes | py/mad.py:86 | the sorted copy holds exactly the window's values (same multiset) |
| Stats.SortedUnique | py/mad.py:86 | two sorted sequences with the same values are equal, so the median depends only on the values |
| Stats.MedianAtLeast | py/mad.py:86 | a lower bound of every window value bounds the median from below |
| Stats.MedianAtMost | py/mad.py:86 | an upper bound of every window value bounds the median from above |
| Stats.MedianWithinRange | py/mad.py:86 | the median lies between the window's least and greatest value |
| Stats.MedianOfConstant | py/mad.py:86 | the median of a constant window is that constant |
| Stats.MadNonNegative | py/mad.py:89 | the median absolute deviation is never negative |
| Stats.FlooredMad | py/mad.py:89-93 | the divisor is always positive: the MAD when it is positive, 1e-8 when it is zero |
| Stats.DeviationsPermutation | py/mad.py:89 | reordering the window reorders its deviations |
| Stats.MedianPermutationInvariant | py/mad.py:86 | reordering the window leaves the median unchanged |
| Stats.MadPermutationInvariant | py/mad.py:89 | reordering the window leaves the MAD unchanged |
| Stats.ShiftSortedCopy | py/mad.py:86 | sorting commutes with adding a constant to every value |
| Stats.MedianShift | py/mad.py:86 | adding a constant to every value adds it to the median |
| Stats.MadShift | py/mad.py:89 | adding a constant to every value leaves the MAD unchanged |
| LaggedMad.WindowScore | py/mad.py:83-96 | one step's median, MAD, zero floor and scaled deviation give the robust z-score of the point against its window |
| LaggedMad.LaggedRollingMad | py/mad.py:64-103 | both outputs have the series' length; index t < k keeps 0 and False; index t ≥ k holds the z-score of data[t] against data[t-k..t] and a flag exactly when its magnitude exceeds the threshold |
| LaggedMad.ScoreIndex | py/mad.py:82-101 | one pass of the loop body writes the z-score of data[t] against data[t-k..t] at t and sets the flag at t exactly when its magnitude exceeds the threshold; every later cell keeps its zero |
| LaggedMad.CountTrue | py/mad.py:116 | np.sum of the flags is at most their number, zero exactly when none is set, full exactly when all are |
| LaggedMad.DetectNewSegment | py/mad.py:31-117 | a missing input file is an error; a merged length of 20 or less is refused with that length; otherwise the detector runs on history+new with k=20, θ=2.0 and the count covers exactly the flags from the first new row, at most the new row count |
| LaggedMad.ZScoreIsLocal | py/mad.py:81-96 | the result at t depends only on the k values before t and on data[t] |
| LaggedMad.NoLookAhead | py/mad.py:83 | appending later values never changes an earlier z-score |
| LaggedMad.ZeroExactlyAtMedian | py/mad.py:96 | the z-score is zero exactly when the value equals the window median |
| LaggedMad.SignFollowsMedian | py/mad.py:96 | the z-score is positive exactly above the median and negative exactly below it |
| LaggedMad.MedianValueNotFlagged | py/mad.py:96-101 | a value equal to its window median scores 0 and is never flagged for a non-negative threshold |
| LaggedMad.FlaggedIffFarFromMedian | py/mad.py:96-101 | a point is flagged exactly when 0.6745 times the distance from x to the median exceeds threshold times the floored MAD |
| LaggedMad.ConstantWindow | py/mad.py:89-96 | after a constant window the MAD is 0, the divisor is 1e-8 and the z-score is 0.6745e8·(x − c) |
| LaggedMad.ConstantWindowFlag | py/mad.py:92-101 | after a constant window, at threshold 2.0, a value is flagged exactly when 0.6745e8 times the distance from x to c exceeds 2 |
| LaggedMad.ConstantWindowTinyDeviation | py/mad.py:92-101 | after a constant window, the differing value c + 1e-8 scores exactly 0.6745 and is not flagged |
| LaggedMad.WindowOrderIrrelevant | py/mad.py:83-96 | permuting the window leaves the z-score unchanged |
| LaggedMad.RobustZShift | py/mad.py:86-96 | adding one constant to the window and to the scored value leaves the z-score unchanged |
| LaggedMad.TranslationInvariant | py/mad.py:83-96 | adding a constant to the whole series leaves every z-score unchanged |
| Text.RemoveAll | py/szse_csv.py:29 | str.replace(c, '') leaves no c and never lengthens the text |
| Text.RemoveAllAppend | py/szse_csv.py:29 | removing a character distributes over concatenation |
| Text.RemoveAllAbsent | py/szse_csv.py:29 | text without the character is unchanged |
| Text.RemoveAllIdempotent | py/szse_csv.py:29 | removing twice is removing once |
| Text.Unhyphenate | py/szse_csv.py:29 | the date key (and the TX_DATE parameter built the same way at py/sse_data_fetcher.py:24) carries no hyphen and is never longer than the date |
| Text.RemoveHyphens | py/sse_data_fetcher.py:24 | YYYY-MM-DD becomes YYYYMMDD: a hyphenated date loses exactly its two separators |
| Text.Strip | py/szse_csv.py:32 | str.strip is empty exactly for all-whitespace text; otherwise it starts and ends with non-whitespace and is the text between the leading and trailing whitespace runs |
| Text.IndexOf | py/szse_csv.py:17-18 | list.index gives the first position of the title, None (ValueError) exactly when absent |
| Text.Find | py/sse_data_fetcher.py:50 | str.find gives the first position of the character, -1 exactly when absent |
| Text.RFind | py/sse_data_fetcher.py:50 | str.rfind gives the last position of the character, -1 exactly when absent |
| Text.FindAt | py/sse_data_fetcher.py:50 | a character with no earlier occurrence is where find points |
| Text.RFindAt | py/sse_data_fetcher.py:50 | a character with no later occurrence is where rfind points |
| Text.FindBrackets | py/sse_data_fetcher.py:50 | in a + [l] + b + [r] + c (here l = '(' and r = ')') with no l in a and no r in c, find and rfind land on the two brackets and the text between them is b |
| Text.SliceBound | py/sse_data_fetcher.py:50 | a slice bound is normalised as Python does: an in-range bound is kept, a negative one counts from the end, one above the length becomes the length and one below minus the length becomes 0 |
| Text.PySlice | py/sse_data_fetcher.py:50 | the slice is the text between the normalised bounds, empty when they cross |
| Text.LexIrreflexive | py/szse_csv.py:50 | no date sorts before itself |
| Text.LexTransitive | py/szse_csv.py:50 | str ordering is transitive |
| Text.LexTotal | py/szse_csv.py:50 | any two different dates are ordered one way |
| Text.LexAsymmetric | py/szse_csv.py:50 | str ordering never holds both ways |
| Text.LeastExists | py/szse_csv.py:50 | every non-empty set of dates has a least element |
| DailyTotals.FindColumns | py/szse_csv.py:16-21 | None exactly when either title is missing; otherwise the first positions of 交易日期 and 成交额(万元) |
| DailyTotals.CleanAmount | py/szse_csv.py:32 | the cleaned amount has no comma or quote and no whitespace at either end |
| DailyTotals.RowEntry | py/szse_csv.py:25-42 | a row contributes exactly when it reaches both columns, its cleaned amount is non-empty and parses; its entry is the normalised date and the parsed amount |
| DailyTotals.RowsEntries | py/szse_csv.py:23-42 | a file gives at most one entry per data row |
| DailyTotals.MissingTitleContributesNothing | py/szse_csv.py:16-21 | a file whose header lacks either title adds nothing |
| DailyTotals.HyphenatedDatesShareKey | py/szse_csv.py:29 | "YYYY-MM-DD" in one file and "YYYYMMDD" in another add into the same day |
| DailyTotals.TotalsStep | py/szse_csv.py:44-47 | the dictionary after one more entry is the previous one with that entry added |
| DailyTotals.CreateThenAdd | py/szse_csv.py:45-47 | creating a missing key at 0 and then adding is a single add |
| DailyTotals.TotalsKeys | py/szse_csv.py:45-47 | a date is a key exactly when some accepted row carries it |
| DailyTotals.TotalsSum | py/szse_csv.py:45-47 | each day's total is the sum of the amounts of that day's accepted rows |
| DailyTotals.SumForAbsent | py/szse_csv.py:45-47 | a date that is not a key has no accepted amount |
| DailyTotals.AddRow | py/szse_csv.py:23-47 | one row leaves the dictionary unchanged unless accepted, else adds its amount under its date |
| DailyTotals.AddRows | py/szse_csv.py:23-47 | the inner loop adds exactly the file's accepted entries, in order |
| DailyTotals.AddFile | py/szse_csv.py:10-47 | one file adds exactly its entries; a file lacking a title adds none |
| DailyTotals.AggregateDaily | py/szse_csv.py:8-47 | fails exactly when some file is empty (StopIteration on its header), naming the first one; otherwise the dictionary of every accepted row of every file, in order |
| DailyTotals.WriteTotals | py/szse_csv.py:50-78 | the output has the two-column header, its dates strictly ascending, each with its own total, and every date of the dictionary present |
| DailyTotals.AscendingDistinct | py/szse_csv.py:50 | the sorted output never repeats a date |
| PyJson.Len | py/szse_data_fetcher.py:63 | len raises TypeError exactly on None, booleans and numbers |
| PyJson.LenTruthy | py/szse_data_fetcher.py:80 | a value with a length is truthy exactly when its length is non-zero |
| PyJson.Get | py/sse_data_fetcher.py:63 | .get succeeds exactly on a dict (else AttributeError), giving the value or the default |
| PyJson.First | py/szse_data_fetcher.py:65 | v[0] succeeds exactly on a non-empty list or string, giving its first item or character; IndexError on an empty list or string, KeyError on a dict, TypeError on None, a bool or a number |
| PyJson.Field | py/szse_data_fetcher.py:80-81 | v[key] succeeds exactly on a dict holding the key |
| CsvStore.BlankRow | py/sse_data_fetcher.py:94 | a blank record has the requested width, empty cells and the marker last |
| CsvStore.Values | py/sse_data_fetcher.py:80-89 | each cell is record.get(key, '') for its key, in column order |
| CsvStore.RecordRow | py/sse_data_fetcher.py:79-91 | a filled record exists exactly when the first result is a dict: one cell per key then the marker |
| CsvStore.WrittenEffect | py/sse_data_fetcher.py:97-115 | one save touches only its own file: an existing file gains exactly the record, a missing one is created with the header and the record |
| CsvStore.ApplyWritesFile | py/sse_data_fetcher.py:97-115 | over a run, an existing file keeps its records and gains exactly those written to it, in order; a new file starts with the first writer's header; an unwritten file stays absent |
| CsvStore.Store.Save | py/sse_data_fetcher.py:97-115 | the files after the save are the files before with that one write applied |
| FetchLoop.DayPairs | py/sse_data_fetcher.py:140-169 | one visit per day from start to end inclusive, none when start is after end |
| FetchLoop.DayPairsAt | py/sse_data_fetcher.py:140-169 | the j-th visit of a code is day start + j |
| FetchLoop.PairsCount | py/sse_data_fetcher.py:135-169 | the run makes (number of codes) × (number of days) visits |
| FetchLoop.PairsAt | py/sse_data_fetcher.py:135-169 | visit c·days + j is code c on day start + j: codes outer, days inner |
| FetchLoop.Writes | py/sse_data_fetcher.py:135-169 | one write per visit |
| FetchLoop.WritesAt | py/sse_data_fetcher.py:135-169 | the i-th write goes to that visit's code + suffix, with that response's record |
| FetchLoop.Successes | py/sse_data_fetcher.py:150-159 | the success count never exceeds the visit count |
| SseFetcher.JsonpBetween | py/sse_data_fetcher.py:50 | with a '(' before the last ')', the payload is exactly the text between them |
| SseFetcher.JsonpRoundTrip | py/sse_data_fetcher.py:50 | unwrapping callback(payload)tail gives back the payload when the callback has no '(' and the tail no ')' |
| SseFetcher.JsonpWithoutParentheses | py/sse_data_fetcher.py:50 | text with no parentheses loses its last character |
| SseFetcher.IsJsonComplete | py/sse_data_fetcher.py:57-68 | 是 exactly when "result" has a non-zero length; 否 for None, a dict with no or an empty "result"; raises exactly when data is not a dict or "result" has no length |
| SseFetcher.SaveRowShape | py/sse_data_fetcher.py:75-94 | the saved record has ten cells with the marker last; filled from result[0], key by key, exactly when 是; blank otherwise |
| SseFetcher.SaveRowRaises | py/sse_data_fetcher.py:75-94 | save_to_csv raises exactly when is_json_complete does or result[0] is missing or not a dict |
| SseFetcher.VisitOutcomeRecord | py/sse_data_fetcher.py:146-166 | every visit writes a ten-cell record; a failure writes the blank 否 record; a 是 record always belongs to a success |
| SseFetcher.EmptyResultIsIncompleteSuccess | py/sse_data_fetcher.py:63-64 | a response with an empty "result" counts as a success yet is written as a blank 否 record |
| SseFetcher.SaveToCsv | py/sse_data_fetcher.py:70-115 | a raising save writes nothing; otherwise exactly that record is written with the ten-column header |
| SseFetcher.Visit | py/sse_data_fetcher.py:146-166 | one visit writes exactly one record (the blank 否 one on None or on a raising save) and reports success exactly when the save went through |
| SseFetcher.SaveDays | py/sse_data_fetcher.py:140-169 | the day loop for one code writes one record per day and advances one counter per day |
| SseFetcher.ShFetchAndSaveData | py/sse_data_fetcher.py:119-182 | the files end as all the visits' writes applied in order, success counts the successful visits and success + fail = (number of codes) × (number of days) |
| SzseFetcher.IsJsonComplete | py/szse_data_fetcher.py:57-70 | 是 exactly when data[0]["data"] is non-empty; 否 exactly for None, an empty response or a first element whose "data" is missing or empty |
| SzseFetcher.IsJsonCompleteRaises | py/szse_data_fetcher.py:63-65 | a number, boolean, non-empty dict or string, or a list whose first element is not a dict makes it raise |
| SzseFetcher.SaveRowShape | py/szse_data_fetcher.py:77-98 | the saved record has twelve cells with the marker last; filled from data[0]["data"][0], key by key, exactly when 是; blank otherwise |
| SzseFetcher.SaveRowRaises | py/szse_data_fetcher.py:77-98 | save_to_csv raises exactly when is_json_complete does or data[0]["data"][0] is not a dict |
| SzseFetcher.VisitOutcomeRecord | py/szse_data_fetcher.py:146-166 | every visit writes a twelve-cell record; a failure writes the blank 否 record; a 是 record always belongs to a success |
| SzseFetcher.EmptyDataIsIncompleteSuccess | py/szse_data_fetcher.py:65-68 | a response whose first element has an empty "data" counts as a success yet is written as a blank 否 record |
| SzseFetcher.SaveToCsv | py/szse_data_fetcher.py:72-120 | a raising save writes nothing; otherwise exactly that record is written with the twelve-column header |
| SzseFetcher.Visit | py/szse_data_fetcher.py:146-166 | one visit writes exactly one record (the blank 否 one on None or on a raising save) and reports success exactly when the save went through |
| SzseFetcher.SaveDays | py/szse_data_fetcher.py:140-169 | the day loop for one code writes one record per day and advances one counter per day |
| SzseFetcher.SzFetchAndSaveData | py/szse_data_fetcher.py:124-183 | the files end as all the visits' writes applied in order, success counts the successful visits and success + fail = (number of codes) × (number of days) |
| CompletenessCount.LastIndex | py/count.py:9 | the last position of a field name, None exactly when absent |
| CompletenessCount.Cell | py/count.py:14 | row.get gives the field under the last column of that name when the record reaches it, None otherwise |
| CompletenessCount.RowDictGet | py/count.py:9-14 | the dict DictReader builds (zip, later duplicates winning, None padding) answers .get exactly as Cell does |
| CompletenessCount.CountComplete | py/count.py:4-15 | the loop's count is the number of non-blank data records whose 数据完整性 value is exactly 是 |
| CompletenessCount.CountStep | py/count.py:12-15 | one more record adds one exactly when it is non-blank and marked 是 |
| CompletenessCount.CountBound | py/count.py:12-15 | the count never exceeds the number of data records |
| CompletenessCount.NoDataRowsCountZero | py/count.py:12-15 | an empty file or one with no data records counts 0 |
| CompletenessCount.MissingColumnCountsZero | py/count.py:14 | without a 数据完整性 column nothing counts |
| CompletenessCount.SkippingBlanksIrrelevant | py/count.py:9-15 | skipping blank records does not change the count |
| CompletenessCount.AppendRecord | py/count.py:12-15 | appending a record raises the count by one exactly when that record is marked 是 |
| CompletenessCount.MarkerLastCount | py/count.py:14 | when 数据完整性 is the last column and named once, the count is the number of records whose last field is 是 |
| CompletenessCount.FetcherHeadersEndWithMarker | py/szse_data_fetcher.py:114-118 | both fetchers' headers name 数据完整性 once, as their last column |

## Left out

- LaggedMad.LaggedRollingMad: requires k ≥ 1. With k = 0 numpy takes the median of an empty window, which is NaN, and NaN is not a real.
- Floating point: values are exact reals. The constants 0.6745, 1e-8 and 2.0 are exact decimals, and the `mad_val == 0` test is exact. Rounding, NaN and infinities are not modelled.
- float() parsing is the `Parser` parameter of the daily totals. json.loads is part of the `Fetcher` parameter.
- Reading CSV text is not modelled. pandas.read_csv, csv.reader and csv.DictReader's line splitting are inputs here: a series of reals, or records of fields.
- Writing CSV text is not modelled: csv.writer's quoting, number formatting and the `.2f` formatting of the totals. The store keeps the JSON values of each record.
- A missing input file is modelled for mad.py only (`LaggedMad.DetectNewSegment`). File errors such as permissions, encodings or a full disk are not modelled for any script.
- DailyTotals.AggregateDaily: a missing input file (FileNotFoundError from `open` at py/szse_csv.py:11) is not modelled; the method takes the files' contents.
- CompletenessCount.CountComplete: a missing input file (FileNotFoundError from `open` at py/count.py:7) is not modelled; the method takes the file's records.
- mad.py: the column selection by name (line 106), the printing, the percentage, the outlier listing, the fonts and all plotting.
- HTTP is not modelled: the session, retries, back-off, time-based callback ids and cache-busting parameters. A fetch is a function from (code, day) to the parsed response. The fetch functions catch every exception and return None, so this function is total. A repeated (code, day) pair sees the same response.
- time.sleep is not modelled.
- The printing in all five scripts is not modelled.
- Dates in the fetch loops are integer day numbers. strftime, timedelta and the today-default start and end dates are not modelled.
- The `sh_*`/`sz_*` count text files written after the loops are not modelled. The counts themselves are the methods' outputs.
- szse_csv.py opens the output file for reading only to choose a branch. Both branches rewrite it with the same content, so the old file's content is not an input.
- szse_csv.py and count.py read hard-coded file names. Here the files are parameters.
- py/day.py, py/crawler.py and py/draw300.py are not part of this model.
- JSON objects are maps, so duplicate keys and key order are not modelled. The fetchers read fields only by key.
