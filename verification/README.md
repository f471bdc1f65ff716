# Benchmark-log parser of pagerank-barrierfrees-openmp, in Dafny

The repository benchmarks barrier-free PageRank variants written with OpenMP
and converts the text logs of those runs into per-graph tables. This project
models the log parser of `process.js`, together with the thread-bookkeeping
helpers of `src/pagerank.hxx`, and proves properties of both.

The parser reads a log one line at a time and carries one context object
(graph, order, size, thread count, repeat counter and the fields of the run in
progress). From each line it builds a table that maps a graph name to a list of
flat records:

- a per-thread status line appends a snapshot of the context;
- a result line goes back over the trailing records that have no technique
  yet and writes the run summary into each of them, then appends one summary
  record;
- for barrier-free techniques, the result line also computes a corrected time.
  The unsummarised records are split into buckets of width `ceil(B / repeat)`,
  the largest blocked time is taken in each bucket, and the mean of those
  maxima is subtracted from the reported time.

Modules:

- `Wrappers` (`wrappers.dfy`): `Option` for keys that may be missing and
  `Result` for scans that stop.
- `LogRecord` (`log_record.dfy`): the record type. The context has the same
  type, because the source builds records by copying the context object.
  Every field except the graph name is optional.
- `LogLine` (`log_line.dfy`): the six line shapes as a tagged datatype with
  fields that are already parsed, and the if/else-if chain that picks one.
- `LogStats` (`log_stats.dfy`): `blankRowCount`, `arraySum`, `Math.max`, and
  the bucket arithmetic of `correctedTime`.
- `LogParser` (`log_parser.dfy`): one transition per line shape. `Step` is
  `readLogLine`, `Run`/`ReadLog` are the fold of `readLog`, and the invariant
  `Valid` holds at every parse the scanner reaches.
- `LogProperties` (`log_properties.dfy`): properties of whole scans and two
  worked examples.
- `Pagerank` (`pagerank.dfy`): `PagerankResult`, `ThreadInfo`, `clear`,
  `threadInfos`, `threadInfosClear` and `threadInfosMinDurationMilliseconds`.

Some inputs make the source throw or carry on with NaN or Infinity. The model
stops with a `Fault` instead:

- `NullContext`: an order, thread-count, loop-start, status or result line
  comes before any graph line. The source dereferences `null` here and throws
  a TypeError.
- `NonFinite`: the source would carry on with NaN or Infinity. This happens
  on a loop-start line when the repeat counter was never set, on a
  barrier-free result line with no unsummarised records (`0/0`), and on a
  barrier-free result line when the repeat counter was never set.

When `repeat` is 0 and there are unsummarised records, the source's bucket
width is `Infinity`. That puts every record in a single bucket, and the model
computes the same single bucket.

## Model

| member | source | states |
|---|---|---|
| LogLine.Classify | process.js:78-112 | the first of the six patterns, in the order graph, order/size, thread count, loop start, status, result, that matches decides the line; a line is ignored exactly when no pattern matches |
| LogStats.ArraySum | process.js:18-23 | the accumulation loop returns the sum of the list |
| LogStats.SumBounds | process.js:18-23 | a sum of n values in [lo, hi] lies in [n·lo, n·hi] |
| LogStats.MeanBounds | process.js:74 | the mean `arraySum(maxs)/maxs.length` of values in [lo, hi] lies in [lo, hi] |
| LogStats.MaxIsMaximum | process.js:73 | `Math.max` of a non-empty bucket is one of its elements and no element exceeds it |
| LogStats.BlankRowCount | process.js:61-68 | the count is the length of the longest suffix whose records have a falsy technique: it is at most the list length, every record in that suffix is blank, and the record just before the suffix is not; the count is 0 when the last record has a technique |
| LogStats.Width | process.js:71 | the bucket width `Math.ceil(B / repeat)` is positive and is the least w with B ≤ w·repeat; with repeat 0 the width covers the whole suffix |
| LogStats.BucketsTile | process.js:71-73 | the buckets start at the first blank record and the last one ends at the end of the list; each bucket is non-empty, and each ends where the next begins, so they tile the suffix with no gap or overlap |
| LogStats.BucketCountBound | process.js:71-73 | with B > 0 and repeat > 0 there are between 1 and repeat buckets; with repeat 0 there is exactly one |
| LogStats.BucketMaximaLength | process.js:72-73 | the loop pushes one maximum per bucket, `ceil(B / db)` in all |
| LogStats.BucketMaximaAt | process.js:72-73 | the k-th value pushed is the largest blocked time of the k-th bucket, a non-empty slice of the suffix |
| LogStats.BucketMaximaShape | process.js:72-73 | the loop pushes one value per bucket, and the k-th is the largest blocked time of the k-th bucket |
| LogStats.BucketMaximaBounded | process.js:72-73 | there is at least one maximum, and every maximum lies between the smallest and the largest blocked time of the suffix |
| LogStats.CorrectedTime | process.js:70-75 | with B > 0 the corrected time lies between time − max(blocked over the suffix) and time − min(blocked over the suffix) |
| LogStats.CorrectedTimeIsMeanOfBucketMaxima | process.js:70-75 | the corrected time is the reported time less the mean of the maxima of the buckets `slice(i, i + db)`, `i = 0, db, 2·db, …`, with `db = ceil(B / repeat)` |
| LogRecord.Contains | process.js:122 | `technique.includes('Barrierfree')` holds exactly when the marker occurs in the technique at some position |
| LogParser.LineSummary | process.js:114-121 | the captured time, iterations, error and technique are kept; a missing sleep probability or duration becomes 0, as the source's default `'0'` gives, and a present one is kept; writing the summary into any record gives it a technique, so the backward scan stops there |
| LogRecord.WithSummaryAmends | process.js:127 | `Object.assign(record, result)` keeps the setup and thread fields, takes all seven summary fields, and leaves the record summarised |
| LogParser.OnGraphLoad | process.js:78-82 | a graph line adds an empty list only for an unseen name and never alters an existing list; the new context holds the graph name and nothing else |
| LogParser.OnOrderSize | process.js:83-87 | only order and size change in the context; the table is untouched; before any graph line the scan stops |
| LogParser.OnThreadCount | process.js:88-92 | the thread count is set and repeat becomes 0; nothing else changes |
| LogParser.OnLoopStart | process.js:93-101 | repeat grows by one; time, iterations, error and the sleep fields become 0 and technique becomes ''; the setup and thread fields are kept; a repeat that was never set stops the scan |
| LogParser.OnThreadStatus | process.js:102-111 | exactly one record is appended to the current graph's list. It agrees with the context on every setup and summary field and carries the five captured fields. The context and all other lists are unchanged, and the blank suffix grows by one |
| LogParser.AmendBlankRows | process.js:124-128 | records before the blank suffix are unchanged; each blank record keeps its setup and thread fields and takes all seven summary fields |
| LogParser.Correction | process.js:122-123 | a technique without `Barrierfree` has corrected time equal to time exactly; a barrier-free one has it within the blocked-time bounds |
| LogParser.CloseRun | process.js:124-135 | the list grows by exactly one summary record; only the blank suffix is amended; afterwards no record is blank |
| LogParser.OnResultSummary | process.js:112-128 | the scan stops exactly when the correction is undefined. Otherwise the blank suffix is amended with the summary and nothing before it changes; exactly one record carrying the summary is appended; the corrected time is the time for a technique without `Barrierfree` and within the blocked-time bounds for one with it; afterwards no record of the graph is blank |
| LogParser.ResultResetsContext | process.js:129-135 | the appended record is the context with repeat and the thread fields zeroed; the context keeps those zeros and its summary fields for the lines that follow |
| LogParser.Step | process.js:77-137 | an unmatched line leaves table and context unchanged; every transition keeps the `Valid` invariant |
| LogParser.Run | process.js:145-146 | the fold keeps `Valid`; the keys at the end are the keys at the start plus exactly the graphs announced |
| LogParser.ReadLog | process.js:140-148 | from an empty table and a null context, the table has one list per announced graph and no other |
| LogProperties.StatusKeepsSettled | process.js:102-111 | a status line only appends, behind the records already summarised |
| LogProperties.ResultKeepsSettled | process.js:124-135 | a result line keeps every record at or before the last summarised one |
| LogProperties.StepKeepsSettled | process.js:77-137 | no line removes a list, shortens it, or alters a summarised record |
| LogProperties.RunKeepsSettled | process.js:145-146 | over a whole scan every list survives, no shorter, with its summarised records untouched |
| LogProperties.StepWithoutResultAppends | process.js:78-111 | a line other than a result line never changes an existing record |
| LogProperties.RunWithoutResultsAppends | process.js:145-146 | a scan with no result line only appends: every list present at the start is a prefix of its list at the end |
| LogProperties.RunWithoutResultsKeepsBlank | process.js:145-146 | a scan with no result line that starts with only unsummarised records ends with only unsummarised records |
| LogProperties.ReadLogNoResultOnlyStatus | process.js:140-148 | reading a log with no result line yields a table whose every record is an unsummarised thread-status record carrying its blocked time |
| LogProperties.RunKeepsSummarisedList | process.js:124-128 | a list with no unsummarised record is kept whole, as a prefix, by every later scan, because the backward amendment loop stops at the first record with a technique |
| LogProperties.ResultAmendsOnlyItsRun | process.js:124-128 | after a result line, no later line changes any record of that graph up to and including its summary record, so two result lines amend disjoint sets of records |
| LogProperties.KarateScenario | process.js:77-148 | the one-status-line log for graph "karate" yields 2 records. The status record is amended with time 120, corrected time 120 and technique PushPR. The summary record carries PushPR, time and corrected time 120, the order and size, and has repeat and all five thread fields zeroed |
| LogProperties.BarrierfreeCorrectionExample | process.js:70-75 | blocked times 1, 3, 2, 6 with repeat 2 give buckets {1,3} and {2,6}, whose maxima 3 and 6 average 4.5, so the corrected time is 100 − 4.5 = 95.5 |
| Pagerank.DefaultResult | src/pagerank.hxx:55-56 | the default result has empty ranks and zero iterations, time and corrected time |
| Pagerank.ResultOf | src/pagerank.hxx:58-62 | the result built from ranks carries them and defaults the other fields to 0 |
| Pagerank.DefaultIsEmptyRanks | src/pagerank.hxx:55-62 | the default constructor equals the ranks constructor given no ranks |
| Pagerank.NewThreadInfo | src/pagerank.hxx:78-79 | a new thread record has the given id, iteration 0 and the epoch as stop |
| Pagerank.Clear | src/pagerank.hxx:80 | `clear()` sets iteration to 0 and stop to the epoch, leaving id unchanged |
| Pagerank.ThreadInfos | src/pagerank.hxx:84-89 | `threadInfos(N)` has N entries; entry i has id i, iteration 0 and the epoch as stop |
| Pagerank.ThreadInfosClear | src/pagerank.hxx:97-101 | every record is cleared and keeps its id |
| Pagerank.ClearIdempotent | src/pagerank.hxx:80-101 | clearing twice equals clearing once, and clearing fresh records changes nothing |
| Pagerank.MinDurationMs | src/pagerank.hxx:103-111 | the result is 0 exactly when no thread stopped after start. Otherwise it is the duration of some thread that did, and it is no larger than the duration of any such thread |
| Pagerank.MinDurationIgnoresUnstopped | src/pagerank.hxx:106 | threads with stop ≤ start never influence the result: it equals the result over the stopped threads alone |

## Left out

- Reading and writing files, line-ending normalisation and splitting the text into lines (`readFile`, `writeFile`, process.js:31-39, 141-142). `ReadLog` takes the lines already classified.
- The regular expressions and `parseFloat` (process.js:5-10). `LogLine.Classify` takes what each pattern captured, already converted to numbers. Numeric fields are exact reals and naturals. A non-numeric blocked-time token, which `parseFloat` turns into NaN, cannot occur in the model.
- CSV export and the command line (`writeCsv`, `processCsv`, `main`, process.js:47-52, 156-186). These only serialise the table. Key order in records only matters there and is not kept, and neither is the insertion order of graphs in the `Map`, which `processCsv` follows when it concatenates the lists (process.js:158): the table is an unordered `map`.
- Floating-point rounding. Times, errors and probabilities are reals.
- LogParser.OnLoopStart: the scan stops with `NonFinite` where the source would keep a NaN repeat counter and keep going.
- LogParser.OnResultSummary: the scan stops with `NonFinite` where a barrier-free result would have a NaN or infinite corrected time in the source, and the scan in the source would go on.
- Pagerank.ResultOf: the constructor moves the ranks out of the caller's vector (src/pagerank.hxx:61-62), leaving it empty; the pure function does not model that effect on the argument.
- Pagerank.MinDurationMs: time points are whole milliseconds and durations their exact difference. The float conversion of `durationMilliseconds`, which lives in a helper that is not part of this model, is not modelled. Whole milliseconds give every thread that stopped after the start a duration of at least 1, so the 0 that marks "no value yet" never clashes with a real duration; if that helper rounds a short positive duration down to 0, the source treats it as "no value", which the model does not show.
- Pagerank.ThreadInfos: the count is a natural number; a negative `N` makes the vector constructor fail in the source.
- The random device and engine of `ThreadInfo`, `threadInfosDelete` (memory release) and `PagerankOptions` (src/pagerank.hxx:30-40, 72-73, 91-95). These are random-number state, memory management and option plumbing.
- The PageRank numerics and the OpenMP and `std::thread` loops (src/pagerankSeq.hxx, src/pagerankOmp.hxx, src/pagerankBarrierfreeOmp.hxx, src/pagerankMonolithicBarrierfreeOmp.hxx, src/pagerankBarrierfreeThd.hxx, src/pagerankBasic*.hxx). This is floating-point and concurrent work. The log lines they print are the input of the parser.
- Random sleeps (src/random.hxx), wall-clock timing and the driver programs (main.cxx, main.py). These are nondeterministic or harness code.
