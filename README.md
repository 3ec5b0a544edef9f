# Dashboard request instrumentation, modelled in Dafny

This project models three parts of the Open-Falcon dashboard (`rrd`) that
were added to find the cause of 504 timeouts, and proves what each of them
promises.

- **The resilient database wrapper** (`rrd/store.py`, class `DB`). It
  keeps one lazily opened MySQL connection. `execute` runs a statement.
  When the first attempt fails with `AttributeError` or `OperationalError`,
  it drops the connection, reconnects and runs the statement exactly once
  more. `insert` and `update` roll back on `IntegrityError` and return
  `None`. `commit` and `rollback` are best-effort. Module `Store` gives each
  operation as a pure function of the wrapper's state and of an oracle. The
  oracle says what the driver does on each call: succeed, raise a given
  error class, or refuse to connect. Each function returns the new state,
  the trace of driver calls and log lines, and a result or the exception
  raised. Class `StoreDb.DB` holds the `conn` field and performs the same
  operations in place, each proved equal to its function.
- **The outbound call tracker** (`rrd/corelib/__init__.py`,
  `auth_requests`). It has:
  - a global request counter;
  - a registry of in-flight calls;
  - caller attribution over the stack frames;
  - the token header merged with the caller's headers;
  - method dispatch;
  - classification of the outcome into REQ_SUCCESS, REQ_SLOW, REQ_TIMEOUT,
    REQ_CONN_ERROR and REQ_EXCEPTION lines;
  - the `finally` cleanup that logs REQ_END.

  Module `Tracker` gives one call as a function of the tracker state and of
  the call's environment. The environment is the token, the stack, the
  thread name, the clock readings and the network outcome. Class
  `Corelib.CallTracker` holds the counter, the registry and the log, and
  performs a call step by step. Caller attribution is a `while` loop over
  the frames, proved equal to its function.
- **The log analyzer** (`logs/analyze_logs.py`, `LogAnalyzer`).
  - Module `LogLines` covers how a line is read:
    - the leading `%Y-%m-%d %H:%M:%S` timestamp and its calendar check;
    - the six tag patterns, with the regex engine's greedy matching and backtracking;
    - `re.search`;
    - `float()` on a `[\d.]+` run.
  - Module `Analyzer` holds the analyzer's state and its handlers. Python
    dicts keep their insertion order. The module also gives the whole scan
    of a log.
  - Module `Report` holds the figures `generate_report` prints:
    - the averages, maxima and minima;
    - the ten slowest HTTP requests;
    - per-url statistics and the top ten urls;
    - the twenty slowest slow calls;
    - the concurrency distribution;
    - the findings.
  - Class `LogAnalysis.LogAnalyzer` holds the analyzer's fields and updates
    them in place, line by line. Its `GenerateReport` fills the per-url
    and per-caller tables with loops.
- **The emitters and the analyzer together** (module `Emitters`). A REQ_START
  or REQ_END line written by `auth_requests`, or an HTTP_END line written by
  the request hook in `rrd/__init__.py`, is recognised by the analyzer's
  matching pattern. It reads back the id, the active count and the elapsed
  time that were written, provided the fields hold no whitespace.

Foreign calls are inputs to the model: MySQL, `requests`, `time.time()`,
`traceback.extract_stack`, `threading` and `flask.g`.

Where the system's design description and the code disagree, the model
follows the code. The description says the registry record of a call is
removed whatever happens. In the code, the "no api token" raise
(`rrd/corelib/__init__.py:67-69`) comes before the `try`. A `headers`
keyword that `dict.update` rejects (`:78-80`) does as well. On these two
paths the record stays in the registry and no REQ_END is logged.
`Tracker.NoTokenLeaks` and `Tracker.BadHeadersLeak` state this.

## Model

| member | source | states |
|---|---|---|
| Store.ConnectDb | rrd/store.py:37-50 | `connect_db` yields no connection exactly when connecting raised, and otherwise the new connection |
| Store.GetConn | rrd/store.py:58-61 | connects only when no connection is cached and then caches the result; a cached connection is returned with nothing done; a failed connect leaves `conn` None |
| Store.FirstCursor | rrd/store.py:67-75 | the first attempt runs on the caller's cursor when one is passed, otherwise on a new cursor of the connection `get_conn` gives; there is no cursor exactly when there is no connection |
| Store.ReconnectFacts | rrd/store.py:84-95 | the handler logs the reconnect, closes the connection it held, reconnects, and runs the statement once on a fresh cursor when it gets a connection; the retry's result is final |
| Store.ExecuteFirstSucceeds | rrd/store.py:63-106 | a first attempt that succeeds is the only attempt, and `execute` returns the cursor that ran the statement: the caller's cursor, or the new cursor of the connection |
| Store.ExecuteTransient | rrd/store.py:84-106 | a first AttributeError or OperationalError closes the connection, drops it, reconnects and runs the statement exactly once more on a fresh cursor, which is returned, or whose error propagates |
| Store.ExecuteOtherError | rrd/store.py:97-104 | any other first error is logged as DB_ERROR and propagates unchanged, with no retry and the connection kept |
| Store.ExecuteAtMostTwice | rrd/store.py:63-106 | `execute` never attempts the statement more than twice, closes no cursor, and returns only a cursor the statement ran on |
| Store.Commit | rrd/store.py:158-163 | a no-op without a connection; an OperationalError drops the connection and is swallowed; any other error propagates |
| Store.Rollback | rrd/store.py:165-170 | the same best-effort policy as commit |
| Store.SwallowFacts | rrd/store.py:117-132 | the IntegrityError handler only rolls back and returns None unless rollback itself raises |
| Store.CountsOfConcat | rrd/store.py:63-134 | attempts and closed cursors of a trace add up over its parts |
| Store.InsertResult | rrd/store.py:110-120 | insert returns `lastrowid` exactly when the statement ran and the commit did not raise; an IntegrityError from either is rolled back and gives None; other errors propagate unchanged |
| Store.InsertTrace | rrd/store.py:110-120 | insert reads `lastrowid` right after the statement and before committing, and closes the cursor last, exactly when `execute` returned one |
| Store.UpdateResult | rrd/store.py:124-134 | update returns `rowcount` exactly when the statement ran and the commit did not raise; an IntegrityError is rolled back and gives None; other errors propagate unchanged |
| Store.UpdateTrace | rrd/store.py:124-134 | update commits before it reads `rowcount`, reads it only after a commit that did not raise, and closes the cursor last, exactly when `execute` returned one |
| Store.QueryAll | rrd/store.py:136-142 | rows are fetched and the cursor closed only when `execute` returned a cursor; if `execute` raised, the same error surfaces and nothing is fetched or closed |
| Store.QueryOne | rrd/store.py:144-149 | the first row, or None exactly when there are no rows; errors as in query_all |
| Store.FirstColumn | rrd/store.py:154-155 | one value per row, the row's first |
| Store.QueryColumn | rrd/store.py:151-156 | the first element of each row, `[]` when there are none; errors as in query_all |
| StoreDb.DB.constructor | rrd/store.py:54-56 | a new wrapper holds no connection |
| StoreDb.DB.GetConn | rrd/store.py:58-61 | updates `conn` in place as `Store.GetConn` says |
| StoreDb.DB.Reconnect | rrd/store.py:84-95 | performs the reconnect-and-retry handler in place as `Store.Reconnect` says |
| StoreDb.DB.Execute | rrd/store.py:63-106 | performs `execute` in place with the state, trace and result `Store.Execute` gives |
| StoreDb.DB.Commit | rrd/store.py:158-163 | performs `commit` in place as `Store.Commit` says |
| StoreDb.DB.Rollback | rrd/store.py:165-170 | performs `rollback` in place as `Store.Rollback` says |
| StoreDb.DB.Swallow | rrd/store.py:117-118 | performs the IntegrityError handler in place as `Store.Swallow` says |
| StoreDb.DB.Insert | rrd/store.py:110-120 | performs `insert` in place as `Store.Insert` says |
| StoreDb.DB.Update | rrd/store.py:124-134 | performs `update` in place as `Store.Update` says |
| StoreDb.DB.QueryAll | rrd/store.py:136-142 | performs `query_all` in place as `Store.QueryAll` says |
| StoreDb.DB.QueryOne | rrd/store.py:144-149 | performs `query_one` in place as `Store.QueryOne` says |
| StoreDb.DB.QueryColumn | rrd/store.py:151-156 | performs `query_column` in place as `Store.QueryColumn` says |
| Tracker.LastOccurrence | rrd/corelib/__init__.py:45 | the position of the last occurrence of the separator, or none when it does not occur |
| Tracker.AfterLast | rrd/corelib/__init__.py:45 | `split('rrd/')[-1]` is the suffix after the last `rrd/`, holds no `rrd/`, and is the whole name when there is none |
| Tracker.InnermostQualifying | rrd/corelib/__init__.py:43-44 | the innermost frame whose file name contains `rrd/` and not `__init__.py`, or none exactly when no frame qualifies |
| Tracker.RenderedNotUnknown | rrd/corelib/__init__.py:45 | a rendered frame is never the text "unknown" |
| Tracker.CallerOfInnermost | rrd/corelib/__init__.py:41-46 | the caller is "unknown" exactly when no frame below the top qualifies, and otherwise is the rendering of the innermost qualifying frame |
| Tracker.FindCaller | rrd/corelib/__init__.py:41-46 | the loop over the frames from innermost outward, stopping at the first qualifying one, computes that caller |
| Tracker.Registration | rrd/corelib/__init__.py:35-65 | every call takes the next counter value as its id, REQ_START reports the registry size before its record is added, and the record holds the method, url, start, caller and thread |
| Tracker.NoTokenLeaks | rrd/corelib/__init__.py:67-69 | without a token the call raises after REQ_START, its record stays in the registry and no REQ_END is logged |
| Tracker.BadHeadersLeak | rrd/corelib/__init__.py:78-80 | a `headers` keyword `dict.update` rejects raises outside the `try`, leaving the record behind |
| Tracker.CleanupRestores | rrd/corelib/__init__.py:135-145 | once the `try` is entered the registry returns to its contents before the call, and REQ_END, the last line, reports that size |
| Tracker.HeadersMerged | rrd/corelib/__init__.py:71-92 | the library gets the token header with the caller's headers merged over it, and exactly the caller's other keywords, unchanged, with nothing added |
| Tracker.OnlyKnownMethodsSent | rrd/corelib/__init__.py:85-133 | only POST, GET, PUT and DELETE reach the HTTP library; any other method is logged as REQ_EXCEPTION and re-raised |
| Tracker.ResponseLogged | rrd/corelib/__init__.py:97-109 | a response is logged as REQ_SUCCESS with its status, plus REQ_SLOW exactly when the call took over 2 s, and its status is returned |
| Tracker.DispatchResponse | rrd/corelib/__init__.py:97-109 | the `try` block of a call that got a response logs REQ_SUCCESS and, after more than 2 s, REQ_SLOW |
| Tracker.FailureClassified | rrd/corelib/__init__.py:111-133 | a failure is logged once, as REQ_TIMEOUT for a timeout, else REQ_CONN_ERROR for a connection error, else REQ_EXCEPTION, and re-raised |
| Tracker.CallKeepsValid | rrd/corelib/__init__.py:35-138 | every id in the registry has been handed out, before and after any call |
| Tracker.RunFacts | rrd/corelib/__init__.py:35-138 | over a sequence of calls, the i-th gets id `counter + i + 1`, so ids increase and are never reused, and the registry grows by exactly the calls that raised before their `try` |
| Corelib.CallTracker.constructor | rrd/corelib/__init__.py:24-27 | the tracker starts with counter 0, an empty registry and an empty log |
| Corelib.CallTracker.AuthRequests | rrd/corelib/__init__.py:29-145 | one call updates the counter, registry and log in place, with the result `Tracker.AuthRequests` gives |
| Corelib.CallTracker.Register | rrd/corelib/__init__.py:35-65 | the counter goes up by one, the new id maps to the call's record, and REQ_START is logged |
| Corelib.CallTracker.MergeHeaders | rrd/corelib/__init__.py:71-80 | the token header updated from the `headers` keyword, and the keywords without it |
| Corelib.CallTracker.Try | rrd/corelib/__init__.py:84-133 | the `try` block and its handlers log what `Tracker.Dispatch` says and leave the counter and registry alone |
| LogLines.Padded | logs/analyze_logs.py:35 | a number written with a fixed number of digits reads back as itself when it fits |
| LogLines.PaddedOfDigits | logs/analyze_logs.py:35 | a digit string is the padding of its own value |
| LogLines.TimestampRoundTrip | logs/analyze_logs.py:26-42 | `parse_line` reads back any valid timestamp written in front of a line |
| LogLines.TimestampReadBack | logs/analyze_logs.py:29-37 | an accepted line starts with the text of a valid calendar date-time, the one read |
| LogLines.Run | logs/analyze_logs.py:133-166 | a greedy run takes the longest prefix inside its character class |
| LogLines.MatchPrefix | logs/analyze_logs.py:133-166 | each group of a match is a non-empty run of its class |
| LogLines.ShorterRunsFail | logs/analyze_logs.py:133-166 | giving back characters of a run cannot make the rest of the pattern match |
| LogLines.BacktrackIsLongestRun | logs/analyze_logs.py:133-166 | on these patterns the backtracking regex engine finds exactly the greedy match |
| LogLines.Search | logs/analyze_logs.py:133-166 | `re.search` finds the match at the leftmost position where one exists, and none when no position matches |
| LogLines.SearchGroups | logs/analyze_logs.py:133-166 | a successful search has one non-empty group of the right class per group of the pattern |
| LogLines.PatternsDeterministic | logs/analyze_logs.py:133-163 | all six patterns match without backtracking |
| LogLines.TagOf | logs/analyze_logs.py:133-166 | ids of REQ_ lines are digits and every elapsed field is a run of digits and dots |
| LogLines.DispatchOrder | logs/analyze_logs.py:132-166 | a line goes to the first pattern, in the source's order, that matches anywhere in it, and to none when none matches |
| LogLines.IndexOf | logs/analyze_logs.py:60 | the first position of a character, or the length when it is absent |
| Analyzer.Put | logs/analyze_logs.py:50-94 | `d[k] = v`: a new key goes to the end, an existing key keeps its place |
| Analyzer.Values | logs/analyze_logs.py:186-262 | `d.values()` in insertion order |
| Analyzer.Init | logs/analyze_logs.py:18-24 | a new analyzer keeps the invariant |
| Analyzer.HandlerEntries | logs/analyze_logs.py:44-94 | a START makes a fresh entry, dropping earlier end data; an END completes only an existing entry and is ignored for an unknown id; no other entry changes |
| Analyzer.StepFacts | logs/analyze_logs.py:44-166 | a line fails exactly when its elapsed field is text `float()` rejects; a skipped line changes nothing; the invariant is kept |
| Analyzer.UntaggedLinesSkipped | logs/analyze_logs.py:125-127 | a line without a valid timestamp, or matching no pattern, is skipped |
| Analyzer.ClassifyAll | logs/analyze_logs.py:124-130 | every line is classified, in order |
| Analyzer.ScanEvents | logs/analyze_logs.py:122-166 | the scan keeps the invariant and fails only at a line of the log |
| Analyzer.ScanStopsAtFirstBadLine | logs/analyze_logs.py:60-124 | `analyze_file` raises exactly when some line has a malformed elapsed field, at the first such line, with the state the earlier lines built |
| Analyzer.PeakIsLargestActive | logs/analyze_logs.py:84-85 | `concurrent_peak` never decreases and ends as the largest active count of any REQ_START line, or its start value |
| Analyzer.RecordsInLogOrder | logs/analyze_logs.py:102-120 | slow requests and timeouts are appended in log order, whether or not their START was seen |
| Analyzer.StepKeys | logs/analyze_logs.py:50-92 | one line adds to a dict at most the id it starts |
| Analyzer.HttpEntriesComeFromStarts | logs/analyze_logs.py:50-62 | an id is in `http_requests` exactly when an HTTP_START line named it |
| Analyzer.ApiEntriesComeFromStarts | logs/analyze_logs.py:75-92 | an id is in `api_requests` exactly when a REQ_START line named it |
| LogAnalysis.LogAnalyzer.constructor | logs/analyze_logs.py:18-24 | a new analyzer holds empty dicts and lists and a zero peak |
| LogAnalysis.LogAnalyzer.AnalyzeHttpStart | logs/analyze_logs.py:44-54 | updates `http_requests` in place as `Analyzer.HttpStart` says |
| LogAnalysis.LogAnalyzer.AnalyzeHttpEnd | logs/analyze_logs.py:56-65 | updates `http_requests` in place as `Analyzer.HttpEnd` says |
| LogAnalysis.LogAnalyzer.AnalyzeReqStart | logs/analyze_logs.py:67-85 | updates `api_requests` and `concurrent_peak` in place as `Analyzer.ReqStart` says |
| LogAnalysis.LogAnalyzer.AnalyzeReqEnd | logs/analyze_logs.py:87-94 | updates `api_requests` in place as `Analyzer.ReqEnd` says |
| LogAnalysis.LogAnalyzer.AnalyzeSlow | logs/analyze_logs.py:96-107 | appends one slow-request record and changes nothing else |
| LogAnalysis.LogAnalyzer.AnalyzeTimeout | logs/analyze_logs.py:109-120 | appends one timeout record and changes nothing else |
| LogAnalysis.LogAnalyzer.AnalyzeFile | logs/analyze_logs.py:122-166 | the line loop leaves the state `Analyzer.ScanLines` gives, and reports the line where `float()` raised |
| LogAnalysis.LogAnalyzer.GenerateReport | logs/analyze_logs.py:168-299 | the figures of the report are those `Report.ReportOf` gives |
| LogAnalysis.ScanPrefixFailed | logs/analyze_logs.py:124-166 | once a line has raised, the lines after it are never read |
| Report.Largest | logs/analyze_logs.py:189-266 | `max` is an element and no element exceeds it |
| Report.Smallest | logs/analyze_logs.py:190 | `min` is an element and no element is below it |
| Report.OccurrencesPositive | logs/analyze_logs.py:270 | a value is counted exactly when it occurs |
| Report.Take | logs/analyze_logs.py:197-240 | a `[:n]` slice is a prefix of at most `n` elements |
| Report.InsertDescBounded | logs/analyze_logs.py:193-197 | inserting keeps every key below a bound |
| Report.InsertDescFacts | logs/analyze_logs.py:193-197 | inserting into a list sorted by decreasing key keeps it sorted and adds exactly the element |
| Report.SortDescFacts | logs/analyze_logs.py:193-240 | `sorted(..., reverse=True)` orders by decreasing key and is a permutation |
| Report.AddCall | logs/analyze_logs.py:217-220 | one call of a url adds one to its count, its elapsed time to its total, and raises its maximum to at least that time (starting from zeros for a new url, which goes to the end); no other entry changes |
| Report.UrlStatsMeaning | logs/analyze_logs.py:214-220 | `url_stats` has an entry for exactly the urls with a finished call, holding their count, total and maximum |
| Report.UrlCountsAddUp | logs/analyze_logs.py:214-220 | the counts of `url_stats` add up to the number of finished calls |
| Report.CountTotalUpdate | logs/analyze_logs.py:218 | one more call of a known url adds one to the total count |
| Report.CountTotalOther | logs/analyze_logs.py:218 | an entry outside the listed urls does not change their total |
| Report.CountTotalFresh | logs/analyze_logs.py:218 | a new url with one call adds one to the total count |
| Report.BuildUrlStats | logs/analyze_logs.py:214-220 | the loop builds exactly the table `UrlStatsOf` describes |
| Report.UrlLines | logs/analyze_logs.py:223-224 | `url_stats.items()`: one entry per url, in the table's order, with that url's statistics |
| Report.CallerCountsMeaning | logs/analyze_logs.py:294-296 | `slow_callers` has an entry for exactly the callers of slow requests, counting their slow requests |
| Report.CountSlowCallers | logs/analyze_logs.py:294-296 | the loop builds exactly the table `CallerCountsOf` describes |
| Report.FirstMax | logs/analyze_logs.py:298 | `max(items, key=count)` is the first entry with the largest count |
| Report.HistogramFrom | logs/analyze_logs.py:270-272 | the distribution lists active counts in increasing order |
| Report.NatMax | logs/analyze_logs.py:266 | no active count exceeds the maximum |
| Report.NatMaxIn | logs/analyze_logs.py:266 | the maximum of a non-empty list is one of its elements |
| Report.HistogramMeaning | logs/analyze_logs.py:262-277 | the distribution lists each active count that occurs, once, with the number of calls that started with it |
| Report.NoFindings | logs/analyze_logs.py:283-305 | no finding is printed exactly when there was no timeout, the peak is at most 5, no API call took over 10 s, and there was no slow request |
| Report.TopCallerIsFirstMost | logs/analyze_logs.py:294-299 | the slowest caller named has the most slow requests, and is the first seen among callers tied with it |
| Report.ReportParts | logs/analyze_logs.py:193-277 | the distribution, the slowest slow calls and the slowest HTTP requests are taken from the sorted and counted lists |
| Report.DistributionBelowPeak | logs/analyze_logs.py:262-266 | every active count in the distribution, and so its maximum, is at most `concurrent_peak` |
| Report.TopUrlsOrdered | logs/analyze_logs.py:222-227 | the urls listed are at most 10, the first of the whole table sorted by total time, largest first; the sorted table holds every url of the table once |
| Report.SlowestListsOrdered | logs/analyze_logs.py:193-240 | the slowest lists are the first 10 or 20 of the sorted lists, slowest first |
| Emitters.Fmt3ReadBack | rrd/corelib/__init__.py:143 | `%.3f` of a whole number of milliseconds is digits and one dot, and `float()` reads back the seconds |
| Emitters.MatchRendered | logs/analyze_logs.py:139-151 | a pattern matched against the text its literals and whitespace-free fields make gives back those fields |
| Emitters.ReqStartReadBack | rrd/corelib/__init__.py:62-65 | a REQ_START line as `auth_requests` logs it is read as a REQ_START event with the id, method, url, caller and active count written |
| Emitters.ReqEndReadBack | rrd/corelib/__init__.py:142-145 | a REQ_END line as `auth_requests` logs it is read as a REQ_END event with the id and elapsed time written |
| Emitters.HttpEndReadBack | rrd/__init__.py:50-53 | an HTTP_END line as the request hook logs it is read as an HTTP_END event with the request id, status and elapsed time written |

## Left out

- Elapsed times are exact decimals (`real`) in the analyzer. The emitters take a whole number of milliseconds, which `%.3f` prints exactly. Binary floating point and its rounding are not modelled.
- The clock is an input. A call reads the elapsed time twice: once in the `try` block or its handler, for REQ_SUCCESS, REQ_SLOW and the failure lines, and once in the `finally` block, for REQ_END. The model takes both readings as inputs and does not relate them. The 0.1 s threshold of the slow-statement log and the 2 s threshold of REQ_SLOW compare the given elapsed milliseconds.
- Emitters.ReqStartReadBack: it holds only when the method, url, caller and thread fields hold no whitespace. A field with whitespace ends the `\S+` run before the literal that follows it, and no shorter run lets that literal match, so the REQ_START pattern does not match the line (unless the field itself spells out the rest of the pattern): the line is skipped and the call gets no entry (a worker thread named `Thread-1 (worker)` is enough).
- Emitters.HttpEndReadBack: it holds only when the request id, method, path and status fields hold no whitespace; otherwise the HTTP_END pattern does not match the line, for the same reason, and the request's end is not recorded.
- The REQ_SUCCESS, REQ_SLOW, REQ_TIMEOUT, REQ_CONN_ERROR and REQ_EXCEPTION lines are events in the tracker's log. There is no read-back lemma for their text, and so none for the HTTP_START hook either.
- `\d` stands for the ASCII digits. The other Unicode decimal digits Python's `\d` accepts are not modelled.
- The report's text, the percent formatting, the `'#'` bar and the fixed advice lines are left out. The report is the list of figures the text is built from.
- `self.errors` is never filled in the source and is not modelled.
- `main`, reading a file or standard input, is left out.
- Locks and threads are left out: calls are sequential.
- The token header is built from a name and signature that need no JSON escaping.
- The token is modelled as present or falsy. When `g.user_token` is not set at all, reading it raises AttributeError before the REQ_ERROR line is logged; that path is not modelled.
- Opening a cursor with `conn.cursor()`, closing a connection or a cursor, and `fetchall` are taken never to raise.
- The MySQL driver, the HTTP library and the stack walk are inputs.
- Report.SortDescFacts: it does not state the stability of `sorted` for equal keys. The model's insertion sort keeps equal keys in order, but no lemma says so.
- The Flask hooks of `rrd/__init__.py` are modelled only for the text of their HTTP_END line.
