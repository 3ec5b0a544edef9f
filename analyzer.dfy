/** The state LogAnalyzer (logs/analyze_logs.py) builds while it reads a
    log, and what one line does to it. The class itself, which updates the
    same state in place, is in module LogAnalysis. */
module Analyzer {
  import opened Common
  import opened LogLines

  // ---------------------------------------------------------------------
  // insertion-ordered dictionaries

  /** A Python dict: values by key, and the keys in insertion order. */
  datatype OMap<V> = OMap(keys: seq<string>, vals: map<string, V>)

  ghost predicate OMapValid<V>(m: OMap<V>)
  {
    && (forall i, j | 0 <= i < j < |m.keys| :: m.keys[i] != m.keys[j])
    && (forall k :: k in m.vals <==> k in m.keys)
  }

  function EmptyOMap<V>(): (m: OMap<V>)
    ensures OMapValid(m)
  {
    OMap([], map[])
  }

  /** `d[k] = v`: a new key goes to the end, an existing key keeps its place. */
  function Put<V>(m: OMap<V>, k: string, v: V): (r: OMap<V>)
    requires OMapValid(m)
    ensures OMapValid(r)
    ensures r.vals == m.vals[k := v]
    ensures k in m.vals ==> r.keys == m.keys
    ensures k !in m.vals ==> r.keys == m.keys + [k]
  {
    if k in m.vals then OMap(m.keys, m.vals[k := v]) else OMap(m.keys + [k], m.vals[k := v])
  }

  /** `d.values()`, in insertion order. */
  function Values<V>(m: OMap<V>): (r: seq<V>)
    requires OMapValid(m)
    ensures |r| == |m.keys|
    ensures forall i | 0 <= i < |r| :: r[i] == m.vals[m.keys[i]]
  {
    seq(|m.keys|, i requires 0 <= i < |m.keys| => m.vals[m.keys[i]])
  }

  // ---------------------------------------------------------------------
  // records

  datatype HttpEnding = HttpEnding(end: DateTime, status: string, elapsed: real)

  /** An entry of `http_requests`; `ending` holds the keys HTTP_END adds. */
  datatype HttpRecord = HttpRecord(start: DateTime, verb: string, path: string, ending: Option<HttpEnding>)

  datatype ApiEnding = ApiEnding(end: DateTime, elapsed: real)

  /** An entry of `api_requests`; `ending` holds the keys REQ_END adds. */
  datatype ApiRecord = ApiRecord(start: DateTime, verb: string, url: string, caller: string,
                                 activeStart: nat, ending: Option<ApiEnding>)

  datatype SlowRecord = SlowRecord(reqId: string, timestamp: DateTime, elapsed: real, caller: string)

  datatype TimeoutRecord = TimeoutRecord(reqId: string, timestamp: DateTime, url: string, elapsed: real)

  datatype AnalyzerState = AnalyzerState(
    http: OMap<HttpRecord>,
    api: OMap<ApiRecord>,
    slow: seq<SlowRecord>,
    timeouts: seq<TimeoutRecord>,
    peak: nat)

  /** What the analyzer keeps true: both dicts are dicts, and no recorded
      call started with more calls in flight than the peak. */
  ghost predicate Inv(st: AnalyzerState)
  {
    && OMapValid(st.http) && OMapValid(st.api)
    && forall id | id in st.api.vals :: st.api.vals[id].activeStart <= st.peak
  }

  /** `LogAnalyzer()`. */
  function Init(): (st: AnalyzerState)
    ensures Inv(st)
  {
    AnalyzerState(EmptyOMap(), EmptyOMap(), [], [], 0)
  }

  // ---------------------------------------------------------------------
  // handlers

  /** analyze_http_start: a fresh entry, replacing any entry of that id. */
  function HttpStart(st: AnalyzerState, ts: DateTime, id: string, verb: string, path: string): AnalyzerState
    requires Inv(st)
  {
    st.(http := Put(st.http, id, HttpRecord(ts, verb, path, None)))
  }

  /** analyze_http_end, once `float()` has read the elapsed value: only an
      entry already started is completed. */
  function HttpEnd(st: AnalyzerState, ts: DateTime, id: string, status: string, elapsed: real): AnalyzerState
    requires Inv(st)
  {
    if id in st.http.vals then
      st.(http := Put(st.http, id, st.http.vals[id].(ending := Some(HttpEnding(ts, status, elapsed)))))
    else st
  }

  /** analyze_req_start: a fresh entry, and a new peak when more calls were
      in flight than ever before. */
  function ReqStart(st: AnalyzerState, ts: DateTime, id: string, verb: string, url: string,
                    caller: string, active: nat): AnalyzerState
    requires Inv(st)
  {
    st.(api := Put(st.api, id, ApiRecord(ts, verb, url, caller, active, None)),
        peak := if active > st.peak then active else st.peak)
  }

  /** analyze_req_end: only an entry already started is completed. */
  function ReqEnd(st: AnalyzerState, ts: DateTime, id: string, elapsed: real): AnalyzerState
    requires Inv(st)
  {
    if id in st.api.vals then
      st.(api := Put(st.api, id, st.api.vals[id].(ending := Some(ApiEnding(ts, elapsed)))))
    else st
  }

  /** A START makes the entry of its id a fresh one, dropping whatever an
      earlier END had added to it; an END completes an entry already
      started, keeping what its START recorded, and is ignored for an
      unknown id. No other entry changes. */
  lemma HandlerEntries(st: AnalyzerState, ts: DateTime, id: string, other: string)
    requires Inv(st) && other != id
    ensures forall verb, path :: HttpStart(st, ts, id, verb, path).http.vals[id] == HttpRecord(ts, verb, path, None)
    ensures forall verb, url, caller, active ::
      ReqStart(st, ts, id, verb, url, caller, active).api.vals[id] == ApiRecord(ts, verb, url, caller, active, None)
    ensures forall status, e :: id !in st.http.vals ==> HttpEnd(st, ts, id, status, e) == st
    ensures forall e :: id !in st.api.vals ==> ReqEnd(st, ts, id, e) == st
    ensures forall status, e :: id in st.http.vals ==>
      var r := HttpEnd(st, ts, id, status, e).http.vals[id];
      && (r.start, r.verb, r.path) == (st.http.vals[id].start, st.http.vals[id].verb, st.http.vals[id].path)
      && r.ending == Some(HttpEnding(ts, status, e))
    ensures forall e :: id in st.api.vals ==>
      var r := ReqEnd(st, ts, id, e).api.vals[id];
      && r == st.api.vals[id].(ending := Some(ApiEnding(ts, e)))
    ensures forall verb, path, status, e :: other in st.http.vals ==>
      && HttpStart(st, ts, id, verb, path).http.vals[other] == st.http.vals[other]
      && HttpEnd(st, ts, id, status, e).http.vals[other] == st.http.vals[other]
    ensures forall verb, url, caller, active, e :: other in st.api.vals ==>
      && ReqStart(st, ts, id, verb, url, caller, active).api.vals[other] == st.api.vals[other]
      && ReqEnd(st, ts, id, e).api.vals[other] == st.api.vals[other]
  {
  }

  // ---------------------------------------------------------------------
  // one line

  /** What one line of the log asks of the analyzer, as the dispatch of
      analyze_file and the handler's own `float()` read it. An elapsed
      value of None is text `float()` rejects. */
  datatype LineEvent =
    | HttpStartLine(ts: DateTime, requestId: string, verb: string, path: string)
    | HttpEndLine(ts: DateTime, requestId: string, status: string, elapsed: Option<real>)
    | ReqStartLine(ts: DateTime, id: string, verb: string, url: string, caller: string, active: nat)
    | ReqEndLine(ts: DateTime, id: string, elapsed: Option<real>)
    | ReqSlowLine(ts: DateTime, id: string, elapsed: Option<real>, caller: string)
    | ReqTimeoutLine(ts: DateTime, id: string, url: string, elapsed: Option<real>)
    | Skipped

  /** parse_line followed by the pattern dispatch. */
  function Classify(line: string): LineEvent
  {
    match ParseTimestamp(line)
    case None => Skipped
    case Some(ts) =>
      match TagOf(line)
      case HttpStartTag(id, verb, path) => HttpStartLine(ts, id, verb, path)
      case HttpEndTag(id, status, e) => HttpEndLine(ts, id, status, DecimalValue(e))
      case ReqStartTag(id, verb, url, caller, active) => ReqStartLine(ts, id, verb, url, caller, active)
      case ReqEndTag(id, e) => ReqEndLine(ts, id, DecimalValue(e))
      case ReqSlowTag(id, e, caller) => ReqSlowLine(ts, id, DecimalValue(e), caller)
      case ReqTimeoutTag(id, url, e) => ReqTimeoutLine(ts, id, url, DecimalValue(e))
      case Untagged => Skipped
  }

  /** The line carries an elapsed field `float()` rejects. */
  predicate BadElapsed(ev: LineEvent)
  {
    (ev.HttpEndLine? || ev.ReqEndLine? || ev.ReqSlowLine? || ev.ReqTimeoutLine?) && ev.elapsed.None?
  }

  /** The handler of one line. None where `float()` raises, which ends
      analyze_file with the exception. */
  function Step(st: AnalyzerState, ev: LineEvent): Option<AnalyzerState>
    requires Inv(st)
  {
    match ev
    case HttpStartLine(ts, id, verb, path) => Some(HttpStart(st, ts, id, verb, path))
    case HttpEndLine(ts, id, status, e) =>
      if e.None? then None else Some(HttpEnd(st, ts, id, status, e.value))
    case ReqStartLine(ts, id, verb, url, caller, active) => Some(ReqStart(st, ts, id, verb, url, caller, active))
    case ReqEndLine(ts, id, e) =>
      if e.None? then None else Some(ReqEnd(st, ts, id, e.value))
    case ReqSlowLine(ts, id, e, caller) =>
      if e.None? then None else Some(st.(slow := st.slow + [SlowRecord(id, ts, e.value, caller)]))
    case ReqTimeoutLine(ts, id, url, e) =>
      if e.None? then None else Some(st.(timeouts := st.timeouts + [TimeoutRecord(id, ts, url, e.value)]))
    case Skipped => Some(st)
  }

  /** A line fails exactly when its elapsed field is malformed, whatever
      the state; a line that does not fail keeps the invariant, and a
      skipped line changes nothing. */
  lemma StepFacts(st: AnalyzerState, ev: LineEvent)
    requires Inv(st)
    ensures Step(st, ev).None? <==> BadElapsed(ev)
    ensures Step(st, ev).Some? ==> Inv(Step(st, ev).value)
    ensures ev.Skipped? ==> Step(st, ev) == Some(st)
  {
    if Step(st, ev).Some? {
      var st' := Step(st, ev).value;
      forall id | id in st'.api.vals
        ensures st'.api.vals[id].activeStart <= st'.peak
      {
        assert id in st.api.vals || ev.ReqStartLine?;
      }
    }
  }

  /** A line without a valid timestamp, or matching none of the six
      patterns, is skipped. */
  lemma UntaggedLinesSkipped(line: string)
    requires ParseTimestamp(line).None? || TagOf(line).Untagged?
    ensures Classify(line) == Skipped
  {
  }

  // ---------------------------------------------------------------------
  // analyze_file

  /** How analyze_file ends: after the last line, or with the exception
      `float()` raised at line `at`, the state holding what the earlier
      lines did. */
  datatype Scan = Finished(state: AnalyzerState) | Failed(at: nat, state: AnalyzerState)

  /** The lines of a log, classified one by one. */
  function ClassifyAll(lines: seq<string>): (evs: seq<LineEvent>)
    ensures |evs| == |lines|
    ensures forall i | 0 <= i < |lines| :: evs[i] == Classify(lines[i])
  {
    seq(|lines|, i requires 0 <= i < |lines| => Classify(lines[i]))
  }

  /** analyze_file from state `st`. */
  function ScanLines(st: AnalyzerState, lines: seq<string>): Scan
    requires Inv(st)
  {
    ScanEvents(st, ClassifyAll(lines))
  }

  /** The handlers of a sequence of lines, in order, up to the first
      failure. */
  function ScanEvents(st: AnalyzerState, evs: seq<LineEvent>): (r: Scan)
    requires Inv(st)
    ensures Inv(r.state)
    ensures r.Failed? ==> r.at < |evs|
    decreases |evs|
  {
    if evs == [] then Finished(st)
    else
      var prior := ScanEvents(st, evs[..|evs| - 1]);
      match prior
      case Failed(_, _) => prior
      case Finished(s) =>
        StepFacts(s, evs[|evs| - 1]);
        match Step(s, evs[|evs| - 1])
        case None => Failed(|evs| - 1, s)
        case Some(s') => Finished(s')
  }

  /** The scan stops at the first malformed elapsed field and nowhere else;
      the state it reports is the one the lines before that left. */
  lemma ScanStopsAtFirstBadLine(st: AnalyzerState, evs: seq<LineEvent>)
    requires Inv(st)
    ensures ScanEvents(st, evs).Failed? <==> exists i | 0 <= i < |evs| :: BadElapsed(evs[i])
    ensures ScanEvents(st, evs).Failed? ==>
      var i := ScanEvents(st, evs).at;
      && BadElapsed(evs[i])
      && (forall j | 0 <= j < i :: !BadElapsed(evs[j]))
      && ScanEvents(st, evs[..i]) == Finished(ScanEvents(st, evs).state)
  {
    ScanFailsOnBadLine(st, evs);
    ScanFailsAtFirst(st, evs);
  }

  /** The scan fails exactly when some line has a malformed elapsed field. */
  lemma {:induction false} ScanFailsOnBadLine(st: AnalyzerState, evs: seq<LineEvent>)
    requires Inv(st)
    ensures ScanEvents(st, evs).Failed? <==> exists i | 0 <= i < |evs| :: BadElapsed(evs[i])
    decreases |evs|
  {
    if evs != [] {
      var init := evs[..|evs| - 1];
      ScanFailsOnBadLine(st, init);
      assert forall j | 0 <= j < |init| :: init[j] == evs[j];
      if ScanEvents(st, init).Finished? {
        StepFacts(ScanEvents(st, init).state, evs[|evs| - 1]);
      }
    }
  }

  /** A failed scan stops at the first malformed line, with the state the
      lines before it left. */
  lemma {:induction false} ScanFailsAtFirst(st: AnalyzerState, evs: seq<LineEvent>)
    requires Inv(st)
    ensures ScanEvents(st, evs).Failed? ==>
      var i := ScanEvents(st, evs).at;
      && BadElapsed(evs[i])
      && (forall j | 0 <= j < i :: !BadElapsed(evs[j]))
      && ScanEvents(st, evs[..i]) == Finished(ScanEvents(st, evs).state)
    decreases |evs|
  {
    if evs != [] {
      var init := evs[..|evs| - 1];
      ScanFailsAtFirst(st, init);
      assert forall j | 0 <= j < |init| :: init[j] == evs[j];
      match ScanEvents(st, init)
      case Failed(i, s) =>
        assert init[..i] == evs[..i];
      case Finished(s) =>
        ScanFailsOnBadLine(st, init);
        StepFacts(s, evs[|evs| - 1]);
    }
  }

  // ---------------------------------------------------------------------
  // what a finished scan holds

  /** The largest active count over the REQ_START lines, starting from `p`. */
  function MaxActive(p: nat, evs: seq<LineEvent>): nat
    decreases |evs|
  {
    if evs == [] then p
    else
      var m := MaxActive(p, evs[..|evs| - 1]);
      var ev := evs[|evs| - 1];
      if ev.ReqStartLine? && ev.active > m then ev.active else m
  }

  /** `concurrent_peak` is the largest active count any REQ_START line
      reported (or the starting peak), and so it never goes down. */
  lemma {:induction false} PeakIsLargestActive(st: AnalyzerState, evs: seq<LineEvent>)
    requires Inv(st)
    requires ScanEvents(st, evs).Finished?
    ensures ScanEvents(st, evs).state.peak == MaxActive(st.peak, evs)
    ensures ScanEvents(st, evs).state.peak >= st.peak
    ensures forall i | 0 <= i < |evs| && evs[i].ReqStartLine? :: evs[i].active <= ScanEvents(st, evs).state.peak
    decreases |evs|
  {
    if evs != [] {
      var init := evs[..|evs| - 1];
      var last := evs[|evs| - 1];
      LastStep(st, evs);
      PeakIsLargestActive(st, init);
      StepPeak(ScanEvents(st, init).state, last);
      assert forall j | 0 <= j < |init| :: init[j] == evs[j];
    }
  }

  /** One line raises the peak only to the active count of a REQ_START. */
  lemma StepPeak(s: AnalyzerState, ev: LineEvent)
    requires Inv(s) && Step(s, ev).Some?
    ensures Step(s, ev).value.peak == if ev.ReqStartLine? && ev.active > s.peak then ev.active else s.peak
  {
  }

  /** One line appends at most its own slow-request or timeout record. */
  lemma StepLists(s: AnalyzerState, ev: LineEvent)
    requires Inv(s) && Step(s, ev).Some?
    ensures Step(s, ev).value.slow ==
      s.slow + (if ev.ReqSlowLine? then [SlowRecord(ev.id, ev.ts, ev.elapsed.value, ev.caller)] else [])
    ensures Step(s, ev).value.timeouts ==
      s.timeouts + (if ev.ReqTimeoutLine? then [TimeoutRecord(ev.id, ev.ts, ev.url, ev.elapsed.value)] else [])
  {
  }

  /** The slow-request records of the REQ_SLOW lines, in log order. */
  function SlowRecords(evs: seq<LineEvent>): seq<SlowRecord>
    decreases |evs|
  {
    if evs == [] then []
    else
      var rest := SlowRecords(evs[..|evs| - 1]);
      match evs[|evs| - 1]
      case ReqSlowLine(ts, id, Some(x), caller) => rest + [SlowRecord(id, ts, x, caller)]
      case _ => rest
  }

  /** The timeout records of the REQ_TIMEOUT lines, in log order. */
  function TimeoutRecords(evs: seq<LineEvent>): seq<TimeoutRecord>
    decreases |evs|
  {
    if evs == [] then []
    else
      var rest := TimeoutRecords(evs[..|evs| - 1]);
      match evs[|evs| - 1]
      case ReqTimeoutLine(ts, id, url, Some(x)) => rest + [TimeoutRecord(id, ts, url, x)]
      case _ => rest
  }

  /** `slow_requests` and `timeouts` grow only at the end, one record per
      REQ_SLOW or REQ_TIMEOUT line, in log order. */
  lemma {:induction false} RecordsInLogOrder(st: AnalyzerState, evs: seq<LineEvent>)
    requires Inv(st)
    requires ScanEvents(st, evs).Finished?
    ensures ScanEvents(st, evs).state.slow == st.slow + SlowRecords(evs)
    ensures ScanEvents(st, evs).state.timeouts == st.timeouts + TimeoutRecords(evs)
    decreases |evs|
  {
    if evs != [] {
      var init := evs[..|evs| - 1];
      LastStep(st, evs);
      RecordsInLogOrder(st, init);
      StepLists(ScanEvents(st, init).state, evs[|evs| - 1]);
    }
  }

  /** The line starts the HTTP request `id`. */
  predicate StartsHttp(ev: LineEvent, id: string)
  {
    ev.HttpStartLine? && ev.requestId == id
  }

  /** The line starts the API call `id`. */
  predicate StartsApi(ev: LineEvent, id: string)
  {
    ev.ReqStartLine? && ev.id == id
  }

  /** A finished scan of a non-empty log is a finished scan of all lines
      but the last, followed by the last line's handler. */
  lemma LastStep(st: AnalyzerState, evs: seq<LineEvent>)
    requires Inv(st)
    requires evs != [] && ScanEvents(st, evs).Finished?
    ensures ScanEvents(st, evs[..|evs| - 1]).Finished?
    ensures Step(ScanEvents(st, evs[..|evs| - 1]).state, evs[|evs| - 1]).Some?
    ensures ScanEvents(st, evs).state == Step(ScanEvents(st, evs[..|evs| - 1]).state, evs[|evs| - 1]).value
  {
  }

  /** A start of `id` among the lines is a start among all but the last,
      or the last. */
  lemma SomeHttpStart(evs: seq<LineEvent>, id: string)
    requires evs != []
    ensures var init := evs[..|evs| - 1];
      (exists i | 0 <= i < |evs| :: StartsHttp(evs[i], id)) <==>
      (exists i | 0 <= i < |init| :: StartsHttp(init[i], id)) || StartsHttp(evs[|evs| - 1], id)
  {
    var init := evs[..|evs| - 1];
    assert forall j | 0 <= j < |init| :: init[j] == evs[j];
  }

  /** The same for the starts of API calls. */
  lemma SomeApiStart(evs: seq<LineEvent>, id: string)
    requires evs != []
    ensures var init := evs[..|evs| - 1];
      (exists i | 0 <= i < |evs| :: StartsApi(evs[i], id)) <==>
      (exists i | 0 <= i < |init| :: StartsApi(init[i], id)) || StartsApi(evs[|evs| - 1], id)
  {
    var init := evs[..|evs| - 1];
    assert forall j | 0 <= j < |init| :: init[j] == evs[j];
  }

  /** One line adds at most the id it starts to either dict. */
  lemma StepKeys(st: AnalyzerState, ev: LineEvent, id: string)
    requires Inv(st)
    requires Step(st, ev).Some?
    ensures id in Step(st, ev).value.http.vals <==> id in st.http.vals || StartsHttp(ev, id)
    ensures id in Step(st, ev).value.api.vals <==> id in st.api.vals || StartsApi(ev, id)
  {
    match ev
    case HttpStartLine(_, _, _, _) =>
    case HttpEndLine(_, _, _, _) =>
    case ReqStartLine(_, _, _, _, _, _) =>
    case ReqEndLine(_, _, _) =>
    case ReqSlowLine(_, _, _, _) =>
    case ReqTimeoutLine(_, _, _, _) =>
    case Skipped =>
  }

  /** An id is in `http_requests` exactly when it was there before or an
      HTTP_START line named it: an HTTP_END line never adds an entry. */
  lemma {:induction false} HttpEntriesComeFromStarts(st: AnalyzerState, evs: seq<LineEvent>, id: string)
    requires Inv(st)
    requires ScanEvents(st, evs).Finished?
    ensures id in ScanEvents(st, evs).state.http.vals <==>
      id in st.http.vals || exists i | 0 <= i < |evs| :: StartsHttp(evs[i], id)
    decreases |evs|
  {
    if evs != [] {
      var init := evs[..|evs| - 1];
      var last := evs[|evs| - 1];
      LastStep(st, evs);
      HttpEntriesComeFromStarts(st, init, id);
      StepKeys(ScanEvents(st, init).state, last, id);
      SomeHttpStart(evs, id);
    }
  }

  /** An id is in `api_requests` exactly when it was there before or a
      REQ_START line named it: a REQ_END line never adds an entry. */
  lemma {:induction false} ApiEntriesComeFromStarts(st: AnalyzerState, evs: seq<LineEvent>, id: string)
    requires Inv(st)
    requires ScanEvents(st, evs).Finished?
    ensures id in ScanEvents(st, evs).state.api.vals <==>
      id in st.api.vals || exists i | 0 <= i < |evs| :: StartsApi(evs[i], id)
    decreases |evs|
  {
    if evs != [] {
      var init := evs[..|evs| - 1];
      var last := evs[|evs| - 1];
      LastStep(st, evs);
      ApiEntriesComeFromStarts(st, init, id);
      StepKeys(ScanEvents(st, init).state, last, id);
      SomeApiStart(evs, id);
    }
  }
}
