/** The LogAnalyzer class of logs/analyze_logs.py: its handlers update the
    fields in place, one log line at a time, as module Analyzer describes. */
module LogAnalysis {
  import opened Common
  import opened LogLines
  import opened Analyzer
  import opened Report

  class LogAnalyzer {
    var httpRequests: OMap<HttpRecord>
    var apiRequests: OMap<ApiRecord>
    var slowRequests: seq<SlowRecord>
    var timeouts: seq<TimeoutRecord>
    var concurrentPeak: nat

    function State(): AnalyzerState
      reads this
    {
      AnalyzerState(httpRequests, apiRequests, slowRequests, timeouts, concurrentPeak)
    }

    ghost predicate Valid()
      reads this
    {
      Inv(State())
    }

    constructor ()
      ensures State() == Init() && Valid()
    {
      httpRequests := OMap([], map[]);
      apiRequests := OMap([], map[]);
      slowRequests := [];
      timeouts := [];
      concurrentPeak := 0;
    }

    method AnalyzeHttpStart(ts: DateTime, requestId: string, verb: string, path: string)
      requires Valid()
      modifies this
      ensures Valid() && State() == HttpStart(old(State()), ts, requestId, verb, path)
    {
      httpRequests := Put(httpRequests, requestId, HttpRecord(ts, verb, path, None));
    }

    method AnalyzeHttpEnd(ts: DateTime, requestId: string, status: string, elapsed: real)
      requires Valid()
      modifies this
      ensures Valid() && State() == HttpEnd(old(State()), ts, requestId, status, elapsed)
    {
      if requestId in httpRequests.vals {
        var entry := httpRequests.vals[requestId];
        httpRequests := Put(httpRequests, requestId, entry.(ending := Some(HttpEnding(ts, status, elapsed))));
      }
    }

    method AnalyzeReqStart(ts: DateTime, id: string, verb: string, url: string, caller: string, active: nat)
      requires Valid()
      modifies this
      ensures Valid() && State() == ReqStart(old(State()), ts, id, verb, url, caller, active)
    {
      apiRequests := Put(apiRequests, id, ApiRecord(ts, verb, url, caller, active, None));
      if active > concurrentPeak {
        concurrentPeak := active;
      }
    }

    method AnalyzeReqEnd(ts: DateTime, id: string, elapsed: real)
      requires Valid()
      modifies this
      ensures Valid() && State() == ReqEnd(old(State()), ts, id, elapsed)
    {
      if id in apiRequests.vals {
        var entry := apiRequests.vals[id];
        apiRequests := Put(apiRequests, id, entry.(ending := Some(ApiEnding(ts, elapsed))));
      }
    }

    method AnalyzeSlow(ts: DateTime, id: string, elapsed: real, caller: string)
      requires Valid()
      modifies this
      ensures Valid() && State() == old(State()).(slow := old(slowRequests) + [SlowRecord(id, ts, elapsed, caller)])
    {
      slowRequests := slowRequests + [SlowRecord(id, ts, elapsed, caller)];
    }

    method AnalyzeTimeout(ts: DateTime, id: string, url: string, elapsed: real)
      requires Valid()
      modifies this
      ensures Valid() && State() == old(State()).(timeouts := old(timeouts) + [TimeoutRecord(id, ts, url, elapsed)])
    {
      timeouts := timeouts + [TimeoutRecord(id, ts, url, elapsed)];
    }

    /** The dispatch of analyze_file for one classified line: the handler
        its tag selects, or `false` when `float()` raises on its elapsed
        field (nothing is then changed). */
    method AnalyzeLine(ev: LineEvent) returns (ok: bool)
      requires Valid()
      modifies this
      ensures Valid()
      ensures ok == Analyzer.Step(old(State()), ev).Some?
      ensures State() == (if ok then Analyzer.Step(old(State()), ev).value else old(State()))
    {
      ok := true;
      match ev {
        case HttpStartLine(ts, id, verb, path) =>
          AnalyzeHttpStart(ts, id, verb, path);
        case HttpEndLine(ts, id, status, e) =>
          if e.None? {
            return false;
          }
          AnalyzeHttpEnd(ts, id, status, e.value);
        case ReqStartLine(ts, id, verb, url, caller, active) =>
          AnalyzeReqStart(ts, id, verb, url, caller, active);
        case ReqEndLine(ts, id, e) =>
          if e.None? {
            return false;
          }
          AnalyzeReqEnd(ts, id, e.value);
        case ReqSlowLine(ts, id, e, caller) =>
          if e.None? {
            return false;
          }
          AnalyzeSlow(ts, id, e.value, caller);
        case ReqTimeoutLine(ts, id, url, e) =>
          if e.None? {
            return false;
          }
          AnalyzeTimeout(ts, id, url, e.value);
        case Skipped =>
      }
    }

    /** analyze_file: every line in order; `failedAt` is the line whose
        elapsed field made `float()` raise, where reading stopped. */
    method AnalyzeFile(lines: seq<string>) returns (failedAt: Option<nat>)
      requires Valid()
      modifies this
      ensures Valid()
      ensures var r := ScanLines(old(State()), lines);
        && State() == r.state
        && (r.Finished? <==> failedAt.None?)
        && (r.Failed? ==> failedAt == Some(r.at))
    {
      ghost var start := State();
      ghost var evs := ClassifyAll(lines);
      var i := 0;
      while i < |lines|
        invariant 0 <= i <= |lines|
        invariant Valid()
        invariant ScanEvents(start, evs[..i]) == Finished(State())
      {
        ScanNext(start, evs, i);
        var ok := AnalyzeLine(Classify(lines[i]));
        if !ok {
          ScanPrefixFailed(start, evs, i);
          return Some(i);
        }
        i := i + 1;
      }
      assert evs[..i] == evs;
      return None;
    }

    /** generate_report: the per-url statistics and the slow requests per
        caller are counted by loops over the records, the rest is read off
        the fields. */
    method GenerateReport() returns (r: Report)
      requires Valid()
      ensures r == ReportOf(State())
    {
      var stats := BuildUrlStats(Values(apiRequests));
      var callers := CountSlowCallers(slowRequests);
      r := ReportWith(State(), stats, callers);
    }
  }

  /** One more line continues a scan that has not failed yet. */
  lemma ScanNext(st: AnalyzerState, evs: seq<LineEvent>, i: nat)
    requires Inv(st)
    requires i < |evs| && ScanEvents(st, evs[..i]).Finished?
    ensures var s := ScanEvents(st, evs[..i]).state;
      ScanEvents(st, evs[..i + 1])
        == (if Analyzer.Step(s, evs[i]).Some? then Finished(Analyzer.Step(s, evs[i]).value) else Failed(i, s))
  {
    assert evs[..i + 1][..i] == evs[..i];
  }

  /** Once a prefix of the lines has failed, the whole scan reports that
      failure. */
  lemma {:induction false} ScanPrefixFailed(st: AnalyzerState, evs: seq<LineEvent>, i: nat)
    requires Inv(st)
    requires i < |evs| && ScanEvents(st, evs[..i + 1]).Failed?
    ensures ScanEvents(st, evs) == ScanEvents(st, evs[..i + 1])
    decreases |evs| - i
  {
    if i + 1 < |evs| {
      assert evs[..i + 2][..i + 1] == evs[..i + 1];
      ScanPrefixFailed(st, evs, i + 1);
    } else {
      assert evs[..i + 1] == evs;
    }
  }
}
