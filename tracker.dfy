/** The outbound call tracker of rrd/corelib/__init__.py (`auth_requests`).

    Every outbound call gets the next value of a global counter as its id,
    is entered in a registry of in-flight calls, is attributed to the
    innermost `rrd/` frame of the call stack, and is logged at start, on
    its outcome and at its end. The HTTP library, the clock, the thread
    name, the user's API token and the stack are inputs. Locks are left out:
    calls run one after another. */
module Tracker {
  import opened Common

  // ---------------------------------------------------------------------
  // inputs

  /** One entry of `traceback.extract_stack()`. */
  datatype Frame = Frame(filename: string, lineno: nat, name: string)

  /** `g.user_token`. */
  datatype Token = Token(name: string, sig: string)

  /** A keyword argument value, as far as the tracker looks at it: a string
      (or any other non-mapping iterable of characters) or a dict. */
  datatype KwValue = Text(s: string) | Dict(d: map<string, string>)

  /** What the HTTP library does: answer with a status, or raise. Timeout and
      ConnectionError are exception classes that can both apply (requests'
      ConnectTimeout is both). */
  datatype NetOutcome = Responded(status: int) | Raised(timeout: bool, connection: bool)

  /** The world around one call. */
  datatype CallEnv = CallEnv(
    token: Option<Token>,  // g.user_token, None when it is falsy
    outcome: NetOutcome,   // requests.post/get/put/delete
    now: nat,              // time.time() at the start, in milliseconds
    elapsedMs: nat,        // time.time() - start_time as the try block or its handler reads it
    endMs: nat,            // time.time() - start_time as the finally block reads it, for REQ_END
    thread: string)        // threading.current_thread().name

  /** The positional and keyword arguments of one `auth_requests` call. */
  datatype Call = Call(
    verb: string,
    args: seq<string>,
    kwargs: map<string, KwValue>,
    stack: seq<Frame>,
    env: CallEnv)

  // ---------------------------------------------------------------------
  // state, log and results

  /** An entry of `_active_requests`. */
  datatype CallRecord = CallRecord(verb: string, url: KwValue, start: nat, caller: string, thread: string)

  /** `_request_counter` and `_active_requests`. */
  datatype TrackerState = TrackerState(counter: nat, registry: map<nat, CallRecord>)

  /** What is handed to the HTTP library. */
  datatype Request = Request(verb: string, args: seq<string>, headers: map<string, string>, kwargs: map<string, KwValue>)

  /** Why a call raised. `NetFailure` is the HTTP library's own exception,
      re-raised unchanged. */
  datatype CallError = NoApiToken | BadHeaders | InvalidMethod | NetFailure(timeout: bool, connection: bool)

  /** Log lines, and the hand-over to the HTTP library. */
  datatype Event =
    | ReqStart(id: nat, verb: string, url: KwValue, caller: string, thread: string, active: nat)
    | ReqError(id: nat)                                       // error=no_api_token
    | Sent(request: Request)
    | ReqSuccess(id: nat, verb: string, url: KwValue, status: int, elapsedMs: nat)
    | ReqSlow(id: nat, verb: string, url: KwValue, elapsedMs: nat, caller: string)
    | ReqTimeout(id: nat, verb: string, url: KwValue, elapsedMs: nat, caller: string)
    | ReqConnError(id: nat, verb: string, url: KwValue, elapsedMs: nat, caller: string)
    | ReqException(id: nat, verb: string, url: KwValue, elapsedMs: nat, caller: string, error: CallError)
    | ReqEnd(id: nat, elapsedMs: nat, active: nat)

  /** The outcome of one call: new state, what was logged, and the status of
      the response or the error raised. */
  datatype CallOut = CallOut(state: TrackerState, events: seq<Event>, result: Result<int, CallError>)

  /** Every id in the registry has been handed out. */
  predicate Valid(st: TrackerState)
  {
    forall id | id in st.registry :: 1 <= id <= st.counter
  }

  // ---------------------------------------------------------------------
  // caller attribution

  /** `'rrd/' in f.filename and '__init__.py' not in f.filename`. */
  predicate Qualifies(f: Frame)
  {
    Contains(f.filename, "rrd/") && !Contains(f.filename, "__init__.py")
  }

  /** The position of the last occurrence of `sep` in `s`, if any. */
  function LastOccurrence(s: string, sep: string): (r: Option<nat>)
    requires sep != []
    ensures r.None? ==> forall i: nat | i <= |s| :: !OccursAt(s, sep, i)
    ensures r.Some? ==> OccursAt(s, sep, r.value)
    ensures r.Some? ==> forall i: nat | r.value < i <= |s| :: !OccursAt(s, sep, i)
    decreases |s|
  {
    if |s| < |sep| then None
    else if OccursAt(s, sep, |s| - |sep|) then Some(|s| - |sep|)
    else
      var prefix := s[..|s| - 1];
      var r := LastOccurrence(prefix, sep);
      assert forall i: nat | i <= |s| :: OccursAt(s, sep, i) ==> i + |sep| < |s| && OccursAt(prefix, sep, i) by {
        forall i: nat | i <= |s| && OccursAt(s, sep, i)
          ensures i + |sep| < |s| && OccursAt(prefix, sep, i)
        {
          assert i + |sep| != |s|;
          assert s[i..i + |sep|] == prefix[i..i + |sep|];
        }
      }
      assert r.Some? ==> OccursAt(s, sep, r.value) by {
        if r.Some? {
          assert s[r.value..r.value + |sep|] == prefix[r.value..r.value + |sep|];
        }
      }
      r
  }

  /** `s.split(sep)[-1]`: the text after the last occurrence of `sep`, or all
      of `s` when there is none. (Python's split scans left to right without
      overlaps; for a separator that cannot overlap itself, such as "rrd/",
      its last piece starts right after the last occurrence.) */
  function AfterLast(s: string, sep: string): (r: string)
    requires sep != []
    ensures |r| <= |s| && r == s[|s| - |r|..]
    ensures !Contains(r, sep)
    ensures Contains(s, sep) ==> |r| + |sep| <= |s| && OccursAt(s, sep, |s| - |r| - |sep|)
    ensures !Contains(s, sep) ==> r == s
  {
    match LastOccurrence(s, sep)
    case None => s
    case Some(k) =>
      var r := s[k + |sep|..];
      assert Contains(s, sep) by { assert OccursAt(s, sep, k); }
      assert !Contains(r, sep) by {
        forall j: nat | j <= |r| ensures !OccursAt(r, sep, j) {
          if j + |sep| <= |r| {
            assert s[k + |sep| + j..k + |sep| + j + |sep|] == r[j..j + |sep|];
            assert !OccursAt(s, sep, k + |sep| + j);
          }
        }
      }
      r
  }

  /** `"%s:%s:%s" % (filename.split('rrd/')[-1], lineno, name)`. */
  function Render(f: Frame): string
  {
    AfterLast(f.filename, "rrd/") + ":" + NatToString(f.lineno) + ":" + f.name
  }

  /** Index of the innermost qualifying frame among `frames`, if any. */
  function InnermostQualifying(frames: seq<Frame>): (r: Option<nat>)
    ensures r.None? <==> forall k | 0 <= k < |frames| :: !Qualifies(frames[k])
    ensures r.Some? ==>
      && r.value < |frames| && Qualifies(frames[r.value])
      && forall k | r.value < k < |frames| :: !Qualifies(frames[k])
  {
    if frames == [] then None
    else if Qualifies(frames[|frames| - 1]) then Some(|frames| - 1)
    else InnermostQualifying(frames[..|frames| - 1])
  }

  /** The caller of `auth_requests`: the innermost frame of the stack, other
      than the tracker's own (the last), that lies under `rrd/` outside an
      `__init__.py`; "unknown" when there is none. */
  function CallerOf(stack: seq<Frame>): string
  {
    if stack == [] then "unknown"
    else
      match InnermostQualifying(stack[..|stack| - 1])
      case None => "unknown"
      case Some(k) => Render(stack[k])
  }

  /** A rendered frame always holds a ':' and so is never "unknown". */
  lemma RenderedNotUnknown(f: Frame)
    ensures Render(f) != "unknown"
  {
    var r := Render(f);
    var head := AfterLast(f.filename, "rrd/");
    assert r[|head|] == ':';
    assert forall i | 0 <= i < |"unknown"| :: "unknown"[i] != ':';
  }

  /** Attribution picks exactly the innermost qualifying frame below the
      top, and says "unknown" exactly when none qualifies. */
  lemma CallerOfInnermost(stack: seq<Frame>)
    ensures CallerOf(stack) == "unknown" <==>
      forall k | 0 <= k < |stack| - 1 :: !Qualifies(stack[k])
    ensures CallerOf(stack) != "unknown" ==>
      exists k | 0 <= k < |stack| - 1 ::
        && Qualifies(stack[k])
        && CallerOf(stack) == Render(stack[k])
        && forall j | k < j < |stack| - 1 :: !Qualifies(stack[j])
  {
    if stack != [] {
      var frames := stack[..|stack| - 1];
      match InnermostQualifying(frames)
      case None =>
      case Some(k) =>
        RenderedNotUnknown(stack[k]);
        assert frames[k] == stack[k];
        assert forall j | k < j < |stack| - 1 :: frames[j] == stack[j];
    }
  }

  /** The attribution loop: walk the frames below the top from innermost
      outward and stop at the first qualifying one. */
  method FindCaller(stack: seq<Frame>) returns (caller: string)
    ensures caller == CallerOf(stack)
  {
    caller := "unknown";
    if stack == [] {
      return;
    }
    var frames := stack[..|stack| - 1];
    var i := |frames|;
    while i > 0
      invariant 0 <= i <= |frames|
      invariant InnermostQualifying(frames) == InnermostQualifying(frames[..i])
      invariant caller == "unknown"
    {
      assert frames[..i][..i - 1] == frames[..i - 1];
      if Qualifies(frames[i - 1]) {
        caller := Render(frames[i - 1]);
        return;
      }
      i := i - 1;
    }
  }

  // ---------------------------------------------------------------------
  // one call

  /** `args[0] if args else kwargs.get('url', 'unknown')`. */
  function UrlOf(args: seq<string>, kwargs: map<string, KwValue>): (url: KwValue)
    ensures args != [] ==> url == Text(args[0])
    ensures args == [] && "url" in kwargs ==> url == kwargs["url"]
    ensures args == [] && "url" !in kwargs ==> url == Text("unknown")
  {
    if args != [] then Text(args[0])
    else if "url" in kwargs then kwargs["url"]
    else Text("unknown")
  }

  /** `json.dumps({"name": name, "sig": sig})` for a token whose name and
      signature need no escaping. */
  function TokenJson(t: Token): string
  {
    "{\"name\": \"" + t.name + "\", \"sig\": \"" + t.sig + "\"}"
  }

  /** The headers the tracker starts from. */
  function BaseHeaders(t: Token): map<string, string>
  {
    map["Apitoken" := TokenJson(t)]
  }

  /** `headers.update(kwargs["headers"])` when the keyword is present: a dict
      is merged over the base (its keys win); an empty string merges
      nothing; a non-empty string raises ValueError (None). */
  function MergeHeaders(base: map<string, string>, kwargs: map<string, KwValue>): Option<map<string, string>>
  {
    if "headers" !in kwargs then Some(base)
    else match kwargs["headers"]
      case Dict(d) => Some(base + d)
      case Text(s) => if s == [] then Some(base) else None
  }

  /** The methods `auth_requests` dispatches. */
  predicate KnownMethod(m: string)
  {
    m == "POST" || m == "GET" || m == "PUT" || m == "DELETE"
  }

  /** The `try` block and its handlers, without the `finally`. */
  function Dispatch(id: nat, c: Call, url: KwValue, caller: string, headers: map<string, string>): (seq<Event>, Result<int, CallError>)
  {
    var ms := c.env.elapsedMs;
    if !KnownMethod(c.verb) then
      ([ReqException(id, c.verb, url, ms, caller, InvalidMethod)], Err(InvalidMethod))
    else
      var sent := Sent(Request(c.verb, c.args, headers, c.kwargs - {"headers"}));
      match c.env.outcome
      case Responded(status) =>
        ([sent, ReqSuccess(id, c.verb, url, status, ms)]
           + (if ms > 2000 then [ReqSlow(id, c.verb, url, ms, caller)] else []),
         Ok(status))
      case Raised(timeout, connection) =>
        var logged :=
          if timeout then ReqTimeout(id, c.verb, url, ms, caller)
          else if connection then ReqConnError(id, c.verb, url, ms, caller)
          else ReqException(id, c.verb, url, ms, caller, NetFailure(timeout, connection));
        ([sent, logged], Err(NetFailure(timeout, connection)))
  }

  /** The record registered for a call. */
  function RecordOf(c: Call): CallRecord
  {
    CallRecord(c.verb, UrlOf(c.args, c.kwargs), c.env.now, CallerOf(c.stack), c.env.thread)
  }

  /** The REQ_START line of a call made in state `st`. */
  function StartOf(st: TrackerState, c: Call): Event
  {
    ReqStart(st.counter + 1, c.verb, UrlOf(c.args, c.kwargs), CallerOf(c.stack), c.env.thread, |st.registry|)
  }

  /** True when the call raises before its `try` is entered, leaving its
      record behind: no token, or a headers keyword that cannot be merged. */
  predicate Leaks(c: Call)
  {
    c.env.token.None? || MergeHeaders(BaseHeaders(c.env.token.value), c.kwargs).None?
  }

  /** auth_requests. */
  function AuthRequests(st: TrackerState, c: Call): CallOut
  {
    var id := st.counter + 1;
    var registered := TrackerState(id, st.registry[id := RecordOf(c)]);
    var start := [StartOf(st, c)];
    if c.env.token.None? then
      CallOut(registered, start + [ReqError(id)], Err(NoApiToken))
    else
      match MergeHeaders(BaseHeaders(c.env.token.value), c.kwargs)
      case None => CallOut(registered, start, Err(BadHeaders))
      case Some(headers) => Attempted(registered, start, c, headers)
  }

  /** The `try` block with its handlers and the `finally` cleanup, entered
      with the call's record registered under `registered.counter` and
      `logged` written so far. */
  function Attempted(registered: TrackerState, logged: seq<Event>, c: Call, headers: map<string, string>): CallOut
  {
    var id := registered.counter;
    var d := Dispatch(id, c, RecordOf(c).url, RecordOf(c).caller, headers);
    var remaining := registered.registry - {id};
    CallOut(TrackerState(id, remaining), logged + d.0 + [ReqEnd(id, c.env.endMs, |remaining|)], d.1)
  }

  /** The lines logged before the `try` only come first. */
  lemma AttemptedAfter(registered: TrackerState, logged: seq<Event>, c: Call, headers: map<string, string>)
    ensures var a := Attempted(registered, [], c, headers);
      Attempted(registered, logged, c, headers) == a.(events := logged + a.events)
  {
    var d := Dispatch(registered.counter, c, RecordOf(c).url, RecordOf(c).caller, headers);
    var end := [ReqEnd(registered.counter, c.env.endMs, |registered.registry - {registered.counter}|)];
    assert logged + d.0 + end == logged + ([] + d.0 + end);
  }

  // ---------------------------------------------------------------------
  // properties of one call

  /** Registration: the call takes the next counter value as its id, and
      REQ_START reports the number of calls in flight before its own record
      was added, which is then one more. */
  lemma Registration(st: TrackerState, c: Call)
    requires Valid(st)
    ensures var r := AuthRequests(st, c);
      && r.state.counter == st.counter + 1
      && st.counter + 1 !in st.registry
      && |r.events| > 0 && r.events[0] == StartOf(st, c)
      && r.events[0].id == r.state.counter
      && r.events[0].active == |st.registry|
      && |st.registry[st.counter + 1 := RecordOf(c)]| == |st.registry| + 1
  {
    var id := st.counter + 1;
    assert id !in st.registry;
    assert st.registry[id := RecordOf(c)].Keys == st.registry.Keys + {id};
  }

  /** Without a token the call raises after registering and logging
      REQ_START and REQ_ERROR, outside the `try`: its record stays in the
      registry and no REQ_END is logged. */
  lemma NoTokenLeaks(st: TrackerState, c: Call)
    requires Valid(st) && c.env.token.None?
    ensures var r := AuthRequests(st, c);
      && r.result == Err(NoApiToken)
      && r.state.registry == st.registry[st.counter + 1 := RecordOf(c)]
      && |r.state.registry| == |st.registry| + 1
      && r.events == [StartOf(st, c), ReqError(st.counter + 1)]
      && forall e | e in r.events :: !e.ReqEnd? && !e.Sent?
  {
    Registration(st, c);
  }

  /** A `headers` keyword that `dict.update` rejects raises outside the
      `try` as well: the record stays and nothing is sent or logged after
      REQ_START. */
  lemma BadHeadersLeak(st: TrackerState, c: Call)
    requires Valid(st) && c.env.token.Some?
    requires MergeHeaders(BaseHeaders(c.env.token.value), c.kwargs).None?
    ensures var r := AuthRequests(st, c);
      && r.result == Err(BadHeaders)
      && "headers" in c.kwargs && c.kwargs["headers"].Text? && c.kwargs["headers"].s != []
      && |r.state.registry| == |st.registry| + 1
      && r.events == [StartOf(st, c)]
  {
    Registration(st, c);
  }

  /** Once the `try` is entered the record is removed whatever the outcome:
      the registry is back to its contents before the call, and REQ_END,
      the last line, reports that size. */
  lemma CleanupRestores(st: TrackerState, c: Call)
    requires Valid(st) && !Leaks(c)
    ensures var r := AuthRequests(st, c);
      && r.state.registry == st.registry
      && r.events[|r.events| - 1] == ReqEnd(st.counter + 1, c.env.endMs, |st.registry|)
      && r.events[0] == StartOf(st, c)
      && Valid(r.state)
  {
    var id := st.counter + 1;
    var registered := TrackerState(id, st.registry[id := RecordOf(c)]);
    var headers := MergeHeaders(BaseHeaders(c.env.token.value), c.kwargs).value;
    EntersTry(st, c);
    AttemptedEnds(registered, [StartOf(st, c)], c, headers);
    RemoveFresh(st, RecordOf(c));
  }

  /** A call that does not leak reaches the `try` with its record registered
      and REQ_START logged. */
  lemma EntersTry(st: TrackerState, c: Call)
    requires !Leaks(c)
    ensures var id := st.counter + 1;
      AuthRequests(st, c) == Attempted(TrackerState(id, st.registry[id := RecordOf(c)]), [StartOf(st, c)], c,
                                       MergeHeaders(BaseHeaders(c.env.token.value), c.kwargs).value)
  {
  }

  /** Registering under the next id and removing it again gives back the
      registry, which stays valid under the advanced counter. */
  lemma RemoveFresh(st: TrackerState, rec: CallRecord)
    requires Valid(st)
    ensures var id := st.counter + 1;
      && st.registry[id := rec] - {id} == st.registry
      && Valid(TrackerState(id, st.registry))
  {
    var id := st.counter + 1;
    assert id !in st.registry;
  }

  /** The `finally` of the `try`: the record is removed, the counter kept,
      and REQ_END, reporting the size left, follows what was logged. */
  lemma AttemptedEnds(registered: TrackerState, logged: seq<Event>, c: Call, headers: map<string, string>)
    ensures var r := Attempted(registered, logged, c, headers);
      var remaining := registered.registry - {registered.counter};
      && r.state == TrackerState(registered.counter, remaining)
      && |r.events| > |logged| && r.events[..|logged|] == logged
      && r.events[|r.events| - 1] == ReqEnd(registered.counter, c.env.endMs, |remaining|)
  {
    var id := registered.counter;
    var d := Dispatch(id, c, RecordOf(c).url, RecordOf(c).caller, headers);
    var remaining := registered.registry - {id};
    assert (logged + d.0 + [ReqEnd(id, c.env.endMs, |remaining|)])[..|logged|] == logged;
  }

  /** The headers handed to the HTTP library: the caller's dict merged over
      the API token header, with the `headers` keyword itself removed and
      every other keyword passed on unchanged. */
  lemma HeadersMerged(st: TrackerState, c: Call)
    requires !Leaks(c) && KnownMethod(c.verb)
    ensures var r := AuthRequests(st, c);
      var t := c.env.token.value;
      && |r.events| >= 2 && r.events[1].Sent?
      && var q := r.events[1].request;
      && q.verb == c.verb && q.args == c.args
      && "headers" !in q.kwargs && q.kwargs == c.kwargs - {"headers"}
      && (forall k | k in c.kwargs && k != "headers" :: k in q.kwargs && q.kwargs[k] == c.kwargs[k])
      && "Apitoken" in q.headers
      && (forall k | k in q.headers :: k == "Apitoken" || ("headers" in c.kwargs && c.kwargs["headers"].Dict? && k in c.kwargs["headers"].d))
      && ("headers" in c.kwargs && c.kwargs["headers"].Dict? ==>
            forall k | k in c.kwargs["headers"].d :: q.headers[k] == c.kwargs["headers"].d[k])
      && (!("headers" in c.kwargs && c.kwargs["headers"].Dict? && "Apitoken" in c.kwargs["headers"].d) ==>
            q.headers["Apitoken"] == TokenJson(t))
  {
  }

  /** Only POST, GET, PUT and DELETE reach the HTTP library; any other
      method raises inside the `try`, is logged as REQ_EXCEPTION, and the
      record is still removed. */
  lemma OnlyKnownMethodsSent(st: TrackerState, c: Call)
    requires !Leaks(c)
    ensures var r := AuthRequests(st, c);
      && ((exists e | e in r.events :: e.Sent?) <==> KnownMethod(c.verb))
      && (!KnownMethod(c.verb) ==>
            && r.result == Err(InvalidMethod)
            && r.events[1] == ReqException(st.counter + 1, c.verb, RecordOf(c).url, c.env.elapsedMs, RecordOf(c).caller, InvalidMethod)
            && r.events[|r.events| - 1].ReqEnd?)
  {
    var r := AuthRequests(st, c);
    if KnownMethod(c.verb) {
      assert r.events[1].Sent?;
    } else {
      assert forall e | e in r.events :: !e.Sent?;
    }
  }

  /** A response is logged as REQ_SUCCESS, plus REQ_SLOW when the call
      took over 2 s, and its status is returned. */
  lemma ResponseLogged(st: TrackerState, c: Call)
    requires !Leaks(c) && KnownMethod(c.verb) && c.env.outcome.Responded?
    ensures var r := AuthRequests(st, c);
      var id := st.counter + 1;
      var ms := c.env.elapsedMs;
      && r.result == Ok(c.env.outcome.status)
      && r.events[2] == ReqSuccess(id, c.verb, RecordOf(c).url, c.env.outcome.status, ms)
      && (ReqSlow(id, c.verb, RecordOf(c).url, ms, RecordOf(c).caller) in r.events <==> ms > 2000)
      && |r.events| == (if ms > 2000 then 5 else 4)
  {
    var id := st.counter + 1;
    var headers := MergeHeaders(BaseHeaders(c.env.token.value), c.kwargs).value;
    var url, caller := RecordOf(c).url, RecordOf(c).caller;
    var d := Dispatch(id, c, url, caller, headers);
    var r := AuthRequests(st, c);
    var slow := ReqSlow(id, c.verb, url, c.env.elapsedMs, caller);
    CallEvents(st, c);
    DispatchResponse(id, c, url, caller, headers);
    var last := r.events[|r.events| - 1];
    assert r.events == [StartOf(st, c)] + d.0 + [last];
    assert r.events[2] == d.0[1];
    assert slow in r.events <==> slow in d.0 by {
      assert slow != StartOf(st, c) && !last.ReqSlow?;
    }
  }

  /** A call that enters its `try` logs REQ_START, then what the `try`
      block and its handlers log, then REQ_END, and returns their result. */
  lemma CallEvents(st: TrackerState, c: Call)
    requires !Leaks(c)
    ensures var headers := MergeHeaders(BaseHeaders(c.env.token.value), c.kwargs).value;
      var d := Dispatch(st.counter + 1, c, RecordOf(c).url, RecordOf(c).caller, headers);
      var r := AuthRequests(st, c);
      && |r.events| == |d.0| + 2
      && r.events[..|r.events| - 1] == [StartOf(st, c)] + d.0
      && r.events[|r.events| - 1].ReqEnd?
      && r.result == d.1
  {
    var headers := MergeHeaders(BaseHeaders(c.env.token.value), c.kwargs).value;
    var id := st.counter + 1;
    var registered := TrackerState(id, st.registry[id := RecordOf(c)]);
    AttemptedAfter(registered, [StartOf(st, c)], c, headers);
  }

  lemma DispatchResponse(id: nat, c: Call, url: KwValue, caller: string, headers: map<string, string>)
    requires KnownMethod(c.verb) && c.env.outcome.Responded?
    ensures var d := Dispatch(id, c, url, caller, headers);
      var ms := c.env.elapsedMs;
      && d.1 == Ok(c.env.outcome.status)
      && |d.0| == (if ms > 2000 then 3 else 2)
      && d.0[0].Sent?
      && d.0[1] == ReqSuccess(id, c.verb, url, c.env.outcome.status, ms)
      && (ReqSlow(id, c.verb, url, ms, caller) in d.0 <==> ms > 2000)
  {
  }

  /** A failure is logged once, as REQ_TIMEOUT if it is a Timeout, else
      REQ_CONN_ERROR if it is a ConnectionError, else REQ_EXCEPTION, and is
      re-raised unchanged. */
  lemma FailureClassified(st: TrackerState, c: Call)
    requires !Leaks(c) && KnownMethod(c.verb) && c.env.outcome.Raised?
    ensures var r := AuthRequests(st, c);
      var id := st.counter + 1;
      var ms := c.env.elapsedMs;
      var url := RecordOf(c).url;
      var caller := RecordOf(c).caller;
      var o := c.env.outcome;
      && r.result == Err(NetFailure(o.timeout, o.connection))
      && |r.events| == 4
      && r.events[2] == (if o.timeout then ReqTimeout(id, c.verb, url, ms, caller)
                         else if o.connection then ReqConnError(id, c.verb, url, ms, caller)
                         else ReqException(id, c.verb, url, ms, caller, NetFailure(o.timeout, o.connection)))
  {
    var headers := MergeHeaders(BaseHeaders(c.env.token.value), c.kwargs).value;
    var d := Dispatch(st.counter + 1, c, RecordOf(c).url, RecordOf(c).caller, headers);
    var r := AuthRequests(st, c);
    CallEvents(st, c);
    assert r.events == [StartOf(st, c)] + d.0 + [r.events[|r.events| - 1]];
  }

  /** Every call, leaking or not, keeps the registry's ids among those
      handed out. */
  lemma CallKeepsValid(st: TrackerState, c: Call)
    requires Valid(st)
    ensures Valid(AuthRequests(st, c).state)
  {
    if !Leaks(c) {
      CleanupRestores(st, c);
    }
  }

  // ---------------------------------------------------------------------
  // a sequence of calls

  /** The state after the calls `cs`, made one after another. */
  function Run(st: TrackerState, cs: seq<Call>): TrackerState
    decreases |cs|
  {
    if cs == [] then st else Run(AuthRequests(st, cs[0]).state, cs[1..])
  }

  /** Number of calls among `cs` that leave their record behind. */
  function LeakCount(cs: seq<Call>): nat
  {
    if cs == [] then 0 else (if Leaks(cs[0]) then 1 else 0) + LeakCount(cs[1..])
  }

  /** Over any sequence of calls: the i-th call gets id `counter + i + 1`,
      so ids strictly increase and are never reused; and the registry grows
      by exactly the calls that raised before their `try`. */
  lemma RunFacts(st: TrackerState, cs: seq<Call>)
    requires Valid(st)
    ensures Valid(Run(st, cs))
    ensures Run(st, cs).counter == st.counter + |cs|
    ensures forall i | 0 <= i < |cs| :: AuthRequests(Run(st, cs[..i]), cs[i]).events[0].id == st.counter + i + 1
    ensures |Run(st, cs).registry| == |st.registry| + LeakCount(cs)
  {
    RunCounts(st, cs);
    forall i | 0 <= i < |cs| {
      CallId(st, cs, i);
    }
  }

  /** The i-th call of a sequence gets id `counter + i + 1`. */
  lemma CallId(st: TrackerState, cs: seq<Call>, i: nat)
    requires Valid(st) && i < |cs|
    ensures AuthRequests(Run(st, cs[..i]), cs[i]).events[0].id == st.counter + i + 1
  {
    RunCounts(st, cs[..i]);
    Registration(Run(st, cs[..i]), cs[i]);
  }

  /** The counter and the size of the registry after a sequence of calls. */
  lemma {:induction false} RunCounts(st: TrackerState, cs: seq<Call>)
    requires Valid(st)
    ensures Valid(Run(st, cs))
    ensures Run(st, cs).counter == st.counter + |cs|
    ensures |Run(st, cs).registry| == |st.registry| + LeakCount(cs)
    decreases |cs|
  {
    if cs != [] {
      CallCounts(st, cs[0]);
      RunCounts(AuthRequests(st, cs[0]).state, cs[1..]);
    }
  }

  /** One call adds one to the counter and leaves one record behind
      exactly when it leaks. */
  lemma CallCounts(st: TrackerState, c: Call)
    requires Valid(st)
    ensures var next := AuthRequests(st, c).state;
      && Valid(next) && next.counter == st.counter + 1
      && |next.registry| == |st.registry| + (if Leaks(c) then 1 else 0)
  {
    var next := AuthRequests(st, c).state;
    Registration(st, c);
    CallKeepsValid(st, c);
    if Leaks(c) {
      assert next.registry == st.registry[st.counter + 1 := RecordOf(c)];
    } else {
      CleanupRestores(st, c);
    }
  }
}
