/** The module-level state of rrd/corelib/__init__.py, `_request_counter`
    and `_active_requests`, updated in place by `auth_requests` as module
    Tracker describes it. */
module Corelib {
  import opened Common
  import opened Tracker

  class CallTracker {
    var counter: nat
    var registry: map<nat, CallRecord>
    var log: seq<Event>

    function State(): TrackerState
      reads this
    {
      TrackerState(counter, registry)
    }

    /** At import time no call has been made. */
    constructor ()
      ensures counter == 0 && registry == map[] && log == []
      ensures Valid(State())
    {
      counter := 0;
      registry := map[];
      log := [];
    }

    /** auth_requests, one call at a time. */
    method AuthRequests(c: Call) returns (r: Result<int, CallError>)
      modifies this
      ensures var o := Tracker.AuthRequests(old(State()), c);
        State() == o.state && log == old(log) + o.events && r == o.result
    {
      ghost var before := State();
      var id, record := Register(c);
      ghost var registered := State();
      var url, caller := record.url, record.caller;

      if c.env.token.None? {
        log := log + [ReqError(id)];
        assert Tracker.AuthRequests(before, c) == CallOut(registered, [StartOf(before, c), ReqError(id)], Err(NoApiToken));
        return Err(NoApiToken);
      }
      var merged, kwargs := MergeHeaders(c.env.token.value, c.kwargs);
      if merged.None? {
        assert Tracker.AuthRequests(before, c) == CallOut(registered, [StartOf(before, c)], Err(BadHeaders));
        return Err(BadHeaders);
      }
      var headers := merged.value;
      ghost var logged := log;
      r := TryFinally(id, c, url, caller, headers, kwargs);
      ghost var a := Attempted(registered, [], c, headers);
      AttemptedAfter(registered, [StartOf(before, c)], c, headers);
      assert log == old(log) + ([StartOf(before, c)] + a.events) by {
        assert logged == old(log) + [StartOf(before, c)];
      }
    }

    /** The `try` block of a registered call and its `finally` cleanup. */
    method TryFinally(id: nat, c: Call, url: KwValue, caller: string, headers: map<string, string>,
                      kwargs: map<string, KwValue>) returns (r: Result<int, CallError>)
      requires id == counter && url == RecordOf(c).url && caller == RecordOf(c).caller
      requires kwargs == c.kwargs - {"headers"}
      modifies this
      ensures var a := Attempted(old(State()), [], c, headers);
        State() == a.state && log == old(log) + a.events && r == a.result
    {
      ghost var logged := log;
      r := Try(id, c, url, caller, headers, kwargs);
      ghost var d := Dispatch(id, c, url, caller, headers);
      Cleanup(id, c.env.endMs);
      assert log == logged + (d.0 + [ReqEnd(id, c.env.endMs, |registry|)]);
    }

    /** The `finally` block: the record is removed and REQ_END reports how
        many calls are still in flight. */
    method Cleanup(id: nat, ms: nat)
      modifies this
      ensures counter == old(counter) && registry == old(registry) - {id}
      ensures log == old(log) + [ReqEnd(id, ms, |registry|)]
    {
      if id in registry {
        registry := registry - {id};
      }
      log := log + [ReqEnd(id, ms, |registry|)];
    }

    /** The id, the caller and the registry entry of a new call, and its
        REQ_START line. */
    method Register(c: Call) returns (id: nat, record: CallRecord)
      modifies this
      ensures id == counter == old(counter) + 1
      ensures record == RecordOf(c)
      ensures registry == old(registry)[id := record]
      ensures log == old(log) + [StartOf(old(State()), c)]
    {
      counter := counter + 1;
      id := counter;
      var caller := FindCaller(c.stack);
      var url := UrlOf(c.args, c.kwargs);
      var active := |registry|;
      record := CallRecord(c.verb, url, c.env.now, caller, c.env.thread);
      registry := registry[id := record];
      log := log + [ReqStart(id, c.verb, url, caller, c.env.thread, active)];
    }

    /** The request headers: the token header, updated from the `headers`
        keyword, which is then removed. None when `dict.update` raises. */
    static method MergeHeaders(token: Token, kwargs: map<string, KwValue>)
      returns (headers: Option<map<string, string>>, rest: map<string, KwValue>)
      ensures headers == Tracker.MergeHeaders(BaseHeaders(token), kwargs)
      ensures rest == kwargs - {"headers"}
    {
      var merged := BaseHeaders(token);
      rest := kwargs;
      if "headers" in rest {
        match rest["headers"] {
          case Dict(d) =>
            merged := merged + d;
          case Text(s) =>
            if s != [] {
              return None, rest - {"headers"};
            }
        }
        rest := rest - {"headers"};
      }
      headers := Some(merged);
    }

    /** The `try` block of auth_requests and its three handlers. */
    method Try(id: nat, c: Call, url: KwValue, caller: string, headers: map<string, string>, kwargs: map<string, KwValue>)
      returns (r: Result<int, CallError>)
      requires kwargs == c.kwargs - {"headers"}
      modifies this
      ensures var d := Dispatch(id, c, url, caller, headers);
        log == old(log) + d.0 && r == d.1
      ensures counter == old(counter) && registry == old(registry)
    {
      var ms := c.env.elapsedMs;
      if !KnownMethod(c.verb) {
        log := log + [ReqException(id, c.verb, url, ms, caller, InvalidMethod)];
        return Err(InvalidMethod);
      }
      log := log + [Sent(Request(c.verb, c.args, headers, kwargs))];
      match c.env.outcome {
        case Responded(status) =>
          log := log + [ReqSuccess(id, c.verb, url, status, ms)];
          if ms > 2000 {
            log := log + [ReqSlow(id, c.verb, url, ms, caller)];
          }
          r := Ok(status);
        case Raised(timeout, connection) =>
          if timeout {
            log := log + [ReqTimeout(id, c.verb, url, ms, caller)];
          } else if connection {
            log := log + [ReqConnError(id, c.verb, url, ms, caller)];
          } else {
            log := log + [ReqException(id, c.verb, url, ms, caller, NetFailure(timeout, connection))];
          }
          r := Err(NetFailure(timeout, connection));
      }
    }
  }
}
