/** generate_report of logs/analyze_logs.py: the figures it prints, as a
    value computed from the analyzer's state. The text layout is not
    modelled; every number and list it prints is. */
module Report {
  import opened Common
  import opened LogLines
  import opened Analyzer

  // ---------------------------------------------------------------------
  // sums, extremes and counts

  function Sum(xs: seq<real>): real
    decreases |xs|
  {
    if xs == [] then 0.0 else Sum(xs[..|xs| - 1]) + xs[|xs| - 1]
  }

  /** `max(xs)` and `min(xs)` of a non-empty list. */
  function Largest(xs: seq<real>): (m: real)
    requires xs != []
    ensures m in xs && forall i | 0 <= i < |xs| :: xs[i] <= m
    decreases |xs|
  {
    if |xs| == 1 then xs[0]
    else
      var m := Largest(xs[..|xs| - 1]);
      assert forall i | 0 <= i < |xs| - 1 :: xs[i] == xs[..|xs| - 1][i];
      if xs[|xs| - 1] > m then xs[|xs| - 1] else m
  }

  function Smallest(xs: seq<real>): (m: real)
    requires xs != []
    ensures m in xs && forall i | 0 <= i < |xs| :: m <= xs[i]
    decreases |xs|
  {
    if |xs| == 1 then xs[0]
    else
      var m := Smallest(xs[..|xs| - 1]);
      assert forall i | 0 <= i < |xs| - 1 :: xs[i] == xs[..|xs| - 1][i];
      if xs[|xs| - 1] < m then xs[|xs| - 1] else m
  }

  function Occurrences<T(==)>(xs: seq<T>, x: T): nat
    decreases |xs|
  {
    if xs == [] then 0 else Occurrences(xs[..|xs| - 1], x) + (if xs[|xs| - 1] == x then 1 else 0)
  }

  lemma {:induction false} OccurrencesPositive<T>(xs: seq<T>, x: T)
    ensures Occurrences(xs, x) > 0 <==> x in xs
    decreases |xs|
  {
    if xs != [] {
      OccurrencesPositive(xs[..|xs| - 1], x);
      assert xs == xs[..|xs| - 1] + [xs[|xs| - 1]];
    }
  }

  /** The first `n` elements, as a slice `[:n]` takes them. */
  function Take<T>(xs: seq<T>, n: nat): (r: seq<T>)
    ensures |r| == if |xs| < n then |xs| else n
    ensures r <= xs
  {
    if |xs| <= n then xs else xs[..n]
  }

  // ---------------------------------------------------------------------
  // sorted(..., key=..., reverse=True)

  ghost predicate SortedDesc<T>(xs: seq<T>, key: T -> real)
  {
    forall i, j | 0 <= i < j < |xs| :: key(xs[i]) >= key(xs[j])
  }

  /** Put `x` after every element whose key is at least its own. */
  function InsertDesc<T>(x: T, ys: seq<T>, key: T -> real): seq<T>
    decreases |ys|
  {
    if ys == [] then [x]
    else if key(ys[0]) < key(x) then [x] + ys
    else [ys[0]] + InsertDesc(x, ys[1..], key)
  }

  /** Insertion sort, largest key first; elements with equal keys keep the
      order they had, as Python's sort does. */
  function SortDesc<T>(xs: seq<T>, key: T -> real): seq<T>
    decreases |xs|
  {
    if xs == [] then [] else InsertDesc(xs[|xs| - 1], SortDesc(xs[..|xs| - 1], key), key)
  }

  /** Inserting an element no larger than `v` into elements no larger
      than `v` gives elements no larger than `v`. */
  lemma {:induction false} InsertDescBounded<T>(x: T, ys: seq<T>, key: T -> real, v: real)
    requires key(x) <= v && forall i | 0 <= i < |ys| :: key(ys[i]) <= v
    ensures forall i | 0 <= i < |InsertDesc(x, ys, key)| :: key(InsertDesc(x, ys, key)[i]) <= v
    decreases |ys|
  {
    if ys != [] && key(ys[0]) >= key(x) {
      InsertDescBounded(x, ys[1..], key, v);
      var r := InsertDesc(x, ys[1..], key);
      assert forall i | 1 <= i < |r| + 1 :: ([ys[0]] + r)[i] == r[i - 1];
    }
  }

  lemma InsertDescFacts<T>(x: T, ys: seq<T>, key: T -> real)
    requires SortedDesc(ys, key)
    ensures SortedDesc(InsertDesc(x, ys, key), key)
    ensures multiset(InsertDesc(x, ys, key)) == multiset(ys) + multiset{x}
  {
    InsertDescSorted(x, ys, key);
    InsertDescPerm(x, ys, key);
  }

  lemma {:induction false} InsertDescSorted<T>(x: T, ys: seq<T>, key: T -> real)
    requires SortedDesc(ys, key)
    ensures SortedDesc(InsertDesc(x, ys, key), key)
    decreases |ys|
  {
    if ys == [] {
    } else if key(ys[0]) < key(x) {
      ConsSorted(x, ys, key);
    } else {
      var tail := ys[1..];
      assert forall i | 0 <= i < |tail| :: tail[i] == ys[i + 1];
      InsertDescSorted(x, tail, key);
      InsertDescBounded(x, tail, key, key(ys[0]));
      ConsSorted(ys[0], InsertDesc(x, tail, key), key);
    }
  }

  lemma {:induction false} InsertDescPerm<T>(x: T, ys: seq<T>, key: T -> real)
    ensures multiset(InsertDesc(x, ys, key)) == multiset(ys) + multiset{x}
    decreases |ys|
  {
    if ys != [] && key(ys[0]) >= key(x) {
      InsertDescPerm(x, ys[1..], key);
      assert ys == [ys[0]] + ys[1..];
    }
  }

  /** A head no smaller than a sorted rest keeps the sequence sorted. */
  lemma ConsSorted<T>(h: T, r: seq<T>, key: T -> real)
    requires SortedDesc(r, key) && forall i | 0 <= i < |r| :: key(r[i]) <= key(h)
    ensures SortedDesc([h] + r, key)
  {
    var out := [h] + r;
    assert forall i | 1 <= i < |out| :: out[i] == r[i - 1];
  }

  /** The sort orders by key, largest first, and loses or adds nothing. */
  lemma {:induction false} SortDescFacts<T>(xs: seq<T>, key: T -> real)
    ensures SortedDesc(SortDesc(xs, key), key)
    ensures multiset(SortDesc(xs, key)) == multiset(xs)
    decreases |xs|
  {
    if xs != [] {
      var init := xs[..|xs| - 1];
      SortDescFacts(init, key);
      InsertDescFacts(xs[|xs| - 1], SortDesc(init, key), key);
      assert xs == init + [xs[|xs| - 1]];
    }
  }

  // ---------------------------------------------------------------------
  // section 2: HTTP requests

  /** An HTTP request that has an elapsed value. */
  datatype HttpTiming = HttpTiming(requestId: string, verb: string, path: string, status: string, elapsed: real)

  /** `[(req_id, req) for ... in http_requests.items() if 'elapsed' in req]`. */
  function HttpTimings(keys: seq<string>, vals: map<string, HttpRecord>): (r: seq<HttpTiming>)
    requires forall k | k in keys :: k in vals
    decreases |keys|
  {
    if keys == [] then []
    else
      var rest := HttpTimings(keys[..|keys| - 1], vals);
      var k := keys[|keys| - 1];
      var rec := vals[k];
      match rec.ending
      case Some(e) => rest + [HttpTiming(k, rec.verb, rec.path, e.status, e.elapsed)]
      case None => rest
  }

  function HttpElapsed(ts: seq<HttpTiming>): seq<real>
  {
    seq(|ts|, i requires 0 <= i < |ts| => ts[i].elapsed)
  }

  // ---------------------------------------------------------------------
  // section 3: API calls and url_stats

  /** `[req['elapsed'] for req in api_requests.values() if 'elapsed' in req]`. */
  function ApiElapsed(recs: seq<ApiRecord>): seq<real>
    decreases |recs|
  {
    if recs == [] then []
    else
      var rest := ApiElapsed(recs[..|recs| - 1]);
      var rec := recs[|recs| - 1];
      if rec.ending.Some? then rest + [rec.ending.value.elapsed] else rest
  }

  datatype UrlStat = UrlStat(count: nat, total: real, maximum: real)

  /** One call of `url` that took `e` seconds, added to the `defaultdict`
      whose missing entries start at count 0, total 0 and max 0. */
  function AddCall(stats: OMap<UrlStat>, url: string, e: real): (r: OMap<UrlStat>)
    requires OMapValid(stats)
    ensures OMapValid(r)
    ensures r.keys == if url in stats.vals then stats.keys else stats.keys + [url]
    ensures url in r.vals
    ensures forall k | k != url :: (k in r.vals <==> k in stats.vals) && (k in stats.vals ==> r.vals[k] == stats.vals[k])
    ensures var cur := if url in stats.vals then stats.vals[url] else UrlStat(0, 0.0, 0.0);
      && r.vals[url].count == cur.count + 1 && r.vals[url].total == cur.total + e
      && r.vals[url].maximum >= e && r.vals[url].maximum >= cur.maximum
      && (r.vals[url].maximum == e || r.vals[url].maximum == cur.maximum)
  {
    var cur := if url in stats.vals then stats.vals[url] else UrlStat(0, 0.0, 0.0);
    Put(stats, url, UrlStat(cur.count + 1, cur.total + e, if e > cur.maximum then e else cur.maximum))
  }

  /** The entry of `url` is its old one, or zeros, with the call added. */
  lemma AddCallUpdates(stats: OMap<UrlStat>, url: string, e: real)
    requires OMapValid(stats)
    ensures var cur := if url in stats.vals then stats.vals[url] else UrlStat(0, 0.0, 0.0);
      AddCall(stats, url, e) == Put(stats, url, UrlStat(cur.count + 1, cur.total + e, if e > cur.maximum then e else cur.maximum))
  {
  }

  /** url_stats after the loop over `recs`. */
  function UrlStatsOf(recs: seq<ApiRecord>): (r: OMap<UrlStat>)
    ensures OMapValid(r)
    decreases |recs|
  {
    if recs == [] then EmptyOMap()
    else
      var rest := UrlStatsOf(recs[..|recs| - 1]);
      var rec := recs[|recs| - 1];
      if rec.ending.Some? then AddCall(rest, rec.url, rec.ending.value.elapsed) else rest
  }

  /** The elapsed values of the finished calls of `url`, in order. */
  function ElapsedOfUrl(recs: seq<ApiRecord>, url: string): seq<real>
    decreases |recs|
  {
    if recs == [] then []
    else
      var rest := ElapsedOfUrl(recs[..|recs| - 1], url);
      var rec := recs[|recs| - 1];
      if rec.ending.Some? && rec.url == url then rest + [rec.ending.value.elapsed] else rest
  }

  /** `m` and then the values of `xs`, the largest. */
  function MaxFrom(m: real, xs: seq<real>): real
    decreases |xs|
  {
    if xs == [] then m
    else
      var r := MaxFrom(m, xs[..|xs| - 1]);
      if xs[|xs| - 1] > r then xs[|xs| - 1] else r
  }

  /** url_stats has an entry for exactly the urls with a finished call, and
      that entry is the number, the sum and the largest (against 0) of
      those calls' elapsed values. */
  lemma {:induction false} UrlStatsMeaning(recs: seq<ApiRecord>, url: string)
    ensures url in UrlStatsOf(recs).vals <==> ElapsedOfUrl(recs, url) != []
    ensures url in UrlStatsOf(recs).vals ==>
      var es := ElapsedOfUrl(recs, url);
      UrlStatsOf(recs).vals[url] == UrlStat(|es|, Sum(es), MaxFrom(0.0, es))
    decreases |recs|
  {
    if recs != [] {
      var init := recs[..|recs| - 1];
      UrlStatsMeaning(init, url);
      var es := ElapsedOfUrl(recs, url);
      var rec := recs[|recs| - 1];
      if rec.ending.Some? && rec.url == url {
        var es0 := ElapsedOfUrl(init, url);
        assert es == es0 + [rec.ending.value.elapsed];
        assert es[..|es| - 1] == es0;
      }
    }
  }

  /** The counts of url_stats add up to the number of finished calls. */
  lemma {:induction false} UrlCountsAddUp(recs: seq<ApiRecord>)
    ensures CountTotal(UrlStatsOf(recs).keys, UrlStatsOf(recs).vals) == |ApiElapsed(recs)|
    decreases |recs|
  {
    if recs != [] {
      var init := recs[..|recs| - 1];
      UrlCountsAddUp(init);
      var rec := recs[|recs| - 1];
      if rec.ending.Some? {
        var s := UrlStatsOf(init);
        var r := AddCall(s, rec.url, rec.ending.value.elapsed);
        if rec.url in s.vals {
          CountTotalUpdate(s.keys, s.vals, rec.url, r.vals[rec.url]);
        } else {
          CountTotalFresh(s.keys, s.vals, rec.url, r.vals[rec.url]);
        }
      }
    }
  }

  /** The sum of the counts of the entries named by `keys`. */
  function CountTotal(keys: seq<string>, vals: map<string, UrlStat>): int
    decreases |keys|
  {
    if keys == [] then 0
    else CountTotal(keys[..|keys| - 1], vals) + (if keys[|keys| - 1] in vals then vals[keys[|keys| - 1]].count else 0)
  }

  lemma {:induction false} CountTotalUpdate(keys: seq<string>, vals: map<string, UrlStat>, k: string, v: UrlStat)
    requires k in vals && v.count == vals[k].count + 1
    requires k in keys && forall i, j | 0 <= i < j < |keys| :: keys[i] != keys[j]
    ensures CountTotal(keys, vals[k := v]) == CountTotal(keys, vals) + 1
    decreases |keys|
  {
    var init := keys[..|keys| - 1];
    if keys[|keys| - 1] == k {
      assert k !in init;
      CountTotalOther(init, vals, k, v);
    } else {
      assert k in init;
      CountTotalUpdate(init, vals, k, v);
    }
  }

  lemma {:induction false} CountTotalOther(keys: seq<string>, vals: map<string, UrlStat>, k: string, v: UrlStat)
    requires k !in keys
    ensures CountTotal(keys, vals[k := v]) == CountTotal(keys, vals)
    decreases |keys|
  {
    if keys != [] {
      CountTotalOther(keys[..|keys| - 1], vals, k, v);
    }
  }

  lemma CountTotalFresh(keys: seq<string>, vals: map<string, UrlStat>, k: string, v: UrlStat)
    requires k !in keys && k !in vals && v.count == 1
    ensures CountTotal(keys + [k], vals[k := v]) == CountTotal(keys, vals) + 1
  {
    assert (keys + [k])[..|keys|] == keys;
    CountTotalOther(keys, vals, k, v);
  }

  /** One more record adds its call, when it has finished, to its url. */
  lemma UrlStatsNext(recs: seq<ApiRecord>, i: nat)
    requires i < |recs|
    ensures UrlStatsOf(recs[..i + 1]) == if recs[i].ending.Some?
      then AddCall(UrlStatsOf(recs[..i]), recs[i].url, recs[i].ending.value.elapsed)
      else UrlStatsOf(recs[..i])
  {
    assert recs[..i + 1][..i] == recs[..i];
  }

  /** The body of that loop: a finished call is added to its url's
      entry, an unfinished one is skipped. */
  method CountCall(stats: OMap<UrlStat>, rec: ApiRecord) returns (r: OMap<UrlStat>)
    requires OMapValid(stats)
    ensures r == if rec.ending.Some? then AddCall(stats, rec.url, rec.ending.value.elapsed) else stats
  {
    r := stats;
    if rec.ending.Some? {
      var url := rec.url;
      var cur := if url in stats.vals then stats.vals[url] else UrlStat(0, 0.0, 0.0);
      var e := rec.ending.value.elapsed;
      var biggest := if e > cur.maximum then e else cur.maximum;
      AddCallUpdates(stats, url, e);
      r := Put(stats, url, UrlStat(cur.count + 1, cur.total + e, biggest));
    }
  }

  /** The loop of generate_report that fills url_stats. */
  method BuildUrlStats(recs: seq<ApiRecord>) returns (stats: OMap<UrlStat>)
    ensures stats == UrlStatsOf(recs)
  {
    stats := OMap([], map[]);
    var i := 0;
    while i < |recs|
      invariant 0 <= i <= |recs|
      invariant stats == UrlStatsOf(recs[..i])
    {
      UrlStatsNext(recs, i);
      stats := CountCall(stats, recs[i]);
      i := i + 1;
    }
    assert recs[..i] == recs;
  }

  datatype UrlLine = UrlLine(url: string, stat: UrlStat)

  function UrlLines(keys: seq<string>, vals: map<string, UrlStat>): (r: seq<UrlLine>)
    requires forall k | k in keys :: k in vals
    ensures |r| == |keys|
    ensures forall i | 0 <= i < |r| :: r[i].url == keys[i] && r[i].stat == vals[keys[i]]
  {
    seq(|keys|, i requires 0 <= i < |keys| => UrlLine(keys[i], vals[keys[i]]))
  }

  // ---------------------------------------------------------------------
  // section 7: the slowest caller

  /** slow_callers after the loop over the slow requests. */
  function CallerCountsOf(slow: seq<SlowRecord>): (r: OMap<nat>)
    ensures OMapValid(r)
    decreases |slow|
  {
    if slow == [] then EmptyOMap()
    else
      Bump(CallerCountsOf(slow[..|slow| - 1]), slow[|slow| - 1].caller)
  }

  /** `d[c] += 1` on a `defaultdict(int)`. */
  function Bump(m: OMap<nat>, c: string): (r: OMap<nat>)
    requires OMapValid(m)
    ensures OMapValid(r)
  {
    Put(m, c, (if c in m.vals then m.vals[c] else 0) + 1)
  }

  function Callers(slow: seq<SlowRecord>): (r: seq<string>)
    ensures |r| == |slow|
  {
    seq(|slow|, i requires 0 <= i < |slow| => slow[i].caller)
  }

  /** slow_callers counts, for each caller, its slow requests, and has an
      entry for exactly the callers that have one. */
  lemma {:induction false} CallerCountsMeaning(slow: seq<SlowRecord>, c: string)
    ensures c in CallerCountsOf(slow).vals <==> c in Callers(slow)
    ensures c in CallerCountsOf(slow).vals ==> CallerCountsOf(slow).vals[c] == Occurrences(Callers(slow), c)
    decreases |slow|
  {
    if slow != [] {
      var init := slow[..|slow| - 1];
      CallerCountsMeaning(init, c);
      assert Callers(slow) == Callers(init) + [slow[|slow| - 1].caller];
      assert Callers(slow)[..|slow| - 1] == Callers(init);
      OccurrencesPositive(Callers(init), c);
    }
  }

  /** One more slow request adds one to its caller's count. */
  lemma CallerCountsNext(slow: seq<SlowRecord>, i: nat)
    requires i < |slow|
    ensures CallerCountsOf(slow[..i + 1]) == Bump(CallerCountsOf(slow[..i]), slow[i].caller)
  {
    assert slow[..i + 1][..i] == slow[..i];
  }

  /** The loop of generate_report that fills slow_callers. */
  method CountSlowCallers(slow: seq<SlowRecord>) returns (counts: OMap<nat>)
    ensures counts == CallerCountsOf(slow)
  {
    counts := OMap([], map[]);
    var i := 0;
    while i < |slow|
      invariant 0 <= i <= |slow|
      invariant counts == CallerCountsOf(slow[..i])
    {
      CallerCountsNext(slow, i);
      var c := slow[i].caller;
      var n := if c in counts.vals then counts.vals[c] else 0;
      counts := Put(counts, c, n + 1);
      assert counts == Bump(CallerCountsOf(slow[..i]), c);
      i := i + 1;
    }
    assert slow[..i] == slow;
  }

  /** `max(d.items(), key=count)`: the position of the first entry with
      the largest count among the first `n` keys. */
  function FirstMax(m: OMap<nat>, n: nat): (b: nat)
    requires OMapValid(m) && 0 < n <= |m.keys|
    ensures b < n
    ensures forall i | 0 <= i < n :: m.vals[m.keys[i]] <= m.vals[m.keys[b]]
    ensures forall i | 0 <= i < b :: m.vals[m.keys[i]] < m.vals[m.keys[b]]
  {
    if n == 1 then 0
    else
      var b := FirstMax(m, n - 1);
      if m.vals[m.keys[n - 1]] > m.vals[m.keys[b]] then n - 1 else b
  }

  // ---------------------------------------------------------------------
  // section 6: concurrency

  function ActiveCounts(recs: seq<ApiRecord>): (r: seq<nat>)
    ensures |r| == |recs|
  {
    seq(|recs|, i requires 0 <= i < |recs| => recs[i].activeStart)
  }

  datatype Bucket = Bucket(active: nat, calls: nat)

  /** `Counter(xs)` listed by increasing key, for the keys from `k` up to
      `hi`. */
  function HistogramFrom(xs: seq<nat>, k: nat, hi: nat): (r: seq<Bucket>)
    ensures forall i | 0 <= i < |r| :: k <= r[i].active <= hi
    ensures forall i, j | 0 <= i < j < |r| :: r[i].active < r[j].active
    decreases hi + 1 - k
  {
    if k > hi then []
    else
      var rest := HistogramFrom(xs, k + 1, hi);
      if Occurrences(xs, k) > 0 then [Bucket(k, Occurrences(xs, k))] + rest else rest
  }

  function NatMax(xs: seq<nat>): (m: nat)
    ensures forall i | 0 <= i < |xs| :: xs[i] <= m
    decreases |xs|
  {
    if xs == [] then 0
    else
      var m := NatMax(xs[..|xs| - 1]);
      assert forall i | 0 <= i < |xs| - 1 :: xs[i] == xs[..|xs| - 1][i];
      if xs[|xs| - 1] > m then xs[|xs| - 1] else m
  }

  function Histogram(xs: seq<nat>): seq<Bucket>
  {
    HistogramFrom(xs, 0, NatMax(xs))
  }

  predicate Listed(h: seq<Bucket>, a: nat)
  {
    exists i | 0 <= i < |h| :: h[i].active == a
  }

  /** The distribution lists each active count that occurs, once, in
      increasing order, with the number of calls that started with it. */
  lemma HistogramMeaning(xs: seq<nat>, k: nat, hi: nat, a: nat)
    requires forall i | 0 <= i < |xs| :: xs[i] <= hi
    ensures Listed(HistogramFrom(xs, k, hi), a) <==> k <= a && a in xs
    ensures forall i | 0 <= i < |HistogramFrom(xs, k, hi)| ::
      HistogramFrom(xs, k, hi)[i].calls == Occurrences(xs, HistogramFrom(xs, k, hi)[i].active) > 0
  {
    HistogramListed(xs, k, hi, a);
    HistogramCounts(xs, k, hi);
  }

  /** An active count is listed exactly when it occurs. */
  lemma {:induction false} HistogramListed(xs: seq<nat>, k: nat, hi: nat, a: nat)
    requires forall i | 0 <= i < |xs| :: xs[i] <= hi
    ensures Listed(HistogramFrom(xs, k, hi), a) <==> k <= a && a in xs
    decreases hi + 1 - k
  {
    OccurrencesPositive(xs, a);
    var h := HistogramFrom(xs, k, hi);
    if k > hi {
      if a in xs {
        var i :| 0 <= i < |xs| && xs[i] == a;
      }
    } else {
      HistogramListed(xs, k + 1, hi, a);
      var rest := HistogramFrom(xs, k + 1, hi);
      if Occurrences(xs, k) > 0 {
        ListedCons(Bucket(k, Occurrences(xs, k)), rest, a);
      } else {
        assert h == rest;
        if a == k {
          OccurrencesPositive(xs, k);
        }
      }
    }
  }

  /** A count is listed after a new first bucket when it is that bucket's
      or listed in the rest. */
  lemma ListedCons(b: Bucket, rest: seq<Bucket>, a: nat)
    ensures Listed([b] + rest, a) <==> b.active == a || Listed(rest, a)
  {
    var h := [b] + rest;
    if Listed(rest, a) {
      var i :| 0 <= i < |rest| && rest[i].active == a;
      assert h[i + 1].active == a;
    }
    if Listed(h, a) && a != b.active {
      var i :| 0 <= i < |h| && h[i].active == a;
      assert rest[i - 1].active == a;
    }
    assert h[0].active == b.active;
  }

  /** Each listed count carries the number of calls that started with it,
      and that number is positive. */
  lemma {:induction false} HistogramCounts(xs: seq<nat>, k: nat, hi: nat)
    ensures forall i | 0 <= i < |HistogramFrom(xs, k, hi)| ::
      HistogramFrom(xs, k, hi)[i].calls == Occurrences(xs, HistogramFrom(xs, k, hi)[i].active) > 0
    decreases hi + 1 - k
  {
    if k <= hi {
      HistogramCounts(xs, k + 1, hi);
      var h := HistogramFrom(xs, k, hi);
      var rest := HistogramFrom(xs, k + 1, hi);
      if Occurrences(xs, k) > 0 {
        assert h == [Bucket(k, Occurrences(xs, k))] + rest;
        assert forall i | 1 <= i < |h| :: h[i] == rest[i - 1];
      }
    }
  }

  // ---------------------------------------------------------------------
  // the report

  datatype Finding =
    | TimeoutsSeen(count: nat)
    | PeakAbove(peak: nat)
    | LongApiCall(longest: real)
    | TopSlowCaller(caller: string, slowCalls: nat)

  /** A slow request as section 4 lists it, with the url of its call when
      the call is in `api_requests`. */
  datatype SlowLine = SlowLine(request: SlowRecord, url: Option<string>)

  datatype Report = Report(
    httpCount: nat, apiCount: nat, slowCount: nat, timeoutCount: nat, peak: nat,
    httpAverage: Option<real>, httpLongest: Option<real>, httpShortest: Option<real>,
    slowestHttp: seq<HttpTiming>,
    apiAverage: Option<real>, apiLongest: Option<real>,
    topUrls: seq<UrlLine>,
    slowest: seq<SlowLine>,
    timeouts: seq<TimeoutRecord>,
    activeAverage: Option<real>, activeLargest: Option<nat>,
    distribution: seq<Bucket>,
    findings: seq<Finding>)

  function Average(xs: seq<real>): real
    requires xs != []
  {
    Sum(xs) / |xs| as real
  }

  /** Section 7: the findings, in the order they are printed. */
  function Findings(st: AnalyzerState): seq<Finding>
    requires Inv(st)
  {
    FindingsWith(st, CallerCountsOf(st.slow))
  }

  /** The findings, given the count of slow requests per caller. */
  function FindingsWith(st: AnalyzerState, callers: OMap<nat>): seq<Finding>
    requires Inv(st) && OMapValid(callers)
  {
    var api := ApiElapsed(Values(st.api));
    (if st.timeouts != [] then [TimeoutsSeen(|st.timeouts|)] else [])
    + (if st.peak > 5 then [PeakAbove(st.peak)] else [])
    + (if api != [] && Largest(api) > 10.0 then [LongApiCall(Largest(api))] else [])
    + (if callers.keys != [] then
         var b := FirstMax(callers, |callers.keys|);
         [TopSlowCaller(callers.keys[b], callers.vals[callers.keys[b]])]
       else [])
  }

  function SlowLineOf(st: AnalyzerState, r: SlowRecord): SlowLine
  {
    SlowLine(r, if r.reqId in st.api.vals then Some(st.api.vals[r.reqId].url) else None)
  }

  /** generate_report. */
  function ReportOf(st: AnalyzerState): Report
    requires Inv(st)
  {
    ReportWith(st, UrlStatsOf(Values(st.api)), CallerCountsOf(st.slow))
  }

  /** The report, given the per-url statistics and the count of slow
      requests per caller. */
  function ReportWith(st: AnalyzerState, stats: OMap<UrlStat>, callers: OMap<nat>): Report
    requires Inv(st) && OMapValid(stats) && OMapValid(callers)
  {
    var timings := HttpTimings(st.http.keys, st.http.vals);
    var httpTimes := HttpElapsed(timings);
    var recs := Values(st.api);
    var api := ApiElapsed(recs);
    var urls := UrlLines(stats.keys, stats.vals);
    var slowSorted := Take(SortDesc(st.slow, (r: SlowRecord) => r.elapsed), 20);
    var actives := ActiveCounts(recs);
    Report(
      |st.http.keys|, |st.api.keys|, |st.slow|, |st.timeouts|, st.peak,
      if httpTimes != [] then Some(Average(httpTimes)) else None,
      if httpTimes != [] then Some(Largest(httpTimes)) else None,
      if httpTimes != [] then Some(Smallest(httpTimes)) else None,
      Take(SortDesc(timings, (t: HttpTiming) => t.elapsed), 10),
      if api != [] then Some(Average(api)) else None,
      if api != [] then Some(Largest(api)) else None,
      if api != [] then Take(SortDesc(urls, (u: UrlLine) => u.stat.total), 10) else [],
      seq(|slowSorted|, i requires 0 <= i < |slowSorted| => SlowLineOf(st, slowSorted[i])),
      st.timeouts,
      if actives != [] then Some(Sum(seq(|actives|, i requires 0 <= i < |actives| => actives[i] as real)) / |actives| as real) else None,
      if actives != [] then Some(NatMax(actives)) else None,
      if actives != [] then Histogram(actives) else [],
      FindingsWith(st, callers))
  }

  // ---------------------------------------------------------------------
  // what the report promises

  /** No finding is reported exactly when there was no timeout, the peak
      stayed at 5 or below, no API call took more than 10 seconds and no
      request was slow. */
  lemma NoFindings(st: AnalyzerState)
    requires Inv(st)
    ensures Findings(st) == [] <==>
      && st.timeouts == []
      && st.peak <= 5
      && (forall e | e in ApiElapsed(Values(st.api)) :: e <= 10.0)
      && st.slow == []
  {
    var api := ApiElapsed(Values(st.api));
    var callers := CallerCountsOf(st.slow);
    if st.slow != [] {
      CallerCountsMeaning(st.slow, st.slow[0].caller);
      assert Callers(st.slow)[0] == st.slow[0].caller;
      assert callers.keys != [];
    } else {
      assert callers == EmptyOMap();
    }
    var long := api != [] && Largest(api) > 10.0;
    assert long <==> exists e | e in api :: e > 10.0;
    assert Findings(st) == [] <==> st.timeouts == [] && st.peak <= 5 && !long && callers.keys == [];
  }

  /** The slowest caller named is one with the most slow requests, the
      first such in the order the callers first appeared. */
  lemma TopCallerIsFirstMost(st: AnalyzerState, caller: string, n: nat)
    requires Inv(st)
    requires TopSlowCaller(caller, n) in Findings(st)
    ensures n == Occurrences(Callers(st.slow), caller) > 0
    ensures forall c | c in Callers(st.slow) :: Occurrences(Callers(st.slow), c) <= n
    ensures forall i | 0 <= i < |CallerCountsOf(st.slow).keys| && CallerCountsOf(st.slow).keys[i] == caller ::
      forall j | 0 <= j < i :: Occurrences(Callers(st.slow), CallerCountsOf(st.slow).keys[j]) < n
  {
    var m := CallerCountsOf(st.slow);
    var b := TopCallerFinding(st, caller, n);
    TopCallerCounts(st.slow, b);
  }

  /** The slowest-caller finding names the first key of slow_callers
      with the largest count. */
  lemma TopCallerFinding(st: AnalyzerState, caller: string, n: nat) returns (b: nat)
    requires Inv(st)
    requires TopSlowCaller(caller, n) in Findings(st)
    ensures var m := CallerCountsOf(st.slow);
      && 0 < |m.keys| && b == FirstMax(m, |m.keys|) && caller == m.keys[b] && n == m.vals[caller]
  {
    var m := CallerCountsOf(st.slow);
    var api := ApiElapsed(Values(st.api));
    var front := (if st.timeouts != [] then [TimeoutsSeen(|st.timeouts|)] else [])
      + (if st.peak > 5 then [PeakAbove(st.peak)] else [])
      + (if api != [] && Largest(api) > 10.0 then [LongApiCall(Largest(api))] else []);
    assert TopSlowCaller(caller, n) !in front;
    assert m.keys != [];
    b := FirstMax(m, |m.keys|);
  }

  /** The first key with the largest count has the most slow requests,
      and every key before it has fewer. */
  lemma TopCallerCounts(slow: seq<SlowRecord>, b: nat)
    requires 0 < |CallerCountsOf(slow).keys| && b == FirstMax(CallerCountsOf(slow), |CallerCountsOf(slow).keys|)
    ensures var m := CallerCountsOf(slow); var caller := m.keys[b]; var n := m.vals[caller];
      && n == Occurrences(Callers(slow), caller) > 0
      && (forall c | c in Callers(slow) :: Occurrences(Callers(slow), c) <= n)
      && (forall i | 0 <= i < |m.keys| && m.keys[i] == caller ::
            forall j | 0 <= j < i :: Occurrences(Callers(slow), m.keys[j]) < n)
  {
    var m := CallerCountsOf(slow);
    var caller := m.keys[b];
    var n := m.vals[caller];
    CallerCountsMeaning(slow, caller);
    OccurrencesPositive(Callers(slow), caller);
    forall c | c in Callers(slow) ensures Occurrences(Callers(slow), c) <= n {
      CallerCountsMeaning(slow, c);
      var i :| 0 <= i < |m.keys| && m.keys[i] == c;
    }
    forall i, j | 0 <= i < |m.keys| && m.keys[i] == caller && 0 <= j < i
      ensures Occurrences(Callers(slow), m.keys[j]) < n
    {
      assert i == b;
      CallerCountsMeaning(slow, m.keys[j]);
    }
  }

  /** Where the lists of the report come from. */
  lemma ReportParts(st: AnalyzerState)
    requires Inv(st)
    ensures var actives := ActiveCounts(Values(st.api));
      && ReportOf(st).distribution == (if actives != [] then Histogram(actives) else [])
      && ReportOf(st).activeLargest == (if actives != [] then Some(NatMax(actives)) else None)
    ensures var sorted := SortDesc(st.slow, (r: SlowRecord) => r.elapsed);
      && |ReportOf(st).slowest| == |Take(sorted, 20)|
      && forall i | 0 <= i < |ReportOf(st).slowest| :: ReportOf(st).slowest[i].request == sorted[i]
    ensures ReportOf(st).slowestHttp == Take(SortDesc(HttpTimings(st.http.keys, st.http.vals), (t: HttpTiming) => t.elapsed), 10)
  {
  }

  /** Every active count in the distribution is at most the peak, and so
      is the largest one reported. */
  lemma DistributionBelowPeak(st: AnalyzerState)
    requires Inv(st)
    ensures forall i | 0 <= i < |ReportOf(st).distribution| :: ReportOf(st).distribution[i].active <= st.peak
    ensures ReportOf(st).activeLargest.Some? ==> ReportOf(st).activeLargest.value <= st.peak
  {
    ReportParts(st);
    var actives := ActiveCounts(Values(st.api));
    forall i | 0 <= i < |actives| ensures actives[i] <= st.peak {
      assert st.api.keys[i] in st.api.vals;
    }
    if actives != [] {
      var m := NatMax(actives);
      var h := Histogram(actives);
      forall i | 0 <= i < |h| ensures h[i].active <= st.peak {
        HistogramMeaning(actives, 0, m, h[i].active);
        assert Listed(h, h[i].active);
        var j :| 0 <= j < |actives| && actives[j] == h[i].active;
      }
      var j :| 0 <= j < |actives| && actives[j] == m by {
        NatMaxIn(actives);
      }
    }
  }

  lemma {:induction false} NatMaxIn(xs: seq<nat>)
    requires xs != []
    ensures NatMax(xs) in xs
    decreases |xs|
  {
    if |xs| > 1 {
      NatMaxIn(xs[..|xs| - 1]);
    }
  }

  /** The slow requests listed are the 20 slowest, slowest first, and the
      slowest HTTP requests listed are the 10 slowest, slowest first. */
  lemma SlowestListsOrdered(st: AnalyzerState)
    requires Inv(st)
    ensures var sorted := SortDesc(st.slow, (r: SlowRecord) => r.elapsed);
      && multiset(sorted) == multiset(st.slow)
      && |ReportOf(st).slowest| == (if |st.slow| < 20 then |st.slow| else 20)
      && forall i | 0 <= i < |ReportOf(st).slowest| :: ReportOf(st).slowest[i].request == sorted[i]
    ensures forall i, j | 0 <= i < j < |ReportOf(st).slowest| ::
      ReportOf(st).slowest[i].request.elapsed >= ReportOf(st).slowest[j].request.elapsed
    ensures forall i, j | 0 <= i < j < |ReportOf(st).slowestHttp| ::
      ReportOf(st).slowestHttp[i].elapsed >= ReportOf(st).slowestHttp[j].elapsed
  {
    SlowestRequestsOrdered(st);
    SlowestHttpOrdered(st);
  }

  /** Section 4 lists the 20 slowest requests, slowest first. */
  lemma SlowestRequestsOrdered(st: AnalyzerState)
    requires Inv(st)
    ensures var sorted := SortDesc(st.slow, (r: SlowRecord) => r.elapsed);
      && multiset(sorted) == multiset(st.slow)
      && |ReportOf(st).slowest| == (if |st.slow| < 20 then |st.slow| else 20)
      && forall i | 0 <= i < |ReportOf(st).slowest| :: ReportOf(st).slowest[i].request == sorted[i]
    ensures forall i, j | 0 <= i < j < |ReportOf(st).slowest| ::
      ReportOf(st).slowest[i].request.elapsed >= ReportOf(st).slowest[j].request.elapsed
  {
    ReportParts(st);
    var sorted := SortDesc(st.slow, (r: SlowRecord) => r.elapsed);
    SortDescFacts(st.slow, (r: SlowRecord) => r.elapsed);
    assert |sorted| == |st.slow| by {
      assert |multiset(sorted)| == |multiset(st.slow)|;
    }
  }

  /** Section 2 lists the 10 slowest HTTP requests, slowest first. */
  lemma SlowestHttpOrdered(st: AnalyzerState)
    requires Inv(st)
    ensures forall i, j | 0 <= i < j < |ReportOf(st).slowestHttp| ::
      ReportOf(st).slowestHttp[i].elapsed >= ReportOf(st).slowestHttp[j].elapsed
  {
    ReportParts(st);
    var timings := HttpTimings(st.http.keys, st.http.vals);
    SortDescFacts(timings, (t: HttpTiming) => t.elapsed);
  }

  /** A url table built from no finished call is empty. */
  lemma {:induction false} NoFinishedCallNoUrl(recs: seq<ApiRecord>)
    requires ApiElapsed(recs) == []
    ensures UrlStatsOf(recs).keys == []
    decreases |recs|
  {
    if recs != [] {
      var init := recs[..|recs| - 1];
      assert recs[|recs| - 1].ending.None?;
      NoFinishedCallNoUrl(init);
    }
  }

  /** Section 3 lists the urls of url_stats with the largest total time
      first, at most 10 of them: a prefix of the whole table sorted by
      total, which holds every url of the table once. */
  lemma TopUrlsOrdered(st: AnalyzerState)
    requires Inv(st)
    ensures var stats := UrlStatsOf(Values(st.api));
      var urls := UrlLines(stats.keys, stats.vals);
      var sorted := SortDesc(urls, (u: UrlLine) => u.stat.total);
      && multiset(sorted) == multiset(urls)
      && |ReportOf(st).topUrls| == (if |stats.keys| < 10 then |stats.keys| else 10)
      && ReportOf(st).topUrls <= sorted
    ensures forall i, j | 0 <= i < j < |ReportOf(st).topUrls| ::
      ReportOf(st).topUrls[i].stat.total >= ReportOf(st).topUrls[j].stat.total
  {
    var recs := Values(st.api);
    var stats := UrlStatsOf(recs);
    var urls := UrlLines(stats.keys, stats.vals);
    var sorted := SortDesc(urls, (u: UrlLine) => u.stat.total);
    SortDescFacts(urls, (u: UrlLine) => u.stat.total);
    assert |sorted| == |urls| by {
      assert |multiset(sorted)| == |multiset(urls)|;
    }
    if ApiElapsed(recs) == [] {
      NoFinishedCallNoUrl(recs);
    }
  }
}
