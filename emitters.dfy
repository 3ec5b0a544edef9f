/** The lines the instrumentation writes, and what the analyzer reads back
    from them: REQ_START and REQ_END from auth_requests
    (rrd/corelib/__init__.py) and HTTP_END from the request hooks
    (rrd/__init__.py). A logged line is the timestamp, the level name and
    the message, separated by single spaces. Elapsed times are written
    with `%.3f` from a whole number of milliseconds. */
module Emitters {
  import opened Common
  import opened LogLines
  import opened Analyzer

  // ---------------------------------------------------------------------
  // line text

  /** A logging level name such as WARNING or ERROR. */
  predicate LevelName(level: string)
  {
    level != [] && forall i | 0 <= i < |level| :: 'A' <= level[i] <= 'Z'
  }

  /** A `%s` or `%d` field the analyzer can read back: non-empty and
      without whitespace. */
  predicate Field(f: string)
  {
    f != [] && forall i | 0 <= i < |f| :: !IsSpace(f[i])
  }

  /** The timestamp, level and separators the logger puts before a
      message. */
  function Prefix(ts: DateTime, level: string): string
  {
    TimestampText(ts) + " " + level + " "
  }

  /** `'%.3f' % (ms / 1000)`. */
  function Fmt3(ms: nat): string
  {
    NatToString(ms / 1000) + "." + Padded(ms % 1000, 3)
  }

  /** `[REQ_START] id=%d method=%s url=%s caller=%s thread=%s active_count=%d`. */
  function ReqStartMessage(id: nat, verb: string, url: string, caller: string, thread: string, active: nat): string
  {
    "[REQ_START] id=" + NatToString(id) + " method=" + verb + " url=" + url + " caller=" + caller
      + " thread=" + thread + " active_count=" + NatToString(active)
  }

  /** `[REQ_END] id=%d elapsed=%.3fs active_count=%d`. */
  function ReqEndMessage(id: nat, ms: nat, active: nat): string
  {
    "[REQ_END] id=" + NatToString(id) + " elapsed=" + Fmt3(ms) + "s active_count=" + NatToString(active)
  }

  /** `[HTTP_END] request_id=%s method=%s path=%s status=%s elapsed=%.3fs`. */
  function HttpEndMessage(requestId: string, verb: string, path: string, status: string, ms: nat): string
  {
    "[HTTP_END] request_id=" + requestId + " method=" + verb + " path=" + path + " status=" + status
      + " elapsed=" + Fmt3(ms) + "s"
  }

  // ---------------------------------------------------------------------
  // messages as patterns render them

  /** The pattern's literal text with `fields` put in place of its groups. */
  function Render(steps: seq<Step>, fields: seq<string>, tail: string): string
    requires |fields| == |steps|
    decreases |steps|
  {
    if steps == [] then tail else steps[0].lit + fields[0] + Render(steps[1..], fields[1..], tail)
  }

  /** `%.3f` text reads back, with `float()`, as the milliseconds over 1000. */
  lemma Fmt3ReadBack(ms: nat)
    ensures AllIn(Fmt3(ms), DecimalChar)
    ensures DecimalValue(Fmt3(ms)) == Some(ms as real / 1000.0)
  {
    var whole := NatToString(ms / 1000);
    var frac := Padded(ms % 1000, 3);
    DecimalOfParts(whole, frac);
    MillisReading(ms);
  }

  /** Whole seconds and three digits of milliseconds make `ms / 1000`. */
  lemma MillisReading(ms: nat)
    ensures DecimalReading(ms / 1000, ms % 1000, 3) == ms as real / 1000.0
  {
    assert Pow10(3) == 1000;
    assert ms == 1000 * (ms / 1000) + ms % 1000;
  }

  /** Digits, a dot, digits: `float()` reads the whole part plus the
      fraction. */
  lemma DecimalOfParts(whole: string, frac: string)
    requires AllDigits(whole) && AllDigits(frac) && whole != []
    ensures AllIn(whole + "." + frac, DecimalChar)
    ensures DecimalValue(whole + "." + frac) == Some(DecimalReading(DigitsValue(whole), DigitsValue(frac), |frac|))
  {
    var t := whole + "." + frac;
    DotJoin(whole, frac);
    DotSplit(whole, frac);
    DecimalAtDot(t, |whole|);
  }

  /** The two sides of the dot in digits, a dot, digits. */
  lemma DotSplit(whole: string, frac: string)
    ensures var t := whole + "." + frac; t[..|whole|] == whole && t[|whole| + 1..] == frac
  {
    var t := whole + "." + frac;
    assert t == whole + ("." + frac);
  }

  /** `float()` of digits with a single dot at `dot`. */
  lemma DecimalAtDot(t: string, dot: nat)
    requires AllIn(t, DecimalChar) && dot < |t| && IndexOf(t, '.') == dot
    requires IndexOf(t[dot + 1..], '.') == |t| - dot - 1
    ensures AllDigits(t[..dot]) && AllDigits(t[dot + 1..])
    ensures DecimalValue(t) == if dot == 0 && dot + 1 == |t| then None else
      Some(DecimalReading(DigitsValue(t[..dot]), DigitsValue(t[dot + 1..]), |t| - dot - 1))
  {
    var whole, frac := t[..dot], t[dot + 1..];
    forall i | 0 <= i < |whole| ensures IsDigit(whole[i]) {
      assert whole[i] == t[i] != '.' && InClass(t[i], DecimalChar);
    }
    forall i | 0 <= i < |frac| ensures IsDigit(frac[i]) {
      assert frac[i] == t[dot + 1 + i] != '.' && InClass(t[dot + 1 + i], DecimalChar);
    }
  }

  /** Where `IndexOf` finds the dot of digits, a dot, digits. */
  lemma DotJoin(whole: string, frac: string)
    requires AllDigits(whole) && AllDigits(frac)
    ensures var t := whole + "." + frac;
      && AllIn(t, DecimalChar) && IndexOf(t, '.') == |whole| && IndexOf(frac, '.') == |frac|
  {
    var t := whole + "." + frac;
    forall i | 0 <= i < |t| ensures InClass(t[i], DecimalChar) {
      if i < |whole| { assert t[i] == whole[i]; }
      else if i > |whole| { assert t[i] == frac[i - |whole| - 1]; }
    }
    assert t[|whole|] == '.';
    assert forall j | 0 <= j < |whole| :: t[j] == whole[j];
  }

  /** A run of its class stops where the following text starts outside
      the class. */
  lemma RunStops(f: string, t: string, cls: CharClass)
    requires AllIn(f, cls)
    requires t == [] || !InClass(t[0], cls)
    ensures Run(f + t, cls) == |f|
  {
    assert forall i | 0 <= i < |f| :: (f + t)[i] == f[i];
    assert t != [] ==> (f + t)[|f|] == t[0];
  }

  /** One step of the matcher: literal text, a run of `n` characters,
      then the rest of the pattern. */
  lemma MatchStep(s: string, steps: seq<Step>, tail: string, n: nat, g: seq<string>)
    requires steps != [] && StartsWith(s, steps[0].lit)
    requires 0 < n && Run(s[|steps[0].lit|..], steps[0].cls) == n
    requires MatchPrefix(s[|steps[0].lit|..][n..], steps[1..], tail) == Some(g)
    ensures MatchPrefix(s, steps, tail) == Some([s[|steps[0].lit|..][..n]] + g)
  {
  }

  /** What may follow the rendering of the run of step 0. */
  lemma RenderedRunEnds(steps: seq<Step>, fields: seq<string>, tail: string, rest: string)
    requires Deterministic(steps, tail)
    requires |fields| == |steps| && steps != []
    requires steps != [] && tail == [] ==> rest == [] || !InClass(rest[0], steps[|steps| - 1].cls)
    ensures var more := Render(steps[1..], fields[1..], tail) + rest;
      more == [] || !InClass(more[0], steps[0].cls)
  {
    assert FollowedApart(steps, tail, 0);
    var more := Render(steps[1..], fields[1..], tail) + rest;
    if |steps| > 1 {
      assert more == steps[1].lit + (fields[1] + Render(steps[2..], fields[2..], tail) + rest);
    } else {
      assert more == tail + rest;
    }
  }

  lemma DeterministicTail(steps: seq<Step>, tail: string)
    requires Deterministic(steps, tail) && steps != []
    ensures Deterministic(steps[1..], tail)
  {
    forall i | 0 <= i < |steps| - 1 ensures FollowedApart(steps[1..], tail, i) {
      assert FollowedApart(steps, tail, i + 1);
      assert steps[1..][i] == steps[i + 1];
    }
  }

  /** The premises of MatchRendered hold for the steps after the first. */
  lemma RenderedTailPremises(steps: seq<Step>, fields: seq<string>, tail: string, rest: string)
    requires Deterministic(steps, tail)
    requires |fields| == |steps| && steps != []
    requires forall k | 0 <= k < |steps| :: fields[k] != [] && AllIn(fields[k], steps[k].cls)
    requires steps != [] && tail == [] ==> rest == [] || !InClass(rest[0], steps[|steps| - 1].cls)
    ensures Deterministic(steps[1..], tail)
    ensures |fields[1..]| == |steps[1..]|
    ensures forall k | 0 <= k < |steps[1..]| :: fields[1..][k] != [] && AllIn(fields[1..][k], steps[1..][k].cls)
    ensures steps[1..] != [] && tail == [] ==> rest == [] || !InClass(rest[0], steps[1..][|steps[1..]| - 1].cls)
  {
    DeterministicTail(steps, tail);
    assert steps[1..] != [] ==> steps[1..][|steps[1..]| - 1] == steps[|steps| - 1];
    assert forall k | 0 <= k < |steps| - 1 :: fields[1..][k] == fields[k + 1] && steps[1..][k] == steps[k + 1];
  }

  /** The first field of a rendered message is exactly the run its step
      takes. */
  lemma RenderedHead(steps: seq<Step>, fields: seq<string>, tail: string, rest: string)
    requires Deterministic(steps, tail)
    requires |fields| == |steps| && steps != []
    requires fields[0] != [] && AllIn(fields[0], steps[0].cls)
    requires steps != [] && tail == [] ==> rest == [] || !InClass(rest[0], steps[|steps| - 1].cls)
    ensures var s := Render(steps, fields, tail) + rest;
      var more := Render(steps[1..], fields[1..], tail) + rest;
      && StartsWith(s, steps[0].lit)
      && Run(s[|steps[0].lit|..], steps[0].cls) == |fields[0]|
      && s[|steps[0].lit|..][|fields[0]|..] == more
      && s[|steps[0].lit|..][..|fields[0]|] == fields[0]
  {
    var s := Render(steps, fields, tail) + rest;
    var lit := steps[0].lit;
    var f := fields[0];
    var more := Render(steps[1..], fields[1..], tail) + rest;
    assert s == lit + (f + more);
    var after := s[|lit|..];
    assert StartsWith(s, lit) && after == f + more;
    RenderedRunEnds(steps, fields, tail, rest);
    RunStops(f, more, steps[0].cls);
    assert after[|f|..] == more && after[..|f|] == f;
  }

  /** A rendered message matches its own pattern and gives back the fields
      it was rendered from, whatever follows it. */
  lemma {:induction false} MatchRendered(steps: seq<Step>, fields: seq<string>, tail: string, rest: string)
    requires Deterministic(steps, tail)
    requires |fields| == |steps|
    requires forall k | 0 <= k < |steps| :: fields[k] != [] && AllIn(fields[k], steps[k].cls)
    requires steps != [] && tail == [] ==> rest == [] || !InClass(rest[0], steps[|steps| - 1].cls)
    ensures MatchPrefix(Render(steps, fields, tail) + rest, steps, tail) == Some(fields)
    decreases |steps|
  {
    var s := Render(steps, fields, tail) + rest;
    if steps == [] {
      assert s[..|tail|] == tail;
    } else {
      RenderedTailPremises(steps, fields, tail, rest);
      MatchRendered(steps[1..], fields[1..], tail, rest);
      MatchRenderedHead(steps, fields, tail, rest);
    }
  }

  /** When the rest of a rendered message matches the rest of the pattern,
      the whole message matches the whole pattern. */
  lemma MatchRenderedHead(steps: seq<Step>, fields: seq<string>, tail: string, rest: string)
    requires Deterministic(steps, tail)
    requires |fields| == |steps| && steps != []
    requires fields[0] != [] && AllIn(fields[0], steps[0].cls)
    requires steps != [] && tail == [] ==> rest == [] || !InClass(rest[0], steps[|steps| - 1].cls)
    requires MatchPrefix(Render(steps[1..], fields[1..], tail) + rest, steps[1..], tail) == Some(fields[1..])
    ensures MatchPrefix(Render(steps, fields, tail) + rest, steps, tail) == Some(fields)
  {
    var s := Render(steps, fields, tail) + rest;
    RenderedHead(steps, fields, tail, rest);
    MatchStep(s, steps, tail, |fields[0]|, fields[1..]);
    assert [fields[0]] + fields[1..] == fields;
  }

  // ---------------------------------------------------------------------
  // where a space is followed by a given character

  predicate PairAt(s: string, p: int, c: char)
  {
    0 <= p && p + 1 < |s| && s[p] == ' ' && s[p + 1] == c
  }

  predicate NoPair(s: string, c: char)
  {
    forall p | 0 <= p < |s| :: !PairAt(s, p, c)
  }

  lemma PairInConcat(a: string, b: string, c: char, p: int)
    requires PairAt(a + b, p, c)
    ensures || PairAt(a, p, c)
            || PairAt(b, p - |a|, c)
            || (p == |a| - 1 && a[|a| - 1] == ' ' && b != [] && b[0] == c)
  {
  }

  lemma NoPairConcat(a: string, b: string, c: char)
    requires NoPair(a, c) && NoPair(b, c)
    requires !(a != [] && b != [] && a[|a| - 1] == ' ' && b[0] == c)
    ensures NoPair(a + b, c)
  {
    forall p ensures !PairAt(a + b, p, c) {
      if PairAt(a + b, p, c) {
        PairInConcat(a, b, c, p);
      }
    }
  }

  lemma FieldNoPair(f: string, c: char)
    requires Field(f)
    ensures NoPair(f, c) && f[|f| - 1] != ' '
  {
    assert IsSpace(' ');
    assert forall p | 0 <= p < |f| :: f[p] != ' ';
  }

  /** Neither literal text nor fields end in a space. */
  predicate LitsClosed(steps: seq<Step>)
  {
    forall k | 0 <= k < |steps| :: steps[k].lit != [] && steps[k].lit[|steps[k].lit| - 1] != ' '
  }

  /** When no literal text holds the pair, no rendering does. */
  lemma {:induction false} RenderNoPair(steps: seq<Step>, fields: seq<string>, tail: string, c: char)
    requires |fields| == |steps| && LitsClosed(steps)
    requires forall k | 0 <= k < |steps| :: Field(fields[k]) && NoPair(steps[k].lit, c)
    requires NoPair(tail, c)
    ensures NoPair(Render(steps, fields, tail), c)
    decreases |steps|
  {
    if steps != [] {
      var lit := steps[0].lit;
      var f := fields[0];
      var more := Render(steps[1..], fields[1..], tail);
      assert LitsClosed(steps[1..]) by {
        forall k | 0 <= k < |steps| - 1 ensures steps[1..][k] == steps[k + 1] { }
      }
      RenderNoPair(steps[1..], fields[1..], tail, c);
      FieldNoPair(f, c);
      NoPairConcat(f, more, c);
      NoPairConcat(lit, f + more, c);
      assert Render(steps, fields, tail) == lit + (f + more);
    }
  }

  /** When only the first literal text holds the pair, a rendering holds it
      only there. */
  lemma RenderPairInFirst(steps: seq<Step>, fields: seq<string>, tail: string, c: char, p: int)
    requires |fields| == |steps| && steps != [] && LitsClosed(steps)
    requires forall k | 0 <= k < |steps| :: Field(fields[k])
    requires forall k | 1 <= k < |steps| :: NoPair(steps[k].lit, c)
    requires NoPair(tail, c)
    requires PairAt(Render(steps, fields, tail), p, c)
    ensures PairAt(steps[0].lit, p, c)
  {
    var lit := steps[0].lit;
    var f := fields[0];
    var more := Render(steps[1..], fields[1..], tail);
    assert LitsClosed(steps[1..]) by {
      forall k | 0 <= k < |steps| - 1 ensures steps[1..][k] == steps[k + 1] { }
    }
    RenderNoPair(steps[1..], fields[1..], tail, c);
    FieldNoPair(f, c);
    NoPairConcat(f, more, c);
    assert Render(steps, fields, tail) == lit + (f + more);
    PairInConcat(lit, f + more, c, p);
  }

  /** A match of a pattern whose first literal text holds the pair at `o`
      puts the pair at `j + o` in the line. */
  lemma MatchNeedsPair(line: string, j: nat, p: Pattern, o: int, c: char)
    requires j <= |line| && p.steps != [] && PairAt(p.steps[0].lit, o, c)
    requires MatchPrefix(line[j..], p.steps, p.tail).Some?
    ensures PairAt(line, j + o, c) && line[j] == p.steps[0].lit[0]
  {
    var lit := p.steps[0].lit;
    assert line[j..][..|lit|] == lit;
    assert line[j + o] == lit[o] && line[j + o + 1] == lit[o + 1];
  }

  /** The spaces of a timestamp: one, followed by a digit. */
  lemma TimestampSpace(ts: DateTime, rest: string, p: int)
    requires 0 <= p < 19 && ValidDateTime(ts)
    requires (TimestampText(ts) + rest)[p] == ' '
    ensures p == 10 && IsDigit((TimestampText(ts) + rest)[11])
  {
    TimestampRoundTrip(ts, rest);
    ShapeSpace(TimestampText(ts) + rest, p);
  }

  /** In text of timestamp shape, the only space is the one at index 10. */
  lemma ShapeSpace(s: string, p: int)
    requires TimestampShape(s) && 0 <= p < 19 && s[p] == ' '
    ensures p == 10 && IsDigit(s[11])
  {
    ShapeDigits(s);
  }

  /** Text of timestamp shape holds digits everywhere but at its five
      separators. */
  lemma ShapeDigits(s: string)
    requires TimestampShape(s)
    ensures forall q | 0 <= q < 19 && q != 4 && q != 7 && q != 10 && q != 13 && q != 16 :: IsDigit(s[q])
  {
    assert forall q | 0 <= q < 4 :: s[q] == s[0..4][q];
    assert forall q | 5 <= q < 7 :: s[q] == s[5..7][q - 5];
    assert forall q | 8 <= q < 10 :: s[q] == s[8..10][q - 8];
    assert forall q | 11 <= q < 13 :: s[q] == s[11..13][q - 11];
    assert forall q | 14 <= q < 16 :: s[q] == s[14..16][q - 14];
    assert forall q | 17 <= q < 19 :: s[q] == s[17..19][q - 17];
  }

  /** Before the message, a space is followed only by a digit, a capital
      letter or the message itself. */
  lemma PrefixNoPair(ts: DateTime, level: string, c: char)
    requires ValidDateTime(ts) && LevelName(level)
    requires !IsDigit(c) && !('A' <= c <= 'Z')
    ensures NoPair(Prefix(ts, level), c)
  {
    var pre := Prefix(ts, level);
    var rest := " " + level + " ";
    assert pre == TimestampText(ts) + rest;
    forall p | PairAt(pre, p, c) ensures false {
      if p < 19 {
        TimestampSpace(ts, rest, p);
      }
    }
  }

  // ---------------------------------------------------------------------
  // finding the message in the line

  /** A match at `p0` and at no earlier position is what `re.search`
      returns. */
  lemma SearchFinds(line: string, p: Pattern, p0: nat)
    requires p0 <= |line| && MatchPrefix(line[p0..], p.steps, p.tail).Some?
    requires forall j | 0 <= j < p0 :: MatchPrefix(line[j..], p.steps, p.tail).None?
    ensures Search(line, p) == MatchPrefix(line[p0..], p.steps, p.tail)
  {
    var i :| && 0 <= i <= |line|
             && Search(line, p) == MatchPrefix(line[i..], p.steps, p.tail)
             && forall j | 0 <= j < i :: MatchPrefix(line[j..], p.steps, p.tail).None?;
  }

  /** No pair, no match. */
  lemma SearchMisses(line: string, p: Pattern, o: int, c: char)
    requires p.steps != [] && PairAt(p.steps[0].lit, o, c)
    requires NoPair(line, c)
    ensures Search(line, p).None?
  {
    if Search(line, p).Some? {
      var j :| 0 <= j <= |line| && Search(line, p) == MatchPrefix(line[j..], p.steps, p.tail);
      MatchNeedsPair(line, j, p, o, c);
    }
  }

  /** What the logger puts before a message, as far as pairs go: it ends
      in a space after a character other than `[`, and holds no pair. */
  predicate PrefixFor(pre: string, c: char)
  {
    |pre| >= 2 && pre[|pre| - 1] == ' ' && pre[|pre| - 2] != '[' && NoPair(pre, c)
  }

  /** The character no prefix and no message start put after a space. */
  predicate Marker(c: char)
  {
    !IsDigit(c) && !('A' <= c <= 'Z') && c != '['
  }

  lemma PrefixFacts(ts: DateTime, level: string, c: char)
    requires ValidDateTime(ts) && LevelName(level) && Marker(c)
    ensures PrefixFor(Prefix(ts, level), c)
  {
    PrefixNoPair(ts, level, c);
    var pre := Prefix(ts, level);
    assert pre[|pre| - 2] == level[|level| - 1];
  }

  /** Pairs in a prefixed message lie inside the message. */
  lemma PairInMessage(pre: string, msg: string, c: char, p: int)
    requires PrefixFor(pre, c) && c != '[' && msg != [] && msg[0] == '['
    requires PairAt(pre + msg, p, c)
    ensures PairAt(msg, p - |pre|, c)
  {
    PairInConcat(pre, msg, c, p);
  }

  /** What the rendered message and the text after it must satisfy for
      the pair argument: fields without spaces, literal text that does not
      end in a space, and the pair only in the first literal text. */
  predicate PairsOnlyFirst(steps: seq<Step>, fields: seq<string>, tail: string, rest: string, c: char)
  {
    && |fields| == |steps| && steps != [] && LitsClosed(steps)
    && steps[0].lit[0] == '['
    && (forall k | 0 <= k < |steps| :: Field(fields[k]))
    && (forall k | 1 <= k < |steps| :: NoPair(steps[k].lit, c))
    && NoPair(tail, c) && NoPair(rest, c) && (rest == [] || rest[0] != c)
  }

  lemma RenderStart(steps: seq<Step>, fields: seq<string>, tail: string, rest: string)
    requires |fields| == |steps| && steps != [] && steps[0].lit != []
    ensures Render(steps, fields, tail) + rest != []
    ensures (Render(steps, fields, tail) + rest)[0] == steps[0].lit[0]
  {
    assert Render(steps, fields, tail) == steps[0].lit + (fields[0] + Render(steps[1..], fields[1..], tail));
  }

  /** In a logged line, the pair sits only where the first literal text
      of the message holds it. */
  lemma PairsOfLine(pre: string, steps: seq<Step>, fields: seq<string>, tail: string,
                    rest: string, c: char, p: int)
    requires PrefixFor(pre, c) && Marker(c)
    requires PairsOnlyFirst(steps, fields, tail, rest, c)
    requires PairAt(pre + (Render(steps, fields, tail) + rest), p, c)
    ensures PairAt(steps[0].lit, p - |pre|, c)
  {
    var body := Render(steps, fields, tail);
    var q := p - |pre|;
    assert PairAt(body + rest, q, c) by {
      RenderStart(steps, fields, tail, rest);
      PairInMessage(pre, body + rest, c, p);
    }
    assert PairAt(body, q, c) by {
      PairInConcat(body, rest, c, q);
    }
    RenderPairInFirst(steps, fields, tail, c, q);
  }

  /** A logged line holding no pair at all. */
  lemma LineNoPair(pre: string, steps: seq<Step>, fields: seq<string>, tail: string, rest: string, c: char)
    requires PrefixFor(pre, c) && Marker(c)
    requires PairsOnlyFirst(steps, fields, tail, rest, c) && NoPair(steps[0].lit, c)
    ensures NoPair(pre + (Render(steps, fields, tail) + rest), c)
  {
    var body := Render(steps, fields, tail);
    RenderStart(steps, fields, tail, rest);
    RenderNoPair(steps, fields, tail, c);
    NoPairConcat(body, rest, c);
    NoPairConcat(pre, body + rest, c);
  }

  /** The only place in `line` where a space is followed by `c`. */
  predicate OnlyPairAt(line: string, c: char, at: int)
  {
    forall r | 0 <= r < |line| :: PairAt(line, r, c) ==> r == at
  }

  lemma LinePairs(pre: string, steps: seq<Step>, fields: seq<string>, tail: string, rest: string,
                  c: char, o: int)
    requires PrefixFor(pre, c) && Marker(c)
    requires PairsOnlyFirst(steps, fields, tail, rest, c)
    requires forall r | 0 <= r < |steps[0].lit| :: PairAt(steps[0].lit, r, c) ==> r == o
    ensures OnlyPairAt(pre + (Render(steps, fields, tail) + rest), c, |pre| + o)
  {
    var line := pre + (Render(steps, fields, tail) + rest);
    forall r | 0 <= r < |line| && PairAt(line, r, c) ensures r == |pre| + o {
      PairsOfLine(pre, steps, fields, tail, rest, c, r);
    }
  }

  /** The pattern matching at `n`, whose literal text holds the only pair
      of the line, is found there. */
  lemma FoundAt(line: string, n: nat, p: Pattern, g: seq<string>, o: int, c: char)
    requires n <= |line| && MatchPrefix(line[n..], p.steps, p.tail) == Some(g)
    requires p.steps != [] && PairAt(p.steps[0].lit, o, c) && OnlyPairAt(line, c, n + o)
    ensures Search(line, p) == Some(g)
  {
    forall j | 0 <= j < n ensures MatchPrefix(line[j..], p.steps, p.tail).None? {
      if MatchPrefix(line[j..], p.steps, p.tail).Some? {
        MatchNeedsPair(line, j, p, o, c);
      }
    }
    SearchFinds(line, p, n);
  }

  /** A pattern that would need the pair two characters further into its
      literal text than the line holds it: the match would have to begin
      two characters before `n`, where there is no `[`. */
  lemma MissedBy(line: string, n: nat, o: int, q: Pattern, c: char)
    requires 2 <= n <= |line| && line[n - 2] != '[' && OnlyPairAt(line, c, n + o)
    requires q.steps != [] && PairAt(q.steps[0].lit, o + 2, c) && q.steps[0].lit[0] == '['
    ensures Search(line, q).None?
  {
    if Search(line, q).Some? {
      var j :| 0 <= j <= |line| && Search(line, q) == MatchPrefix(line[j..], q.steps, q.tail);
      MatchNeedsPair(line, j, q, o + 2, c);
    }
  }

  /** A logged line carries the timestamp it was written with. */
  lemma LineTimestamp(ts: DateTime, level: string, msg: string)
    requires ValidDateTime(ts)
    ensures ParseTimestamp(Prefix(ts, level) + msg) == Some(ts)
  {
    assert Prefix(ts, level) + msg == TimestampText(ts) + (" " + level + " " + msg);
    TimestampRoundTrip(ts, " " + level + " " + msg);
  }

  lemma DigitsField(n: nat)
    ensures Field(NatToString(n)) && AllIn(NatToString(n), Digit) && AllIn(NatToString(n), DecimalChar)
    ensures DigitsValue(NatToString(n)) == n
  {
    var s := NatToString(n);
    forall i | 0 <= i < |s| ensures !IsSpace(s[i]) {
      assert IsDigit(s[i]);
    }
  }

  lemma Fmt3Field(ms: nat)
    ensures Field(Fmt3(ms)) && AllIn(Fmt3(ms), DecimalChar)
    ensures DecimalValue(Fmt3(ms)) == Some(ms as real / 1000.0)
  {
    Fmt3ReadBack(ms);
    forall i | 0 <= i < |Fmt3(ms)| ensures !IsSpace(Fmt3(ms)[i]) {
      assert InClass(Fmt3(ms)[i], DecimalChar);
    }
  }

  // ---------------------------------------------------------------------
  // the three messages

  lemma ReqStartLits()
    ensures var lit := ReqStartPattern.steps[0].lit;
      && LitsClosed(ReqStartPattern.steps) && lit[0] == '[' && NoPair(lit, 'r') && PairAt(lit, 11, 'i')
      && (forall r | 0 <= r < |lit| :: PairAt(lit, r, 'i') ==> r == 11)
  {
  }

  lemma ReqStartLaterLits(c: char)
    requires c == 'i' || c == 'r'
    ensures forall k | 1 <= k < |ReqStartPattern.steps| :: NoPair(ReqStartPattern.steps[k].lit, c)
  {
    LitNoPair(" method=");
    LitNoPair(" url=");
    LitNoPair(" caller=");
    LitNoPair(" thread=");
    LitNoPair(" active_count=");
  }

  /** A literal of the patterns holds neither pair. */
  lemma LitNoPair(s: string)
    requires s in {" method=", " url=", " caller=", " thread=", " active_count="}
    ensures NoPair(s, 'i') && NoPair(s, 'r')
  {
  }

  lemma ReqEndLits()
    ensures var lit := ReqEndPattern.steps[0].lit;
      && LitsClosed(ReqEndPattern.steps) && lit[0] == '[' && NoPair(lit, 'r') && PairAt(lit, 9, 'i')
      && (forall r | 0 <= r < |lit| :: PairAt(lit, r, 'i') ==> r == 9)
      && NoPair(ReqEndPattern.steps[1].lit, 'i') && NoPair(ReqEndPattern.steps[1].lit, 'r')
      && NoPair("s", 'i') && NoPair("s", 'r')
  {
  }

  lemma HttpEndLits()
    ensures var lit := HttpEndPattern.steps[0].lit;
      && LitsClosed(HttpEndPattern.steps) && lit[0] == '[' && PairAt(lit, 10, 'r')
      && (forall r | 0 <= r < |lit| :: PairAt(lit, r, 'r') ==> r == 10)
      && NoPair("s", 'r')
  {
  }

  lemma HttpEndLaterLits()
    ensures forall k | 1 <= k < |HttpEndPattern.steps| :: NoPair(HttpEndPattern.steps[k].lit, 'r')
  {
  }

  lemma FieldsNonSpace(fields: seq<string>)
    requires forall k | 0 <= k < |fields| :: Field(fields[k])
    ensures forall k | 0 <= k < |fields| :: AllIn(fields[k], NonSpace)
  {
  }

  /** A line where no space is followed by `r` is tagged by neither HTTP
      pattern. */
  lemma NoHttpTag(line: string)
    requires NoPair(line, 'r')
    ensures Search(line, HttpStartPattern).None? && Search(line, HttpEndPattern).None?
  {
    assert Search(line, HttpStartPattern).None? by {
      SearchMisses(line, HttpStartPattern, 12, 'r');
    }
    SearchMisses(line, HttpEndPattern, 10, 'r');
  }

  lemma ReqStartPairs(fields: seq<string>, c: char)
    requires c == 'i' || c == 'r'
    requires |fields| == 6 && forall k | 0 <= k < 6 :: Field(fields[k])
    ensures PairsOnlyFirst(ReqStartPattern.steps, fields, "", "", c)
  {
    ReqStartLits();
    ReqStartLaterLits(c);
  }

  lemma ReqEndPairs(fields: seq<string>, rest: string, c: char)
    requires c == 'i' || c == 'r'
    requires |fields| == 2 && Field(fields[0]) && Field(fields[1])
    requires NoPair(rest, c) && (rest == [] || rest[0] == ' ')
    ensures PairsOnlyFirst(ReqEndPattern.steps, fields, "s", rest, c)
  {
    ReqEndLits();
  }

  lemma HttpEndPairs(fields: seq<string>)
    requires |fields| == 5 && forall k | 0 <= k < 5 :: Field(fields[k])
    ensures PairsOnlyFirst(HttpEndPattern.steps, fields, "s", "", 'r')
  {
    HttpEndLits();
    HttpEndLaterLits();
  }

  /** A rendered message at the end of the prefix matches its pattern
      there. */
  lemma MatchAfter(pre: string, p: Pattern, fields: seq<string>, rest: string)
    requires Deterministic(p.steps, p.tail)
    requires |fields| == |p.steps|
    requires forall k | 0 <= k < |p.steps| :: fields[k] != [] && AllIn(fields[k], p.steps[k].cls)
    requires p.steps != [] && p.tail == [] ==> rest == [] || !InClass(rest[0], p.steps[|p.steps| - 1].cls)
    ensures var line := pre + (Render(p.steps, fields, p.tail) + rest);
      MatchPrefix(line[|pre|..], p.steps, p.tail) == Some(fields)
  {
    var line := pre + (Render(p.steps, fields, p.tail) + rest);
    assert line[|pre|..] == Render(p.steps, fields, p.tail) + rest;
    MatchRendered(p.steps, fields, p.tail, rest);
  }

  lemma ReqStartFits(fields: seq<string>)
    requires |fields| == 6 && forall k | 0 <= k < 6 :: Field(fields[k])
    requires AllIn(fields[0], Digit) && AllIn(fields[5], Digit)
    ensures Deterministic(ReqStartPattern.steps, ReqStartPattern.tail)
    ensures forall k | 0 <= k < 6 :: fields[k] != [] && AllIn(fields[k], ReqStartPattern.steps[k].cls)
  {
    PatternsDeterministic(ReqStartPattern);
    FieldsNonSpace(fields);
  }

  lemma HttpEndFits(fields: seq<string>)
    requires |fields| == 5 && forall k | 0 <= k < 5 :: Field(fields[k])
    requires AllIn(fields[4], DecimalChar)
    ensures Deterministic(HttpEndPattern.steps, HttpEndPattern.tail)
    ensures forall k | 0 <= k < 5 :: fields[k] != [] && AllIn(fields[k], HttpEndPattern.steps[k].cls)
  {
    PatternsDeterministic(HttpEndPattern);
    FieldsNonSpace(fields);
  }

  /** After any prefix of the logger's shape, a REQ_START message is found
      by its own pattern and by neither HTTP pattern. */
  lemma ReqStartSearches(pre: string, fields: seq<string>)
    requires PrefixFor(pre, 'r') && PrefixFor(pre, 'i')
    requires |fields| == 6 && forall k | 0 <= k < 6 :: Field(fields[k])
    requires AllIn(fields[0], Digit) && AllIn(fields[5], Digit)
    ensures var line := pre + (Render(ReqStartPattern.steps, fields, "") + "");
      && Search(line, HttpStartPattern).None? && Search(line, HttpEndPattern).None?
      && Search(line, ReqStartPattern) == Some(fields)
  {
    ReqStartNoHttp(pre, fields);
    ReqStartFound(pre, fields);
  }

  lemma ReqStartNoHttp(pre: string, fields: seq<string>)
    requires PrefixFor(pre, 'r') && PrefixFor(pre, 'i')
    requires |fields| == 6 && forall k | 0 <= k < 6 :: Field(fields[k])
    requires AllIn(fields[0], Digit) && AllIn(fields[5], Digit)
    ensures var line := pre + (Render(ReqStartPattern.steps, fields, "") + "");
      Search(line, HttpStartPattern).None? && Search(line, HttpEndPattern).None?
  {
    var steps := ReqStartPattern.steps;
    ReqStartLits();
    ReqStartPairs(fields, 'r');
    LineNoPair(pre, steps, fields, "", "", 'r');
    NoHttpTag(pre + (Render(ReqStartPattern.steps, fields, "") + ""));
  }

  lemma ReqStartFound(pre: string, fields: seq<string>)
    requires PrefixFor(pre, 'r') && PrefixFor(pre, 'i')
    requires |fields| == 6 && forall k | 0 <= k < 6 :: Field(fields[k])
    requires AllIn(fields[0], Digit) && AllIn(fields[5], Digit)
    ensures Search(pre + (Render(ReqStartPattern.steps, fields, "") + ""), ReqStartPattern) == Some(fields)
  {
    var steps := ReqStartPattern.steps;
    var line := pre + (Render(ReqStartPattern.steps, fields, "") + "");
    ReqStartLits();
    ReqStartPairs(fields, 'i');
    LinePairs(pre, steps, fields, "", "", 'i', 11);
    ReqStartFits(fields);
    MatchAfter(pre, ReqStartPattern, fields, "");
    FoundAt(line, |pre|, ReqStartPattern, fields, 11, 'i');
  }

  /** After any prefix of the logger's shape, a REQ_END message is found
      by its own pattern and by none tried before it. */
  lemma ReqEndSearches(pre: string, fields: seq<string>, rest: string)
    requires PrefixFor(pre, 'r') && PrefixFor(pre, 'i')
    requires |fields| == 2 && Field(fields[0]) && Field(fields[1])
    requires AllIn(fields[0], Digit) && AllIn(fields[1], DecimalChar)
    requires NoPair(rest, 'r') && NoPair(rest, 'i') && (rest == [] || rest[0] == ' ')
    ensures var line := pre + (Render(ReqEndPattern.steps, fields, "s") + rest);
      && Search(line, HttpStartPattern).None? && Search(line, HttpEndPattern).None?
      && Search(line, ReqStartPattern).None? && Search(line, ReqEndPattern) == Some(fields)
  {
    ReqEndNoHttp(pre, fields, rest);
    ReqEndNotReqStart(pre, fields, rest);
    ReqEndFound(pre, fields, rest);
  }

  lemma ReqEndNoHttp(pre: string, fields: seq<string>, rest: string)
    requires PrefixFor(pre, 'r') && PrefixFor(pre, 'i')
    requires |fields| == 2 && Field(fields[0]) && Field(fields[1])
    requires AllIn(fields[0], Digit) && AllIn(fields[1], DecimalChar)
    requires NoPair(rest, 'r') && NoPair(rest, 'i') && (rest == [] || rest[0] == ' ')
    ensures var line := pre + (Render(ReqEndPattern.steps, fields, "s") + rest);
      Search(line, HttpStartPattern).None? && Search(line, HttpEndPattern).None?
  {
    var steps := ReqEndPattern.steps;
    ReqEndLits();
    ReqEndPairs(fields, rest, 'r');
    LineNoPair(pre, steps, fields, "s", rest, 'r');
    NoHttpTag(pre + (Render(ReqEndPattern.steps, fields, "s") + rest));
  }

  lemma ReqEndNotReqStart(pre: string, fields: seq<string>, rest: string)
    requires PrefixFor(pre, 'r') && PrefixFor(pre, 'i')
    requires |fields| == 2 && Field(fields[0]) && Field(fields[1])
    requires AllIn(fields[0], Digit) && AllIn(fields[1], DecimalChar)
    requires NoPair(rest, 'r') && NoPair(rest, 'i') && (rest == [] || rest[0] == ' ')
    ensures Search(pre + (Render(ReqEndPattern.steps, fields, "s") + rest), ReqStartPattern).None?
  {
    var steps := ReqEndPattern.steps;
    var line := pre + (Render(ReqEndPattern.steps, fields, "s") + rest);
    ReqEndLits();
    ReqEndPairs(fields, rest, 'i');
    LinePairs(pre, steps, fields, "s", rest, 'i', 9);
    assert line[|pre| - 2] == pre[|pre| - 2];
    MissedBy(line, |pre|, 9, ReqStartPattern, 'i');
  }

  lemma ReqEndFound(pre: string, fields: seq<string>, rest: string)
    requires PrefixFor(pre, 'r') && PrefixFor(pre, 'i')
    requires |fields| == 2 && Field(fields[0]) && Field(fields[1])
    requires AllIn(fields[0], Digit) && AllIn(fields[1], DecimalChar)
    requires NoPair(rest, 'r') && NoPair(rest, 'i') && (rest == [] || rest[0] == ' ')
    ensures Search(pre + (Render(ReqEndPattern.steps, fields, "s") + rest), ReqEndPattern) == Some(fields)
  {
    var steps := ReqEndPattern.steps;
    var line := pre + (Render(ReqEndPattern.steps, fields, "s") + rest);
    ReqEndLits();
    ReqEndPairs(fields, rest, 'i');
    LinePairs(pre, steps, fields, "s", rest, 'i', 9);
    PatternsDeterministic(ReqEndPattern);
    MatchAfter(pre, ReqEndPattern, fields, rest);
    FoundAt(line, |pre|, ReqEndPattern, fields, 9, 'i');
  }

  /** After any prefix of the logger's shape, an HTTP_END message is found
      by its own pattern and not by HTTP_START's. */
  lemma HttpEndSearches(pre: string, fields: seq<string>)
    requires PrefixFor(pre, 'r')
    requires |fields| == 5 && forall k | 0 <= k < 5 :: Field(fields[k])
    requires AllIn(fields[4], DecimalChar)
    ensures var line := pre + (Render(HttpEndPattern.steps, fields, "s") + "");
      && Search(line, HttpStartPattern).None? && Search(line, HttpEndPattern) == Some(fields)
  {
    HttpEndNotHttpStart(pre, fields);
    HttpEndFound(pre, fields);
  }

  lemma HttpEndNotHttpStart(pre: string, fields: seq<string>)
    requires PrefixFor(pre, 'r')
    requires |fields| == 5 && Field(fields[0]) && Field(fields[1]) && Field(fields[2]) && Field(fields[3]) && Field(fields[4])
    requires AllIn(fields[4], DecimalChar)
    ensures Search(pre + (Render(HttpEndPattern.steps, fields, "s") + ""), HttpStartPattern).None?
  {
    HttpEndLinePairs(pre, fields);
    HttpStartMissed(pre + (Render(HttpEndPattern.steps, fields, "s") + ""), |pre|);
  }

  /** A line whose only " r" sits 10 characters after a character other
      than '[' holds no HTTP_START tag. */
  lemma HttpStartMissed(line: string, n: nat)
    requires 2 <= n <= |line| && line[n - 2] != '[' && OnlyPairAt(line, 'r', n + 10)
    ensures Search(line, HttpStartPattern).None?
  {
    HttpStartMarker();
    MissedBy(line, n, 10, HttpStartPattern, 'r');
  }

  /** The only " r" of an HTTP_END line is the one in its tag. */
  lemma HttpEndLinePairs(pre: string, fields: seq<string>)
    requires PrefixFor(pre, 'r')
    requires |fields| == 5 && forall k | 0 <= k < 5 :: Field(fields[k])
    requires AllIn(fields[4], DecimalChar)
    ensures var line := pre + (Render(HttpEndPattern.steps, fields, "s") + "");
      && 2 <= |pre| <= |line| && line[|pre| - 2] != '[' && OnlyPairAt(line, 'r', |pre| + 10)
  {
    var line := pre + (Render(HttpEndPattern.steps, fields, "s") + "");
    assert line[|pre| - 2] == pre[|pre| - 2];
    HttpEndLits();
    HttpEndPairs(fields);
    LinePairs(pre, HttpEndPattern.steps, fields, "s", "", 'r', 10);
  }

  /** HTTP_START's literal starts with '[' and has " r" at offset 12. */
  lemma HttpStartMarker()
    ensures HttpStartPattern.steps != [] && HttpStartPattern.steps[0].lit[0] == '['
    ensures PairAt(HttpStartPattern.steps[0].lit, 12, 'r')
  {
  }

  lemma HttpEndFound(pre: string, fields: seq<string>)
    requires PrefixFor(pre, 'r')
    requires |fields| == 5 && forall k | 0 <= k < 5 :: Field(fields[k])
    requires AllIn(fields[4], DecimalChar)
    ensures Search(pre + (Render(HttpEndPattern.steps, fields, "s") + ""), HttpEndPattern) == Some(fields)
  {
    HttpEndLinePairs(pre, fields);
    HttpEndMatched(pre, fields);
    HttpEndFoundAt(pre + (Render(HttpEndPattern.steps, fields, "s") + ""), |pre|, fields);
  }

  /** An HTTP_END message rendered after the prefix matches right there. */
  lemma HttpEndMatched(pre: string, fields: seq<string>)
    requires |fields| == 5 && forall k | 0 <= k < 5 :: Field(fields[k])
    requires AllIn(fields[4], DecimalChar)
    ensures var line := pre + (Render(HttpEndPattern.steps, fields, "s") + "");
      MatchPrefix(line[|pre|..], HttpEndPattern.steps, HttpEndPattern.tail) == Some(fields)
  {
    HttpEndFits(fields);
    MatchAfter(pre, HttpEndPattern, fields, "");
  }

  /** A line that matches HTTP_END at its only " r" pair is found there. */
  lemma HttpEndFoundAt(line: string, n: nat, fields: seq<string>)
    requires n <= |line| && MatchPrefix(line[n..], HttpEndPattern.steps, HttpEndPattern.tail) == Some(fields)
    requires OnlyPairAt(line, 'r', n + 10)
    ensures Search(line, HttpEndPattern) == Some(fields)
  {
    HttpEndLits();
    FoundAt(line, n, HttpEndPattern, fields, 10, 'r');
  }

  lemma ReqStartRendered(id: nat, verb: string, url: string, caller: string, thread: string, active: nat)
    ensures ReqStartMessage(id, verb, url, caller, thread, active)
      == Render(ReqStartPattern.steps, [NatToString(id), verb, url, caller, thread, NatToString(active)], "") + ""
  {
    var fields := [NatToString(id), verb, url, caller, thread, NatToString(active)];
    assert fields[1..] == [verb, url, caller, thread, NatToString(active)];
    ReqStartTailRendered(verb, url, caller, thread, NatToString(active));
  }

  /** The part of a REQ_START message after the id. */
  lemma ReqStartTailRendered(verb: string, url: string, caller: string, thread: string, active: string)
    ensures Render(ReqStartPattern.steps[1..], [verb, url, caller, thread, active], "")
      == " method=" + verb + " url=" + url + " caller=" + caller + " thread=" + thread + " active_count=" + active
  {
    var fields := [verb, url, caller, thread, active];
    var steps := ReqStartPattern.steps[1..];
    assert fields[2..] == [caller, thread, active];
    ReqStartLastRendered(caller, thread, active);
    assert Render(steps[1..], fields[1..], "") == " url=" + url + Render(steps[2..], fields[2..], "");
  }

  /** The caller, thread and active count of a REQ_START message. */
  lemma ReqStartLastRendered(caller: string, thread: string, active: string)
    ensures Render(ReqStartPattern.steps[3..], [caller, thread, active], "")
      == " caller=" + caller + " thread=" + thread + " active_count=" + active
  {
    var fields := [caller, thread, active];
    var steps := ReqStartPattern.steps[3..];
    assert Render(steps[3..], fields[3..], "") == "";
    assert Render(steps[2..], fields[2..], "") == " active_count=" + active;
    assert Render(steps[1..], fields[1..], "") == " thread=" + thread + Render(steps[2..], fields[2..], "");
  }

  lemma ReqEndRendered(id: nat, ms: nat, active: nat)
    ensures ReqEndMessage(id, ms, active)
      == Render(ReqEndPattern.steps, [NatToString(id), Fmt3(ms)], "s") + (" active_count=" + NatToString(active))
  {
    var fields := [NatToString(id), Fmt3(ms)];
    var steps := ReqEndPattern.steps;
    assert Render(steps[1..], fields[1..], "s") == " elapsed=" + Fmt3(ms) + "s";
  }

  lemma HttpEndRendered(requestId: string, verb: string, path: string, status: string, ms: nat)
    ensures HttpEndMessage(requestId, verb, path, status, ms)
      == Render(HttpEndPattern.steps, [requestId, verb, path, status, Fmt3(ms)], "s") + ""
  {
    var fields := [requestId, verb, path, status, Fmt3(ms)];
    assert fields[1..] == [verb, path, status, Fmt3(ms)];
    HttpEndTailRendered(verb, path, status, Fmt3(ms));
  }

  /** The part of an HTTP_END message after the request id. */
  lemma HttpEndTailRendered(verb: string, path: string, status: string, elapsed: string)
    ensures Render(HttpEndPattern.steps[1..], [verb, path, status, elapsed], "s")
      == " method=" + verb + " path=" + path + " status=" + status + " elapsed=" + elapsed + "s"
  {
    var fields := [verb, path, status, elapsed];
    var steps := HttpEndPattern.steps[1..];
    assert Render(steps[4..], fields[4..], "s") == "s";
    assert Render(steps[3..], fields[3..], "s") == " elapsed=" + elapsed + "s";
    assert Render(steps[2..], fields[2..], "s") == " status=" + status + Render(steps[3..], fields[3..], "s");
    assert Render(steps[1..], fields[1..], "s") == " path=" + path + Render(steps[2..], fields[2..], "s");
  }

  lemma ReqStartTagged(line: string, g: seq<string>)
    requires Search(line, HttpStartPattern).None? && Search(line, HttpEndPattern).None?
    requires Search(line, ReqStartPattern) == Some(g)
    ensures |g| == 6 && TagOf(line) == ReqStartTag(g[0], g[1], g[2], g[3], DigitsValue(g[5]))
  {
    SearchGroups(line, ReqStartPattern);
  }

  lemma ReqEndTagged(line: string, g: seq<string>)
    requires Search(line, HttpStartPattern).None? && Search(line, HttpEndPattern).None?
    requires Search(line, ReqStartPattern).None? && Search(line, ReqEndPattern) == Some(g)
    ensures |g| == 2 && TagOf(line) == ReqEndTag(g[0], g[1])
  {
    SearchGroups(line, ReqEndPattern);
  }

  lemma HttpEndTagged(line: string, g: seq<string>)
    requires Search(line, HttpStartPattern).None? && Search(line, HttpEndPattern) == Some(g)
    ensures |g| == 5 && TagOf(line) == HttpEndTag(g[0], g[3], g[4])
  {
    SearchGroups(line, HttpEndPattern);
  }

  /** The text REQ_END logs after its elapsed time. */
  lemma ActiveCountText(active: nat)
    ensures var rest := " active_count=" + NatToString(active);
      NoPair(rest, 'r') && NoPair(rest, 'i') && rest[0] == ' '
  {
    DigitsField(active);
    FieldNoPair(NatToString(active), 'r');
    FieldNoPair(NatToString(active), 'i');
    NoPairConcat(" active_count=", NatToString(active), 'r');
    NoPairConcat(" active_count=", NatToString(active), 'i');
  }

  lemma ClassifiedReqStart(line: string, ts: DateTime, id: string, verb: string, url: string, caller: string, active: nat)
    requires ParseTimestamp(line) == Some(ts) && TagOf(line) == ReqStartTag(id, verb, url, caller, active)
    ensures Classify(line) == ReqStartLine(ts, id, verb, url, caller, active)
  {
  }

  lemma ClassifiedReqEnd(line: string, ts: DateTime, id: string, ms: nat)
    requires ParseTimestamp(line) == Some(ts) && TagOf(line) == ReqEndTag(id, Fmt3(ms))
    ensures Classify(line) == ReqEndLine(ts, id, Some(ms as real / 1000.0))
  {
    Fmt3ReadBack(ms);
  }

  lemma ClassifiedHttpEnd(line: string, ts: DateTime, id: string, status: string, ms: nat)
    requires ParseTimestamp(line) == Some(ts) && TagOf(line) == HttpEndTag(id, status, Fmt3(ms))
    ensures Classify(line) == HttpEndLine(ts, id, status, Some(ms as real / 1000.0))
  {
    Fmt3ReadBack(ms);
  }

  lemma SixFields(f0: string, f1: string, f2: string, f3: string, f4: string, f5: string)
    requires Field(f0) && Field(f1) && Field(f2) && Field(f3) && Field(f4) && Field(f5)
    ensures var fields := [f0, f1, f2, f3, f4, f5]; forall k | 0 <= k < 6 :: Field(fields[k])
  {
    var fields := [f0, f1, f2, f3, f4, f5];
    assert fields[0] == f0 && fields[1] == f1 && fields[2] == f2;
    assert fields[3] == f3 && fields[4] == f4 && fields[5] == f5;
  }

  lemma ReqStartTagOf(ts: DateTime, level: string, id: nat, verb: string, url: string,
                      caller: string, thread: string, active: nat)
    requires ValidDateTime(ts) && LevelName(level)
    requires Field(verb) && Field(url) && Field(caller) && Field(thread)
    ensures TagOf(Prefix(ts, level) + ReqStartMessage(id, verb, url, caller, thread, active))
      == ReqStartTag(NatToString(id), verb, url, caller, active)
  {
    PrefixFacts(ts, level, 'r');
    PrefixFacts(ts, level, 'i');
    ReqStartMessageTag(Prefix(ts, level), id, verb, url, caller, thread, active);
  }

  lemma ReqStartMessageTag(pre: string, id: nat, verb: string, url: string,
                           caller: string, thread: string, active: nat)
    requires PrefixFor(pre, 'r') && PrefixFor(pre, 'i')
    requires Field(verb) && Field(url) && Field(caller) && Field(thread)
    ensures TagOf(pre + ReqStartMessage(id, verb, url, caller, thread, active))
      == ReqStartTag(NatToString(id), verb, url, caller, active)
  {
    DigitsField(id);
    DigitsField(active);
    ReqStartRendered(id, verb, url, caller, thread, active);
    ReqStartLineTag(pre, NatToString(id), verb, url, caller, thread, NatToString(active));
  }

  /** A REQ_START message with the given fields, after a prefix. */
  lemma ReqStartLineTag(pre: string, f0: string, f1: string, f2: string, f3: string, f4: string, f5: string)
    requires PrefixFor(pre, 'r') && PrefixFor(pre, 'i')
    requires Field(f0) && Field(f1) && Field(f2) && Field(f3) && Field(f4) && Field(f5)
    requires AllIn(f0, Digit) && AllIn(f5, Digit)
    ensures AllDigits(f5)
    ensures TagOf(pre + (Render(ReqStartPattern.steps, [f0, f1, f2, f3, f4, f5], "") + ""))
      == ReqStartTag(f0, f1, f2, f3, DigitsValue(f5))
  {
    var fields := [f0, f1, f2, f3, f4, f5];
    SixFields(f0, f1, f2, f3, f4, f5);
    ReqStartSearches(pre, fields);
    ReqStartTagged(pre + (Render(ReqStartPattern.steps, fields, "") + ""), fields);
  }

  lemma ReqEndTagOf(ts: DateTime, level: string, id: nat, ms: nat, active: nat)
    requires ValidDateTime(ts) && LevelName(level)
    ensures TagOf(Prefix(ts, level) + ReqEndMessage(id, ms, active)) == ReqEndTag(NatToString(id), Fmt3(ms))
  {
    var fields := [NatToString(id), Fmt3(ms)];
    Fmt3Field(ms);
    ReqEndRendered(id, ms, active);
    PrefixFacts(ts, level, 'r');
    PrefixFacts(ts, level, 'i');
    DigitsField(id);
    ActiveCountText(active);
    ReqEndSearches(Prefix(ts, level), fields, " active_count=" + NatToString(active));
    ReqEndTagged(Prefix(ts, level) + ReqEndMessage(id, ms, active), fields);
  }

  lemma HttpEndTagOf(ts: DateTime, level: string, requestId: string, verb: string, path: string,
                     status: string, ms: nat)
    requires ValidDateTime(ts) && LevelName(level)
    requires Field(requestId) && Field(verb) && Field(path) && Field(status)
    ensures TagOf(Prefix(ts, level) + HttpEndMessage(requestId, verb, path, status, ms))
      == HttpEndTag(requestId, status, Fmt3(ms))
  {
    var fields := [requestId, verb, path, status, Fmt3(ms)];
    Fmt3Field(ms);
    FiveFields(requestId, verb, path, status, Fmt3(ms));
    HttpEndRendered(requestId, verb, path, status, ms);
    PrefixFacts(ts, level, 'r');
    HttpEndLineTag(Prefix(ts, level), fields);
  }

  /** An HTTP_END message with the given fields, after a prefix. */
  lemma HttpEndLineTag(pre: string, fields: seq<string>)
    requires PrefixFor(pre, 'r')
    requires |fields| == 5 && forall k | 0 <= k < 5 :: Field(fields[k])
    requires AllIn(fields[4], DecimalChar)
    ensures TagOf(pre + (Render(HttpEndPattern.steps, fields, "s") + "")) == HttpEndTag(fields[0], fields[3], fields[4])
  {
    HttpEndSearches(pre, fields);
    HttpEndTagged(pre + (Render(HttpEndPattern.steps, fields, "s") + ""), fields);
  }

  lemma FiveFields(f0: string, f1: string, f2: string, f3: string, f4: string)
    requires Field(f0) && Field(f1) && Field(f2) && Field(f3) && Field(f4)
    ensures var fields := [f0, f1, f2, f3, f4]; forall k | 0 <= k < 5 :: Field(fields[k])
  {
    var fields := [f0, f1, f2, f3, f4];
    assert fields[0] == f0 && fields[1] == f1 && fields[2] == f2;
    assert fields[3] == f3 && fields[4] == f4;
  }

  /** A REQ_START line read back by the analyzer: the entry it starts has
      the id, method, url and caller logged, and the active count. */
  lemma ReqStartReadBack(ts: DateTime, level: string, id: nat, verb: string, url: string,
                         caller: string, thread: string, active: nat)
    requires ValidDateTime(ts) && LevelName(level)
    requires Field(verb) && Field(url) && Field(caller) && Field(thread)
    ensures Classify(Prefix(ts, level) + ReqStartMessage(id, verb, url, caller, thread, active))
      == ReqStartLine(ts, NatToString(id), verb, url, caller, active)
  {
    var pre := Prefix(ts, level);
    var msg := ReqStartMessage(id, verb, url, caller, thread, active);
    assert ParseTimestamp(pre + msg) == Some(ts) by {
      LineTimestamp(ts, level, msg);
    }
    ReqStartTagOf(ts, level, id, verb, url, caller, thread, active);
    ClassifiedReqStart(pre + msg, ts, NatToString(id), verb, url, caller, active);
  }

  /** A REQ_END line read back by the analyzer: it completes the entry of
      the id logged with the elapsed time logged. */
  lemma ReqEndReadBack(ts: DateTime, level: string, id: nat, ms: nat, active: nat)
    requires ValidDateTime(ts) && LevelName(level)
    ensures Classify(Prefix(ts, level) + ReqEndMessage(id, ms, active))
      == ReqEndLine(ts, NatToString(id), Some(ms as real / 1000.0))
  {
    var pre := Prefix(ts, level);
    var msg := ReqEndMessage(id, ms, active);
    assert ParseTimestamp(pre + msg) == Some(ts) by {
      LineTimestamp(ts, level, msg);
    }
    ReqEndTagOf(ts, level, id, ms, active);
    ClassifiedReqEnd(pre + msg, ts, NatToString(id), ms);
  }

  /** An HTTP_END line read back by the analyzer: it completes the entry of
      the request id logged with the status and elapsed time logged. */
  lemma HttpEndReadBack(ts: DateTime, level: string, requestId: string, verb: string, path: string,
                        status: string, ms: nat)
    requires ValidDateTime(ts) && LevelName(level)
    requires Field(requestId) && Field(verb) && Field(path) && Field(status)
    ensures Classify(Prefix(ts, level) + HttpEndMessage(requestId, verb, path, status, ms))
      == HttpEndLine(ts, requestId, status, Some(ms as real / 1000.0))
  {
    var pre := Prefix(ts, level);
    var msg := HttpEndMessage(requestId, verb, path, status, ms);
    assert ParseTimestamp(pre + msg) == Some(ts) by {
      LineTimestamp(ts, level, msg);
    }
    HttpEndTagOf(ts, level, requestId, verb, path, status, ms);
    ClassifiedHttpEnd(pre + msg, ts, requestId, status, ms);
  }
}
