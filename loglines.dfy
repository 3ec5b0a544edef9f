/** How logs/analyze_logs.py reads one log line: the leading timestamp
    (`re.match` plus `datetime.strptime`), the six tag patterns it tries
    with `re.search`, and the `float()` of an elapsed field.

    The regular expressions are built from literal text and greedy
    one-or-more character classes (`\S+`, `\d+`, `[\d.]+`). `Backtrack`
    states what Python's backtracking engine does with such a pattern;
    `MatchPrefix` takes each run at its longest, and the two agree whenever
    every run is followed by literal text that starts outside its class,
    as in all six patterns. */
module LogLines {
  import opened Common

  // ---------------------------------------------------------------------
  // characters

  /** Python's `\s` on str: the characters for which `str.isspace()` holds. */
  predicate IsSpace(c: char)
  {
    var n := c as int;
    || (9 <= n <= 13) || (28 <= n <= 32) || n == 0x85 || n == 0xA0 || n == 0x1680
    || (0x2000 <= n <= 0x200A) || n == 0x2028 || n == 0x2029 || n == 0x202F
    || n == 0x205F || n == 0x3000
  }

  datatype CharClass = NonSpace | Digit | DecimalChar   // \S, \d, [\d.]

  predicate InClass(c: char, cls: CharClass)
  {
    match cls
    case NonSpace => !IsSpace(c)
    case Digit => IsDigit(c)
    case DecimalChar => IsDigit(c) || c == '.'
  }

  predicate AllIn(s: string, cls: CharClass)
  {
    forall i | 0 <= i < |s| :: InClass(s[i], cls)
  }

  // ---------------------------------------------------------------------
  // timestamps

  datatype DateTime = DateTime(year: nat, month: nat, day: nat, hour: nat, minute: nat, second: nat)

  predicate IsLeap(y: nat)
  {
    y % 4 == 0 && (y % 100 != 0 || y % 400 == 0)
  }

  function DaysIn(y: nat, m: nat): nat
  {
    if m == 2 then (if IsLeap(y) then 29 else 28)
    else if m == 4 || m == 6 || m == 9 || m == 11 then 30
    else 31
  }

  /** What `datetime` accepts: year 1 to 9999, a real calendar day, and a
      time of day without leap seconds. */
  predicate ValidDateTime(t: DateTime)
  {
    && 1 <= t.year <= 9999 && 1 <= t.month <= 12 && 1 <= t.day <= DaysIn(t.year, t.month)
    && t.hour <= 23 && t.minute <= 59 && t.second <= 59
  }

  predicate DigitsAt(s: string, i: nat, n: nat)
  {
    i + n <= |s| && AllDigits(s[i..i + n])
  }

  /** `re.match(r'(\d{4}-\d{2}-\d{2} \d{2}:\d{2}:\d{2})', line)`. */
  predicate TimestampShape(s: string)
  {
    && |s| >= 19
    && DigitsAt(s, 0, 4) && s[4] == '-' && DigitsAt(s, 5, 2) && s[7] == '-' && DigitsAt(s, 8, 2)
    && s[10] == ' ' && DigitsAt(s, 11, 2) && s[13] == ':' && DigitsAt(s, 14, 2) && s[16] == ':'
    && DigitsAt(s, 17, 2)
  }

  /** The fields of a line of timestamp shape, read as `strptime` reads them. */
  function FieldsOf(s: string): DateTime
    requires TimestampShape(s)
  {
    DateTime(DigitsValue(s[0..4]), DigitsValue(s[5..7]), DigitsValue(s[8..10]),
             DigitsValue(s[11..13]), DigitsValue(s[14..16]), DigitsValue(s[17..19]))
  }

  /** parse_line: the leading timestamp, or None when the line has no
      timestamp of the right shape or `strptime` rejects it. */
  function ParseTimestamp(line: string): Option<DateTime>
  {
    if TimestampShape(line) && ValidDateTime(FieldsOf(line)) then Some(FieldsOf(line)) else None
  }

  /** `n` written with exactly `w` digits, zeros in front. */
  function Padded(n: nat, w: nat): (r: string)
    ensures |r| == w && AllDigits(r)
    ensures n < Pow10(w) ==> DigitsValue(r) == n
  {
    if w == 0 then ""
    else
      var r := Padded(n / 10, w - 1) + [DigitChar(n % 10)];
      assert r[..|r| - 1] == Padded(n / 10, w - 1);
      r
  }

  function Pow10(w: nat): (r: nat)
    ensures r >= 1
  {
    if w == 0 then 1 else 10 * Pow10(w - 1)
  }

  /** A digit string of width `w` is the padding of its own value. */
  lemma {:induction false} PaddedOfDigits(s: string)
    requires AllDigits(s)
    ensures DigitsValue(s) < Pow10(|s|)
    ensures Padded(DigitsValue(s), |s|) == s
    decreases |s|
  {
    if s != [] {
      var p := s[..|s| - 1];
      assert AllDigits(p);
      PaddedOfDigits(p);
      var v := DigitsValue(s);
      assert v / 10 == DigitsValue(p) && v % 10 == DigitValue(s[|s| - 1]);
      assert DigitChar(v % 10) == s[|s| - 1];
      assert s == p + [s[|s| - 1]];
    }
  }

  /** `datetime.strftime('%Y-%m-%d %H:%M:%S')`. */
  function TimestampText(t: DateTime): string
  {
    Padded(t.year, 4) + "-" + Padded(t.month, 2) + "-" + Padded(t.day, 2) + " "
      + Padded(t.hour, 2) + ":" + Padded(t.minute, 2) + ":" + Padded(t.second, 2)
  }

  /** Parsing reads back any valid timestamp written in front of a line. */
  lemma TimestampRoundTrip(t: DateTime, rest: string)
    requires ValidDateTime(t)
    ensures ParseTimestamp(TimestampText(t) + rest) == Some(t)
  {
    var y, mo, d := Padded(t.year, 4), Padded(t.month, 2), Padded(t.day, 2);
    var h, mi, se := Padded(t.hour, 2), Padded(t.minute, 2), Padded(t.second, 2);
    TimestampLayout(y, mo, d, h, mi, se, rest);
    assert Pow10(2) == 100 && Pow10(4) == 10000;
  }

  /** Where the six fields of a written timestamp sit. */
  lemma TimestampLayout(y: string, mo: string, d: string, h: string, mi: string, se: string, rest: string)
    requires |y| == 4 && |mo| == 2 && |d| == 2 && |h| == 2 && |mi| == 2 && |se| == 2
    ensures var s := y + "-" + mo + "-" + d + " " + h + ":" + mi + ":" + se + rest;
      && |s| >= 19 && s[0..4] == y && s[4] == '-' && s[5..7] == mo && s[7] == '-'
      && s[8..10] == d && s[10] == ' ' && s[11..13] == h && s[13] == ':'
      && s[14..16] == mi && s[16] == ':' && s[17..19] == se
  {
    var t := y + "-" + mo + "-" + d + " " + h + ":" + mi + ":" + se;
    var s := t + rest;
    assert |t| == 19 && s[..19] == t;
    assert forall i | 0 <= i < 4 :: t[i] == y[i];
    assert forall i | 0 <= i < 2 ::
      t[5 + i] == mo[i] && t[8 + i] == d[i] && t[11 + i] == h[i] && t[14 + i] == mi[i] && t[17 + i] == se[i];
    assert s[0..4] == t[0..4] == y;
    assert s[5..7] == t[5..7] == mo;
    assert s[8..10] == t[8..10] == d;
    assert s[11..13] == t[11..13] == h;
    assert s[14..16] == t[14..16] == mi;
    assert s[17..19] == t[17..19] == se;
  }

  /** ...and an accepted line starts with the text of the timestamp read. */
  lemma TimestampReadBack(line: string)
    requires ParseTimestamp(line).Some?
    ensures line[..19] == TimestampText(ParseTimestamp(line).value)
    ensures ValidDateTime(ParseTimestamp(line).value)
  {
    PaddedOfDigits(line[0..4]);
    PaddedOfDigits(line[5..7]);
    PaddedOfDigits(line[8..10]);
    PaddedOfDigits(line[11..13]);
    PaddedOfDigits(line[14..16]);
    PaddedOfDigits(line[17..19]);
    var t := TimestampText(FieldsOf(line));
    TimestampLayout(line[0..4], line[5..7], line[8..10], line[11..13], line[14..16], line[17..19], "");
    assert t + "" == t;
    SameLayout(line[..19], t);
  }

  /** Two texts of timestamp length with the same fields and separators
      are the same text. */
  lemma SameLayout(a: string, b: string)
    requires |a| == 19 && |b| == 19
    requires a[0..4] == b[0..4] && a[5..7] == b[5..7] && a[8..10] == b[8..10]
    requires a[11..13] == b[11..13] && a[14..16] == b[14..16] && a[17..19] == b[17..19]
    requires a[4] == b[4] && a[7] == b[7] && a[10] == b[10] && a[13] == b[13] && a[16] == b[16]
    ensures a == b
  {
    forall i | 0 <= i < 19 ensures a[i] == b[i] {
      if i < 4 { assert a[i] == a[0..4][i]; }
      else if 5 <= i < 7 { assert a[i] == a[5..7][i - 5] && b[i] == b[5..7][i - 5]; }
      else if 8 <= i < 10 { assert a[i] == a[8..10][i - 8] && b[i] == b[8..10][i - 8]; }
      else if 11 <= i < 13 { assert a[i] == a[11..13][i - 11] && b[i] == b[11..13][i - 11]; }
      else if 14 <= i < 16 { assert a[i] == a[14..16][i - 14] && b[i] == b[14..16][i - 14]; }
      else if 17 <= i { assert a[i] == a[17..19][i - 17] && b[i] == b[17..19][i - 17]; }
    }
  }

  // ---------------------------------------------------------------------
  // patterns

  /** Literal text followed by one group, a greedy run of one class. */
  datatype Step = Step(lit: string, cls: CharClass)

  /** The six patterns all have this shape: steps, then trailing literal
      text (possibly empty). The `k`-th group is the run of `steps[k]`. */
  datatype Pattern = Pattern(steps: seq<Step>, tail: string)

  predicate StartsWith(s: string, t: string)
  {
    |t| <= |s| && s[..|t|] == t
  }

  /** The literal text after the run of step `i`. */
  function NextLit(steps: seq<Step>, tail: string, i: nat): string
    requires i < |steps|
  {
    if i + 1 < |steps| then steps[i + 1].lit else tail
  }

  /** Every run is followed by the end of the pattern, or by non-empty
      literal text whose first character lies outside the run's class. */
  predicate Deterministic(steps: seq<Step>, tail: string)
  {
    forall i | 0 <= i < |steps| :: FollowedApart(steps, tail, i)
  }

  predicate FollowedApart(steps: seq<Step>, tail: string, i: nat)
    requires i < |steps|
  {
    var next := NextLit(steps, tail, i);
    && (i + 1 < |steps| ==> next != [])
    && (next != [] ==> !InClass(next[0], steps[i].cls))
  }

  /** Length of the longest prefix of `s` inside `cls`. */
  function Run(s: string, cls: CharClass): (n: nat)
    ensures n <= |s|
    ensures forall i | 0 <= i < n :: InClass(s[i], cls)
    ensures n < |s| ==> !InClass(s[n], cls)
  {
    if s == [] || !InClass(s[0], cls) then 0
    else
      var n := 1 + Run(s[1..], cls);
      assert forall i | 1 <= i < n :: s[i] == s[1..][i - 1];
      n
  }

  /** What Python's regex engine does when it tries the pattern at the
      start of `s`: literal text must be there; a run first takes as many
      characters as it can and gives them back one at a time until the rest
      matches. The groups it captures, or None. */
  function Backtrack(s: string, steps: seq<Step>, tail: string): Option<seq<string>>
    decreases |steps|, 1, 0
  {
    if steps == [] then (if StartsWith(s, tail) then Some([]) else None)
    else if !StartsWith(s, steps[0].lit) then None
    else
      var after := s[|steps[0].lit|..];
      TryRuns(after, steps[0].cls, steps[1..], tail, Run(after, steps[0].cls))
  }

  /** The run takes `m` characters, then fewer while the rest fails. */
  function TryRuns(s: string, cls: CharClass, rest: seq<Step>, tail: string, m: nat): Option<seq<string>>
    requires m <= |s|
    decreases |rest| + 1, 0, m
  {
    if m == 0 then None
    else match Backtrack(s[m..], rest, tail)
      case Some(g) => Some([s[..m]] + g)
      case None => TryRuns(s, cls, rest, tail, m - 1)
  }

  /** Matching without backtracking: every run takes all it can. Each group
      captured is a non-empty run of its step's class. */
  function MatchPrefix(s: string, steps: seq<Step>, tail: string): (r: Option<seq<string>>)
    ensures r.Some? ==> |r.value| == |steps|
    ensures r.Some? ==> forall k | 0 <= k < |steps| :: r.value[k] != [] && AllIn(r.value[k], steps[k].cls)
    decreases |steps|
  {
    if steps == [] then (if StartsWith(s, tail) then Some([]) else None)
    else if !StartsWith(s, steps[0].lit) then None
    else
      var after := s[|steps[0].lit|..];
      var n := Run(after, steps[0].cls);
      if n == 0 then None
      else match MatchPrefix(after[n..], steps[1..], tail)
        case Some(g) =>
          var r := [after[..n]] + g;
          assert forall k | 1 <= k < |steps| :: r[k] == g[k - 1] && steps[k] == steps[1..][k - 1];
          Some(r)
        case None => None
  }

  /** A run shorter than the longest leaves a character of its class in
      front of the literal text that follows, which then cannot match. */
  lemma {:induction false} ShorterRunsFail(s: string, cls: CharClass, rest: seq<Step>, tail: string, m: nat)
    requires m < Run(s, cls)
    requires var next := if rest == [] then tail else rest[0].lit;
      next != [] && !InClass(next[0], cls)
    ensures TryRuns(s, cls, rest, tail, m) == None
    decreases m
  {
    if m > 0 {
      var next := if rest == [] then tail else rest[0].lit;
      assert s[m..][0] == s[m];
      assert !StartsWith(s[m..], next);
      ShorterRunsFail(s, cls, rest, tail, m - 1);
    }
  }

  /** On a deterministic pattern the backtracking engine finds exactly what
      the longest-run matcher finds. */
  lemma {:induction false} BacktrackIsLongestRun(s: string, steps: seq<Step>, tail: string)
    requires Deterministic(steps, tail)
    ensures Backtrack(s, steps, tail) == MatchPrefix(s, steps, tail)
    decreases |steps|
  {
    if steps != [] && StartsWith(s, steps[0].lit) {
      var rest := steps[1..];
      assert Deterministic(rest, tail) by {
        forall i | 0 <= i < |rest|
          ensures FollowedApart(rest, tail, i)
        {
          assert FollowedApart(steps, tail, i + 1);
          assert rest[i] == steps[i + 1] && NextLit(rest, tail, i) == NextLit(steps, tail, i + 1);
        }
      }
      var after := s[|steps[0].lit|..];
      var cls := steps[0].cls;
      var n := Run(after, cls);
      if n > 0 {
        BacktrackIsLongestRun(after[n..], rest, tail);
        if Backtrack(after[n..], rest, tail).None? {
          assert FollowedApart(steps, tail, 0);
          if rest != [] || tail != [] {
            ShorterRunsFail(after, cls, rest, tail, n - 1);
          }
        }
      }
    }
  }

  /** `re.search(pattern, s)`: the match at the leftmost position where one
      exists. */
  function Search(s: string, p: Pattern): (r: Option<seq<string>>)
    ensures r.None? ==> forall i | 0 <= i <= |s| :: MatchPrefix(s[i..], p.steps, p.tail).None?
    ensures r.Some? ==> exists i | 0 <= i <= |s| ::
      && r == MatchPrefix(s[i..], p.steps, p.tail)
      && forall j | 0 <= j < i :: MatchPrefix(s[j..], p.steps, p.tail).None?
  {
    SearchFrom(s, p, 0)
  }

  function SearchFrom(s: string, p: Pattern, i: nat): (r: Option<seq<string>>)
    requires i <= |s| + 1
    requires forall j | 0 <= j < i && j <= |s| :: MatchPrefix(s[j..], p.steps, p.tail).None?
    ensures r.None? ==> forall j | 0 <= j <= |s| :: MatchPrefix(s[j..], p.steps, p.tail).None?
    ensures r.Some? ==> exists k | i <= k <= |s| ::
      && r == MatchPrefix(s[k..], p.steps, p.tail)
      && forall j | 0 <= j < k :: MatchPrefix(s[j..], p.steps, p.tail).None?
    decreases |s| + 1 - i
  {
    if i > |s| then None
    else match MatchPrefix(s[i..], p.steps, p.tail)
      case Some(g) => Some(g)
      case None => SearchFrom(s, p, i + 1)
  }

  /** The groups of a successful search, one non-empty run per step. */
  lemma SearchGroups(s: string, p: Pattern)
    requires Search(s, p).Some?
    ensures |Search(s, p).value| == |p.steps|
    ensures forall k | 0 <= k < |p.steps| :: Search(s, p).value[k] != [] && AllIn(Search(s, p).value[k], p.steps[k].cls)
  {
  }

  /** One group of a match, as `SearchGroups` states it for all. */
  lemma SearchGroup(s: string, p: Pattern, k: nat)
    requires Search(s, p).Some? && k < |p.steps|
    ensures |Search(s, p).value| == |p.steps|
    ensures Search(s, p).value[k] != [] && AllIn(Search(s, p).value[k], p.steps[k].cls)
  {
    SearchGroups(s, p);
  }

  // the six tag patterns, in the order analyze_file tries them

  const HttpStartPattern := Pattern([Step("[HTTP_START] request_id=", NonSpace),
    Step(" method=", NonSpace), Step(" path=", NonSpace)], "")

  const HttpEndPattern := Pattern([Step("[HTTP_END] request_id=", NonSpace),
    Step(" method=", NonSpace), Step(" path=", NonSpace), Step(" status=", NonSpace),
    Step(" elapsed=", DecimalChar)], "s")

  const ReqStartPattern := Pattern([Step("[REQ_START] id=", Digit),
    Step(" method=", NonSpace), Step(" url=", NonSpace), Step(" caller=", NonSpace),
    Step(" thread=", NonSpace), Step(" active_count=", Digit)], "")

  const ReqEndPattern := Pattern([Step("[REQ_END] id=", Digit), Step(" elapsed=", DecimalChar)], "s")

  const ReqSlowPattern := Pattern([Step("[REQ_SLOW] id=", Digit),
    Step(" method=", NonSpace), Step(" url=", NonSpace), Step(" elapsed=", DecimalChar),
    Step("s caller=", NonSpace)], "")

  const ReqTimeoutPattern := Pattern([Step("[REQ_TIMEOUT] id=", Digit),
    Step(" method=", NonSpace), Step(" url=", NonSpace), Step(" elapsed=", DecimalChar)], "s")

  /** All six patterns match without backtracking, so `re.search` finds
      exactly what `Search` finds. */
  lemma PatternsDeterministic(p: Pattern)
    requires p in [HttpStartPattern, HttpEndPattern, ReqStartPattern, ReqEndPattern, ReqSlowPattern, ReqTimeoutPattern]
    ensures Deterministic(p.steps, p.tail)
  {
    assert !IsSpace('s') && !IsDigit('s') && IsSpace(' ') && !IsDigit(' ');
  }

  // ---------------------------------------------------------------------
  // tagged lines

  /** What a timestamped line carries, by the first pattern it matches.
      Ids stay text, as the analyzer keeps them; elapsed values stay the
      text `float()` is given. */
  datatype Tagged =
    | HttpStartTag(requestId: string, verb: string, path: string)
    | HttpEndTag(requestId: string, status: string, elapsed: string)
    | ReqStartTag(id: string, verb: string, url: string, caller: string, active: nat)
    | ReqEndTag(id: string, elapsed: string)
    | ReqSlowTag(id: string, elapsed: string, caller: string)
    | ReqTimeoutTag(id: string, url: string, elapsed: string)
    | Untagged

  /** A REQ_START, REQ_SLOW or REQ_TIMEOUT line names its id in digits;
      every elapsed value is a run of digits and dots. */
  predicate WellFormedTag(t: Tagged)
  {
    match t
    case HttpEndTag(_, _, e) => AllIn(e, DecimalChar)
    case ReqStartTag(id, _, _, _, _) => id != [] && AllDigits(id)
    case ReqEndTag(id, e) => id != [] && AllDigits(id) && AllIn(e, DecimalChar)
    case ReqSlowTag(id, e, _) => id != [] && AllDigits(id) && AllIn(e, DecimalChar)
    case ReqTimeoutTag(id, _, e) => id != [] && AllDigits(id) && AllIn(e, DecimalChar)
    case _ => true
  }

  /** The dispatch of analyze_file: try the patterns in order and take the
      first that matches anywhere in the line, reading the groups each
      handler uses. */
  function TagOf(line: string): (t: Tagged)
    ensures WellFormedTag(t)
  {
    match Search(line, HttpStartPattern)
    case Some(g) => SearchGroup(line, HttpStartPattern, 0); HttpStartTag(g[0], g[1], g[2])
    case None =>
    match Search(line, HttpEndPattern)
    case Some(g) => SearchGroup(line, HttpEndPattern, 4); HttpEndTag(g[0], g[3], g[4])
    case None => ApiTagOf(line)
  }

  /** The four REQ_ patterns, tried when neither HTTP pattern matches. */
  function ApiTagOf(line: string): (t: Tagged)
    ensures WellFormedTag(t)
  {
    match Search(line, ReqStartPattern)
    case Some(g) => SearchGroup(line, ReqStartPattern, 0); SearchGroup(line, ReqStartPattern, 5); ReqStartTag(g[0], g[1], g[2], g[3], DigitsValue(g[5]))
    case None => EndOrLaterTagOf(line)
  }

  /** REQ_END, REQ_SLOW and REQ_TIMEOUT, in that order. */
  function EndOrLaterTagOf(line: string): (t: Tagged)
    ensures WellFormedTag(t)
  {
    match Search(line, ReqEndPattern)
    case Some(g) => SearchGroup(line, ReqEndPattern, 0); SearchGroup(line, ReqEndPattern, 1); ReqEndTag(g[0], g[1])
    case None => SlowOrTimeoutTagOf(line)
  }

  /** REQ_SLOW, then REQ_TIMEOUT. */
  function SlowOrTimeoutTagOf(line: string): (t: Tagged)
    ensures WellFormedTag(t)
  {
    match Search(line, ReqSlowPattern)
    case Some(g) => SearchGroup(line, ReqSlowPattern, 0); SearchGroup(line, ReqSlowPattern, 3); ReqSlowTag(g[0], g[3], g[4])
    case None =>
    match Search(line, ReqTimeoutPattern)
    case Some(g) => SearchGroup(line, ReqTimeoutPattern, 0); SearchGroup(line, ReqTimeoutPattern, 3); ReqTimeoutTag(g[0], g[2], g[3])
    case None => Untagged
  }

  /** Each line goes to the first of the six patterns, in the order
      HTTP_START, HTTP_END, REQ_START, REQ_END, REQ_SLOW, REQ_TIMEOUT,
      that matches somewhere in it, and to no handler when none does. */
  lemma DispatchOrder(line: string)
    ensures TagOf(line).HttpStartTag? <==> Search(line, HttpStartPattern).Some?
    ensures TagOf(line).HttpEndTag? <==>
      Search(line, HttpStartPattern).None? && Search(line, HttpEndPattern).Some?
    ensures TagOf(line).ReqStartTag? <==>
      Search(line, HttpStartPattern).None? && Search(line, HttpEndPattern).None?
      && Search(line, ReqStartPattern).Some?
    ensures TagOf(line).ReqEndTag? <==>
      Search(line, HttpStartPattern).None? && Search(line, HttpEndPattern).None?
      && Search(line, ReqStartPattern).None? && Search(line, ReqEndPattern).Some?
    ensures TagOf(line).ReqSlowTag? <==>
      Search(line, HttpStartPattern).None? && Search(line, HttpEndPattern).None?
      && Search(line, ReqStartPattern).None? && Search(line, ReqEndPattern).None?
      && Search(line, ReqSlowPattern).Some?
    ensures TagOf(line).Untagged? <==>
      Search(line, HttpStartPattern).None? && Search(line, HttpEndPattern).None?
      && Search(line, ReqStartPattern).None? && Search(line, ReqEndPattern).None?
      && Search(line, ReqSlowPattern).None? && Search(line, ReqTimeoutPattern).None?
  {
  }

  // ---------------------------------------------------------------------
  // float()

  /** `float(text)` for a run of digits and dots: None where Python raises
      ValueError (no digit at all, or a second dot). */
  function DecimalValue(text: string): Option<real>
    requires AllIn(text, DecimalChar)
  {
    var dot := IndexOf(text, '.');
    var whole := text[..dot];
    var frac := if dot < |text| then text[dot + 1..] else "";
    if IndexOf(frac, '.') < |frac| || |whole| + |frac| == 0 then None
    else
      assert AllDigits(whole) && AllDigits(frac);
      Some(DecimalReading(DigitsValue(whole), DigitsValue(frac), |frac|))
  }

  /** The number `<whole>.<frac>` denotes when `frac` has `width` digits. */
  function DecimalReading(whole: nat, frac: nat, width: nat): real
  {
    whole as real + frac as real / Pow10(width) as real
  }

  /** Position of the first `c` in `s`, or `|s|`. */
  function IndexOf(s: string, c: char): (i: nat)
    ensures i <= |s| && (i < |s| ==> s[i] == c)
    ensures forall j | 0 <= j < i :: s[j] != c
  {
    if s == [] then 0
    else if s[0] == c then 0
    else 1 + IndexOf(s[1..], c)
  }
}
