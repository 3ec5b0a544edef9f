/** Small shared vocabulary: optional values, results that carry an error
    instead of raising it, and the few string facts the models need
    (digit strings, decimal rendering of naturals, substring search). */
module Common {

  datatype Option<+T> = None | Some(value: T)

  /** A call that either returns `value` or raises `error`. */
  datatype Result<+T, +E> = Ok(value: T) | Err(error: E)

  predicate IsDigit(c: char) { '0' <= c <= '9' }

  predicate AllDigits(s: string) { forall i | 0 <= i < |s| :: IsDigit(s[i]) }

  function DigitValue(c: char): nat
    requires IsDigit(c)
  {
    (c as int - '0' as int) as nat
  }

  function DigitChar(d: nat): (c: char)
    requires d < 10
    ensures IsDigit(c) && DigitValue(c) == d
  {
    ('0' as int + d) as char
  }

  /** The number a string of decimal digits denotes, as Python's `int()`
      reads it (leading zeros allowed; the empty string reads as 0). */
  function DigitsValue(s: string): nat
    requires AllDigits(s)
  {
    if s == [] then 0 else DigitsValue(s[..|s| - 1]) * 10 + DigitValue(s[|s| - 1])
  }

  /** `"%d" % n` for a natural number: no sign, no leading zeros. */
  function NatToString(n: nat): (r: string)
    ensures |r| > 0 && AllDigits(r)
    ensures DigitsValue(r) == n
    ensures |r| > 1 ==> r[0] != '0'
  {
    if n < 10 then [DigitChar(n)]
    else
      var prefix := NatToString(n / 10);
      var r := prefix + [DigitChar(n % 10)];
      assert r[..|r| - 1] == prefix;
      r
  }

  /** True when `sub` occurs in `s` at position `i`. */
  predicate OccursAt(s: string, sub: string, i: nat)
  {
    i + |sub| <= |s| && s[i..i + |sub|] == sub
  }

  /** Python's `sub in s`. */
  predicate Contains(s: string, sub: string)
  {
    exists i: nat | i <= |s| :: OccursAt(s, sub, i)
  }

  /** `sub in s` decided by a left-to-right scan, as a recursive function. */
  function Find(s: string, sub: string): (r: bool)
    ensures r <==> Contains(s, sub)
    decreases |s|
  {
    if |sub| > |s| then
      assert forall i: nat | i <= |s| :: !OccursAt(s, sub, i);
      false
    else if s[..|sub|] == sub then
      assert OccursAt(s, sub, 0);
      true
    else
      var rest := Find(s[1..], sub);
      assert forall i: nat | 1 <= i <= |s| :: OccursAt(s, sub, i) <==> OccursAt(s[1..], sub, i - 1);
      assert rest ==> OccursAt(s, sub, 1 + (var j: nat :| j <= |s[1..]| && OccursAt(s[1..], sub, j); j));
      rest
  }

  function MaxOf(a: int, b: int): int { if a >= b then a else b }
}
