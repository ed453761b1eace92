/** Shared vocabulary of the model: optional and fallible values, the clock,
    and the few pieces of Python text formatting the system's outputs rely on. */
module Common {

  /** A value that may be absent: Python's `None`, or a key missing from a dict. */
  datatype Option<+T> = None | Some(value: T) {
    function GetOr(default: T): T {
      match this
      case Some(v) => v
      case None => default
    }
  }

  /** The outcome of a call that may raise. */
  datatype Result<+T, +E> = Success(value: T) | Failure(error: E)

  /** Wall-clock instants as whole seconds since 0001-01-01 00:00:00, the
      smallest Python `datetime`. That day is a Monday, so `Weekday` agrees
      with `datetime.weekday()`. */
  type Time = nat

  const SecondsPerMinute: nat := 60
  const SecondsPerHour: nat := 3600
  const SecondsPerDay: nat := 86400

  function Weekday(t: Time): (d: nat)
    ensures d < 7
  {
    (t / SecondsPerDay) % 7
  }

  function SecondOfDay(t: Time): (s: nat)
    ensures s < SecondsPerDay
  {
    t % SecondsPerDay
  }

  /** `datetime.hour`, `.minute` and `.second`. */
  function Hour(t: Time): (h: nat)
    ensures h < 24
  {
    SecondOfDay(t) / SecondsPerHour
  }

  function Minute(t: Time): (m: nat)
    ensures m < 60
  {
    (SecondOfDay(t) % SecondsPerHour) / SecondsPerMinute
  }

  function Second(t: Time): (s: nat)
    ensures s < 60
  {
    SecondOfDay(t) % SecondsPerMinute
  }

  /** The instant `t.replace(hour=0, minute=0, second=0)`. */
  function DayStart(t: Time): (d: Time)
    ensures d <= t && t - d < SecondsPerDay
  {
    t - SecondOfDay(t)
  }

  lemma ClockDecomposition(t: Time)
    ensures t == DayStart(t) + Hour(t) * SecondsPerHour + Minute(t) * SecondsPerMinute + Second(t)
  {
  }

  // ---------------------------------------------------------------------------
  // Decimal text, as Python's str() writes integers and two-decimal floats

  function DigitChar(d: nat): (c: char)
    requires d < 10
    ensures '0' <= c <= '9'
  {
    "0123456789"[d]
  }

  function DigitValue(c: char): (d: nat)
    requires '0' <= c <= '9'
    ensures d < 10
  {
    c as nat - '0' as nat
  }

  predicate IsDigits(s: string) {
    forall i :: 0 <= i < |s| ==> '0' <= s[i] <= '9'
  }

  /** `str(n)` for a non-negative integer. */
  function NatText(n: nat): (s: string)
    ensures |s| >= 1 && IsDigits(s)
    ensures n == 0 <==> s == "0"
    ensures s[0] == '0' ==> n == 0
  {
    if n < 10 then [DigitChar(n)] else NatText(n / 10) + [DigitChar(n % 10)]
  }

  /** The value of a string of decimal digits, read from the left. */
  function DigitsValue(s: string): nat
    requires IsDigits(s)
  {
    if s == [] then 0 else DigitsValue(s[..|s| - 1]) * 10 + DigitValue(s[|s| - 1])
  }

  /** Reading back what `NatText` wrote gives the number again, so distinct
      numbers are written differently. */
  lemma {:induction false} NatTextRoundTrip(n: nat)
    ensures DigitsValue(NatText(n)) == n
  {
    if n >= 10 {
      var s := NatText(n);
      assert s[..|s| - 1] == NatText(n / 10);
      NatTextRoundTrip(n / 10);
    }
  }

  /** `str(i)` for any integer. */
  function IntText(i: int): (s: string)
    ensures |s| >= 1
    ensures s[0] == '-' <==> i < 0
  {
    if i < 0 then "-" + NatText(-i) else NatText(i)
  }

  /** `str(x)` for the float x = h / 100, a quantity stored with two decimals
      (glucose in mmol/L, probabilities). Python writes the shortest decimal
      that reads back as the same float: at least one fractional digit and no
      trailing zero beyond it ("5.0", "3.1", "12.34"). */
  function CentiText(h: int): (s: string)
    ensures |s| >= 3
  {
    var a := if h < 0 then -h else h;
    var frac := a % 100;
    var digits := if frac % 10 == 0 then [DigitChar(frac / 10)]
                  else [DigitChar(frac / 10), DigitChar(frac % 10)];
    (if h < 0 then "-" else "") + NatText(a / 100) + "." + digits
  }

  /** `str(x)` for the float x = m / 1000 (probabilities stored with three
      decimals): trailing zeros are dropped, one fractional digit is kept. */
  function MilliText(m: int): (s: string)
    ensures |s| >= 3
  {
    var a := if m < 0 then -m else m;
    var frac := a % 1000;
    var d1, d2, d3 := frac / 100, (frac / 10) % 10, frac % 10;
    var digits := if d3 != 0 then [DigitChar(d1), DigitChar(d2), DigitChar(d3)]
                  else if d2 != 0 then [DigitChar(d1), DigitChar(d2)]
                  else [DigitChar(d1)];
    (if m < 0 then "-" else "") + NatText(a / 1000) + "." + digits
  }

  // ---------------------------------------------------------------------------
  // Substrings, joining and ASCII case folding

  /** `sub` occurs in `s` starting at index `i`. */
  predicate OccursAt(sub: string, s: string, i: int) {
    0 <= i && i + |sub| <= |s| && s[i..i + |sub|] == sub
  }

  /** Python's `sub in s`. */
  predicate Contains(s: string, sub: string) {
    exists i :: 0 <= i <= |s| && OccursAt(sub, s, i)
  }

  lemma ContainsInConcat(a: string, sub: string, b: string)
    ensures Contains(a + sub + b, sub)
  {
    assert OccursAt(sub, a + sub + b, |a|);
  }

  lemma {:induction false} ContainsExtends(s: string, sub: string, a: string, b: string)
    requires Contains(s, sub)
    ensures Contains(a + s + b, sub)
  {
    var i :| 0 <= i <= |s| && OccursAt(sub, s, i);
    assert s[i..i + |sub|] == sub;
    assert (a + s + b)[|a| + i..|a| + i + |sub|] == s[i..i + |sub|];
    assert OccursAt(sub, a + s + b, |a| + i);
  }

  /** `sep.join(parts)`. */
  function Join(parts: seq<string>, sep: string): (s: string)
    ensures parts == [] ==> s == ""
    ensures |parts| == 1 ==> s == parts[0]
  {
    if parts == [] then ""
    else if |parts| == 1 then parts[0]
    else parts[0] + sep + Join(parts[1..], sep)
  }

  /** Every joined part can be found in the joined text. */
  lemma {:induction false} JoinContainsParts(parts: seq<string>, sep: string, k: nat)
    requires k < |parts|
    ensures Contains(Join(parts, sep), parts[k])
  {
    if |parts| == 1 {
      ContainsInConcat("", parts[0], "");
      assert "" + parts[0] + "" == parts[0];
    } else if k == 0 {
      ContainsInConcat("", parts[0], sep + Join(parts[1..], sep));
      assert "" + parts[0] + (sep + Join(parts[1..], sep)) == Join(parts, sep);
    } else {
      JoinContainsParts(parts[1..], sep, k - 1);
      ContainsExtends(Join(parts[1..], sep), parts[k], parts[0] + sep, "");
      assert parts[0] + sep + Join(parts[1..], sep) + "" == Join(parts, sep);
    }
  }

  /** Python's `c.lower()` on the ASCII letters; other characters are kept. */
  function LowerChar(c: char): (d: char)
    ensures 'A' <= c <= 'Z' ==> 'a' <= d <= 'z'
    ensures !('A' <= c <= 'Z') ==> d == c
  {
    if 'A' <= c <= 'Z' then (c as int - 'A' as int + 'a' as int) as char else c
  }

  function Lower(s: string): (r: string)
    ensures |r| == |s|
    ensures forall i :: 0 <= i < |s| ==> r[i] == LowerChar(s[i])
  {
    seq(|s|, i requires 0 <= i < |s| => LowerChar(s[i]))
  }

  function Min(a: int, b: int): int {
    if a <= b then a else b
  }

  function Abs(a: int): (r: nat)
    ensures r == a || r == -a
  {
    if a < 0 then -a else a
  }
}
