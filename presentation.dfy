/**
 * The presentation side of the availability tools: interval formatting
 * `"<s>:00–<e>:00"` (main.py:40, 90) and the announcement composed by
 * `meeting_message` (main.py:103-110). Integers are rendered as Python's
 * `str(int)` renders them: decimal digits, a leading `-` when negative.
 */
module Presentation {
  import opened Intervals

  /** The en dash between the two hours of a formatted interval. */
  const EN_DASH: char := '\U{2013}'

  /** The fixed reply when no interval is common to all members (main.py:104). */
  const NO_COMMON_TIME: string := "No common free time found for all members today."

  datatype Option<T> = None | Some(value: T)

  predicate IsDigit(c: char) { '0' <= c <= '9' }

  predicate AllDigits(s: string)
  {
    forall k :: 0 <= k < |s| ==> IsDigit(s[k])
  }

  function DigitChar(d: int): (c: char)
    requires 0 <= d < 10
    ensures IsDigit(c) && c as int - '0' as int == d
  {
    ('0' as int + d) as char
  }

  /** The decimal digits of `n`, most significant first, with no leading zero. */
  function NatToString(n: nat): (r: string)
    ensures |r| > 0 && AllDigits(r)
    ensures r[0] == '0' ==> n == 0
    decreases n
  {
    if n < 10 then [DigitChar(n)]
    else NatToString(n / 10) + [DigitChar(n % 10)]
  }

  /** The number a string of decimal digits denotes: the reference reading of `NatToString`. */
  function DigitsValue(s: string): nat
    requires AllDigits(s)
  {
    if s == [] then 0
    else DigitsValue(s[..|s| - 1]) * 10 + (s[|s| - 1] as int - '0' as int)
  }

  lemma {:induction false} NatToStringValue(n: nat)
    ensures DigitsValue(NatToString(n)) == n
    decreases n
  {
    if n >= 10 {
      var s := NatToString(n);
      NatToStringValue(n / 10);
      assert s[..|s| - 1] == NatToString(n / 10);
    }
  }

  /** Python's `str(i)` for an integer. */
  function IntToString(i: int): (r: string)
  {
    if i < 0 then "-" + NatToString(-i) else NatToString(i)
  }

  /** The inverse of `IntToString`: an optional `-` followed by decimal digits. */
  function ParseInt(s: string): Option<int>
  {
    if s == [] then None
    else if s[0] == '-' && |s| > 1 && AllDigits(s[1..]) then Some(0 - DigitsValue(s[1..]) as int)
    else if AllDigits(s) then Some(DigitsValue(s))
    else None
  }

  lemma IntToStringRoundTrip(i: int)
    ensures ParseInt(IntToString(i)) == Some(i)
    ensures |IntToString(i)| > 0
    ensures forall k :: 0 <= k < |IntToString(i)| ==> IntToString(i)[k] != ':'
  {
    var r := IntToString(i);
    if i < 0 {
      NatToStringValue(-i);
      assert r[1..] == NatToString(-i);
    } else {
      NatToStringValue(i);
    }
  }

  /** One interval as the tools print it, `"<start>:00–<end>:00"` (main.py:40, 90). */
  function FormatSlot(i: Interval): string
  {
    IntToString(i.start) + ":00" + [EN_DASH] + IntToString(i.end) + ":00"
  }

  /** The part of `s` before its first colon. */
  function UpToColon(s: string): (r: string)
    ensures |r| <= |s| && r == s[..|r|]
  {
    if s == [] || s[0] == ':' then [] else [s[0]] + UpToColon(s[1..])
  }

  lemma {:induction false} UpToColonConcat(x: string, t: string)
    requires forall k :: 0 <= k < |x| ==> x[k] != ':'
    requires |t| > 0 && t[0] == ':'
    ensures UpToColon(x + t) == x
  {
    if x != [] {
      assert (x + t)[1..] == x[1..] + t;
      UpToColonConcat(x[1..], t);
    }
  }

  /** Reads a formatted interval back; the reference inverse of `FormatSlot`. */
  function ParseSlot(s: string): Option<Interval>
  {
    var head := UpToColon(s);
    var rest := s[|head|..];
    if |rest| < 7 || rest[..4] != ":00" + [EN_DASH] || rest[|rest| - 3..] != ":00" then None
    else
      match (ParseInt(head), ParseInt(rest[4..|rest| - 3]))
      case (Some(start), Some(end)) => Some(Interval(start, end))
      case _ => None
  }

  /** Formatting loses nothing: the interval can be read back from its text. */
  lemma FormatSlotRoundTrip(i: Interval)
    ensures ParseSlot(FormatSlot(i)) == Some(i)
  {
    var a := IntToString(i.start);
    var b := IntToString(i.end);
    IntToStringRoundTrip(i.start);
    IntToStringRoundTrip(i.end);
    var t := ":00" + [EN_DASH] + b + ":00";
    assert FormatSlot(i) == a + t;
    UpToColonConcat(a, t);
    var rest := (a + t)[|a|..];
    assert rest == t;
    assert rest[..4] == ":00" + [EN_DASH];
    assert rest[4..|rest| - 3] == b;
    assert rest[|rest| - 3..] == ":00";
  }

  /** Distinct intervals print differently. */
  lemma FormatSlotInjective(i: Interval, j: Interval)
    requires FormatSlot(i) == FormatSlot(j)
    ensures i == j
  {
    FormatSlotRoundTrip(i);
    FormatSlotRoundTrip(j);
  }

  /** The list comprehension of main.py:90: one string per interval, in order. */
  function FormatAll(common: seq<Interval>): seq<string>
  {
    seq(|common|, k requires 0 <= k < |common| => FormatSlot(common[k]))
  }

  /** The formatted list determines the intervals it was made from. */
  lemma FormatAllInjective(x: seq<Interval>, y: seq<Interval>)
    requires FormatAll(x) == FormatAll(y)
    ensures x == y
  {
    assert |x| == |FormatAll(x)| == |FormatAll(y)| == |y|;
    forall k | 0 <= k < |x| ensures x[k] == y[k] {
      assert FormatAll(x)[k] == FormatAll(y)[k];
      FormatSlotInjective(x[k], y[k]);
    }
  }

  /** Python's `sep.join(xs)`. */
  function Join(sep: string, xs: seq<string>): string
  {
    if xs == [] then ""
    else if |xs| == 1 then xs[0]
    else Join(sep, xs[..|xs| - 1]) + sep + xs[|xs| - 1]
  }

  /** The confirmation `add_busy_time` returns (main.py:40). */
  function Confirmation(name: string, start: int, end: int): string
  {
    "Added busy time for " + name + ": " + FormatSlot(Interval(start, end))
  }

  /**
   * `meeting_message`'s composition (main.py:103-110): the fixed reply
   * exactly when there is no formatted slot, otherwise the template naming
   * the members and listing the slots, each joined by ", ".
   */
  function Announcement(members: seq<string>, slots: seq<string>): (r: string)
    ensures r == NO_COMMON_TIME <==> slots == []
  {
    if slots == [] then NO_COMMON_TIME
    else
      var r := "All members (" + Join(", ", members) + ") are available at the following times: "
        + Join(", ", slots) + ". Please confirm which slot works best.";
      assert |r| > |NO_COMMON_TIME|;
      r
  }
}
