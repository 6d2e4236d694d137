/** Head-based sampling (tracer.go): the last 32 bits of the trace id against the rate, over exact reals. */
module Sampling {
  import opened Prelude
  import opened Ascii
  import opened TraceContext

  const TAILS: nat := 0x1_0000_0000
  const MAX_TAIL: nat := 0xFFFF_FFFF

  /** The digits strconv.ParseUint accepts in base 16. */
  predicate IsParseDigit(c: char) {
    IsHexDigit(c) || 'A' <= c <= 'F'
  }

  function DigitValue(c: char): nat
    requires IsParseDigit(c)
  {
    if 'A' <= c <= 'F' then c as int - 'A' as int + 10 else HexValue(c)
  }

  function ParseDigits(s: string): (n: nat)
    requires forall i :: 0 <= i < |s| ==> IsParseDigit(s[i])
  {
    if s == "" then 0 else ParseDigits(s[..|s| - 1]) * 16 + DigitValue(s[|s| - 1])
  }

  /** strconv.ParseUint(s, 16, 64) for at most eight characters. */
  function ParseUint16(s: string): Option<nat> {
    if s != "" && forall i :: 0 <= i < |s| ==> IsParseDigit(s[i]) then Some(ParseDigits(s)) else None
  }

  function Tail(traceID: string): string {
    if |traceID| > 8 then traceID[|traceID| - 8..] else traceID
  }

  /** The comparison at the end of sampleDecision. */
  predicate Keeps(bucket: nat, rate: real) {
    bucket as real / MAX_TAIL as real < rate
  }

  /** sampleDecision */
  predicate SampleDecision(traceID: string, rate: real) {
    if rate >= 1.0 then true
    else if rate <= 0.0 then false
    else
      var bucket := ParseUint16(Tail(traceID));
      bucket.Some? && Keeps(bucket.value, rate)
  }

  /** Raising the rate never drops a trace. */
  lemma DecisionMonotone(traceID: string, low: real, high: real)
    requires low <= high && SampleDecision(traceID, low)
    ensures SampleDecision(traceID, high)
  {
  }

  // ---------- the tails ----------

  function HexDigit(v: nat): char
    requires v < 16
  {
    if v < 10 then ('0' as int + v) as char else ('a' as int + v - 10) as char
  }

  /** `width` lower-case hex digits of n. */
  function HexText(n: nat, width: nat): (s: string)
    ensures |s| == width && IsHex(s)
  {
    if width == 0 then "" else HexText(n / 16, width - 1) + [HexDigit(n % 16)]
  }

  function Pow16(width: nat): nat {
    if width == 0 then 1 else 16 * Pow16(width - 1)
  }

  lemma {:induction false} ParseText(n: nat, width: nat)
    requires n < Pow16(width)
    ensures ParseDigits(HexText(n, width)) == n
  {
    if width == 0 {
    } else {
      ParseText(n / 16, width - 1);
      assert HexText(n, width)[..width - 1] == HexText(n / 16, width - 1);
    }
  }

  lemma LastDigit(front: nat, digit: nat)
    requires digit < 16
    ensures (front * 16 + digit) / 16 == front && (front * 16 + digit) % 16 == digit
  {
  }

  lemma {:induction false} TextOfParsed(s: string)
    requires IsHex(s)
    ensures ParseDigits(s) < Pow16(|s|)
    ensures HexText(ParseDigits(s), |s|) == s
  {
    if s == "" {
    } else {
      var n := |s| - 1;
      TextOfParsed(s[..n]);
      assert ParseDigits(s) == ParseDigits(s[..n]) * 16 + HexValue(s[n]);
      LastDigit(ParseDigits(s[..n]), HexValue(s[n]));
      assert s == s[..n] + [s[n]];
    }
  }

  /** The tails of valid trace ids are exactly the 2^32 numbers, each in one way. */
  lemma TailsAreNumbers(traceID: string)
    requires ValidID(traceID, 32)
    ensures Tail(traceID) == traceID[24..]
    ensures ParseUint16(Tail(traceID)).Some?
    ensures ParseUint16(Tail(traceID)).value < TAILS
    ensures Tail(traceID) == HexText(ParseUint16(Tail(traceID)).value, 8)
  {
    var tail := Tail(traceID);
    assert forall i :: 0 <= i < |tail| ==> tail[i] == traceID[24 + i];
    TextOfParsed(tail);
    assert Pow16(8) == TAILS;
  }

  lemma EveryNumberIsATail(n: nat)
    requires n < TAILS
    ensures ParseUint16(HexText(n, 8)) == Some(n)
  {
    assert Pow16(8) == TAILS;
    ParseText(n, 8);
  }

  /** The last eight digits of an id decide, as a number against the rate, and all of a shorter one; nothing
      else of it counts. */
  lemma LastDigitsDecide(front: string, n: nat, width: nat, rate: real)
    requires 0 < width <= 8 && (width == 8 || front == "") && n < Pow16(width)
    ensures SampleDecision(front + HexText(n, width), rate)
       <==> rate >= 1.0 || (rate > 0.0 && n as real < rate * 0xFFFF_FFFF as real)
  {
    var id := front + HexText(n, width);
    assert id[|front|..] == HexText(n, width) && (front == "" ==> id == HexText(n, width));
    assert Tail(id) == HexText(n, width);
    ParseText(n, width);
    KeepsBelow(n, rate);
  }

  /** An id whose last eight characters are not all digits is not sampled, unless all are. */
  lemma NoNumberNoSample(id: string, i: nat, rate: real)
    requires i < |id| && |id| - i <= 8 && !IsParseDigit(id[i]) && rate < 1.0
    ensures !SampleDecision(id, rate)
  {
    var t := Tail(id);
    assert t[i - (|id| - |t|)] == id[i];
  }

  lemma SameEndSameDecision(x: string, y: string, rate: real)
    requires ValidID(x, 32) && ValidID(y, 32) && x[24..] == y[24..]
    ensures SampleDecision(x, rate) == SampleDecision(y, rate)
  {
    TailsAreNumbers(x);
    TailsAreNumbers(y);
  }

  lemma {:induction false} DigitsOfCase(s: string)
    ensures (forall i :: 0 <= i < |s| ==> IsParseDigit(s[i]))
       <==> (forall i :: 0 <= i < |s| ==> IsParseDigit(ToLower(s)[i]))
    ensures (forall i :: 0 <= i < |s| ==> IsParseDigit(s[i])) ==> ParseDigits(ToLower(s)) == ParseDigits(s)
  {
    assert forall i :: 0 <= i < |s| ==> (IsParseDigit(s[i]) <==> IsParseDigit(ToLower(s)[i]));
    if s == "" {
    } else {
      var n := |s| - 1;
      DigitsOfCase(s[..n]);
      assert ToLower(s)[..n] == ToLower(s[..n]);
    }
  }

  /** Capital digits count as small ones. */
  lemma CaseDoesNotMatter(id: string, rate: real)
    ensures SampleDecision(ToLower(id), rate) == SampleDecision(id, rate)
  {
    assert Tail(ToLower(id)) == ToLower(Tail(id));
    DigitsOfCase(Tail(id));
  }

  /** The digits are read with their places: the number of a text is 16 times that of its front, and a digit. */
  lemma DigitPlaces(n: nat, width: nat)
    requires 0 < width
    ensures HexText(n, width) == HexText(n / 16, width - 1) + ["0123456789abcdef"[n % 16]]
  {
  }

  // ---------- the kept share ----------

  function Below(k: nat): (r: set<nat>)
    ensures forall b: nat :: b in r <==> b < k
  {
    if k == 0 then {} else Below(k - 1) + {k - 1}
  }

  lemma {:induction false} BelowCount(k: nat)
    ensures |Below(k)| == k
  {
    if k == 0 {
    } else {
      BelowCount(k - 1);
    }
  }

  /** The tails that are sampled at a rate. */
  function Kept(rate: real): set<nat> {
    set b: nat | b < TAILS && Keeps(b, rate)
  }

  /** A trace with a valid id is sampled exactly when its tail is one of the kept ones. */
  lemma SampledIffKept(traceID: string, rate: real)
    requires ValidID(traceID, 32) && 0.0 < rate < 1.0
    ensures ParseUint16(Tail(traceID)).Some?
    ensures SampleDecision(traceID, rate) <==> ParseUint16(Tail(traceID)).value in Kept(rate)
  {
    TailsAreNumbers(traceID);
  }

  /** The smallest number that is not below x. */
  function Ceiling(x: real): int {
    if x.Floor as real == x then x.Floor else x.Floor + 1
  }

  lemma KeptCount(rate: real)
    requires 0.0 < rate < 1.0
    ensures |Kept(rate)| == Ceiling(rate * 0xFFFF_FFFF as real)
  {
    var x := rate * MAX_TAIL as real;
    assert 0.0 < x < MAX_TAIL as real;
    var k: nat := Ceiling(x);
    forall b: nat ensures Keeps(b, rate) <==> b < k {
      KeepsBelow(b, rate);
    }
    assert Kept(rate) == Below(k);
    BelowCount(k);
  }

  lemma KeepsBelow(b: nat, rate: real)
    ensures Keeps(b, rate) <==> b as real < rate * MAX_TAIL as real
    ensures b as real < rate * MAX_TAIL as real <==> b < Ceiling(rate * MAX_TAIL as real)
  {
  }

  /** The share of the tails that is kept differs from the rate by less than one tail. */
  lemma KeptShareIsTheRate(rate: real)
    requires 0.0 < rate < 1.0
    ensures var share := |Kept(rate)| as real / TAILS as real;
            -1.0 / TAILS as real < share - rate < 1.0 / TAILS as real
  {
    KeptCount(rate);
    var count := |Kept(rate)|;
    var x := rate * MAX_TAIL as real;
    assert x <= count as real < x + 1.0;
    assert rate * TAILS as real == x + rate;
    assert -1.0 < count as real - rate * TAILS as real < 1.0;
  }
}
