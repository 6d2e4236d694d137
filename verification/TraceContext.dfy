/** The traceparent header of section 3.2.2 of W3C Trace Context, as ids.go reads and writes it. */
module TraceContext {
  import opened Prelude
  import opened Ascii

  datatype Traceparent = Traceparent(traceID: string, parentSpanID: string, sampled: bool)

  predicate IsHexDigit(c: char) {
    '0' <= c <= '9' || 'a' <= c <= 'f'
  }

  predicate IsHex(s: string) {
    forall i :: 0 <= i < |s| ==> IsHexDigit(s[i])
  }

  predicate IsAllZero(s: string) {
    forall i :: 0 <= i < |s| ==> s[i] == '0'
  }

  /** isHex */
  method CheckHex(s: string) returns (ok: bool)
    ensures ok == IsHex(s)
  {
    for i := 0 to |s|
      invariant forall j :: 0 <= j < i ==> IsHexDigit(s[j])
    {
      if (s[i] < '0' || s[i] > '9') && (s[i] < 'a' || s[i] > 'f') {
        return false;
      }
    }
    return true;
  }

  /** isAllZeroHex */
  method CheckAllZero(s: string) returns (ok: bool)
    ensures ok == IsAllZero(s)
  {
    if s == "" {
      return true;
    }
    for i := 0 to |s|
      invariant forall j :: 0 <= j < i ==> s[j] == '0'
    {
      if s[i] != '0' {
        return false;
      }
    }
    return true;
  }

  function HexValue(c: char): (v: nat)
    requires IsHexDigit(c)
    ensures v < 16
  {
    if c <= '9' then c as int - '0' as int else c as int - 'a' as int + 10
  }

  /** The low bit of a byte written in two hex digits. */
  predicate LowBit(flags: string)
    requires |flags| == 2 && IsHex(flags)
  {
    (HexValue(flags[0]) * 16 + HexValue(flags[1])) % 2 == 1
  }

  predicate ValidID(id: string, length: nat) {
    |id| == length && IsHex(id) && !IsAllZero(id)
  }

  /** ParseTraceparent */
  function Parse(header: string): Option<Traceparent> {
    var parts := Split(ToLower(TrimSpace(header)), '-');
    if |parts| != 4 || |parts[0]| != 2 || |parts[1]| != 32 || |parts[2]| != 16 || |parts[3]| != 2 then None
    else if !IsHex(parts[0]) || !IsHex(parts[1]) || !IsHex(parts[2]) || !IsHex(parts[3]) then None
    else if IsAllZero(parts[1]) || IsAllZero(parts[2]) then None
    else Some(Traceparent(parts[1], parts[2], LowBit(parts[3])))
  }

  /** FormatTraceparent */
  function Format(traceID: string, spanID: string, sampled: bool): string {
    "00-" + traceID + "-" + spanID + "-" + if sampled then "01" else "00"
  }

  // ---------- the shape of a header ----------

  /** A trimmed lower-case header that is accepted: four hex fields of fixed lengths between dashes, the
      two ids not all zero. Any version is accepted, ff included. */
  predicate IsHeader(h: string) {
    && |h| == 55 && h[2] == h[35] == h[52] == '-'
    && IsHex(h[..2]) && ValidID(h[3..35], 32) && ValidID(h[36..52], 16) && IsHex(h[53..])
  }

  lemma NoDashInHex(s: string)
    requires IsHex(s)
    ensures '-' !in s
  {
  }

  lemma SplitFour(a: string, b: string, c: string, d: string)
    requires '-' !in a && '-' !in b && '-' !in c && '-' !in d
    ensures Split(a + ['-'] + (b + ['-'] + (c + ['-'] + d)), '-') == [a, b, c, d]
  {
    hide Split;
    SplitWord(d, [], '-');
    SplitWord(c, d, '-');
    SplitWord(b, c + ['-'] + d, '-');
    SplitWord(a, b + ['-'] + (c + ['-'] + d), '-');
  }

  lemma JoinFour(parts: seq<string>)
    requires |parts| == 4
    ensures Join(parts, "-") == parts[0] + "-" + (parts[1] + "-" + (parts[2] + "-" + parts[3]))
  {
    var p, q, r := parts[1..], parts[2..], parts[3..];
    assert p[1..] == q && q[1..] == r && r == [parts[3]];
    assert Join(q, "-") == parts[2] + "-" + Join(r, "-");
    assert Join(p, "-") == parts[1] + "-" + Join(q, "-");
  }

  /** What is parsed, by position in the trimmed lower-case header. */
  function AtPositions(h: string): Traceparent
    requires IsHeader(h)
  {
    Traceparent(h[3..35], h[36..52], LowBit(h[53..]))
  }

  lemma FourFields(h: string, a: string, b: string, c: string, d: string)
    requires h == a + "-" + (b + "-" + (c + "-" + d)) && |a| == 2 && |b| == 32 && |c| == 16 && |d| == 2
    ensures |h| == 55 && h[2] == h[35] == h[52] == '-'
    ensures a == h[..2] && b == h[3..35] && c == h[36..52] && d == h[53..]
  {
  }

  /** The sampled flag is the lowest bit of the second digit. */
  lemma OddFlagIsSampled(flags: string)
    requires |flags| == 2 && IsHex(flags)
    ensures LowBit(flags) <==> flags[1] in {'1', '3', '5', '7', '9', 'b', 'd', 'f'}
  {
    OddDigits(flags[1]);
  }

  lemma OddDigits(c: char)
    requires IsHexDigit(c)
    ensures HexValue(c) % 2 == 1 <==> c in {'1', '3', '5', '7', '9', 'b', 'd', 'f'}
  {
  }

  lemma ParsesAtPositions(header: string)
    ensures var h := ToLower(TrimSpace(header));
            Parse(header) == if IsHeader(h) then Some(AtPositions(h)) else None
  {
    var h := ToLower(TrimSpace(header));
    var parts := Split(h, '-');
    if IsHeader(h) {
      var a, b, c, d := h[..2], h[3..35], h[36..52], h[53..];
      NoDashInHex(a);
      NoDashInHex(b);
      NoDashInHex(c);
      NoDashInHex(d);
      SplitFour(a, b, c, d);
      assert h == a + ['-'] + (b + ['-'] + (c + ['-'] + d));
    }
    if Parse(header).Some? {
      JoinSplit(h, '-');
      JoinFour(parts);
      FourFields(h, parts[0], parts[1], parts[2], parts[3]);
    }
  }

  /** A header is accepted exactly when it has the shape, and then read at fixed positions. */
  lemma ParseIsPositional(header: string)
    ensures var h := ToLower(TrimSpace(header));
            Parse(header) == if IsHeader(h) then Some(AtPositions(h)) else None
    ensures var h := ToLower(TrimSpace(header));
            IsHeader(h) ==>
              && Parse(header).value.traceID == h[3..35] && Parse(header).value.parentSpanID == h[36..52]
              && (Parse(header).value.sampled <==> h[54] in {'1', '3', '5', '7', '9', 'b', 'd', 'f'})
  {
    ParsesAtPositions(header);
    var h := ToLower(TrimSpace(header));
    if IsHeader(h) { OddFlagIsSampled(h[53..]); }
    hide ToLower, TrimSpace, Parse, ValidID, IsHex;
  }

  // ---------- round trips ----------

  lemma FieldsShape(h: string, a: string, b: string, c: string, d: string)
    requires h == a + "-" + (b + "-" + (c + "-" + d))
    requires |a| == 2 && IsHex(a) && ValidID(b, 32) && ValidID(c, 16) && |d| == 2 && IsHex(d)
    ensures IsHeader(h) && AtPositions(h) == Traceparent(b, c, LowBit(d))
  {
    FourFields(h, a, b, c, d);
  }

  lemma FormatShape(traceID: string, spanID: string, sampled: bool)
    requires ValidID(traceID, 32) && ValidID(spanID, 16)
    ensures var h := Format(traceID, spanID, sampled);
            IsHeader(h) && AtPositions(h) == Traceparent(traceID, spanID, sampled)
  {
    hide IsHeader, AtPositions, Format, ValidID;
    FormatFields(traceID, spanID, sampled);
    FlagsAreHex(sampled);
    FieldsShape(Format(traceID, spanID, sampled), "00", traceID, spanID, Flags(sampled));
  }

  function Flags(sampled: bool): string {
    if sampled then "01" else "00"
  }

  lemma FlagsAreHex(sampled: bool)
    ensures IsHex("00") && IsHex(Flags(sampled)) && |Flags(sampled)| == 2 && LowBit(Flags(sampled)) == sampled
  {
  }

  lemma FormatFields(traceID: string, spanID: string, sampled: bool)
    ensures Format(traceID, spanID, sampled)
         == "00" + "-" + (traceID + "-" + (spanID + "-" + Flags(sampled)))
  {
  }

  lemma LowerStays(h: string)
    requires IsHeader(h)
    ensures ToLower(TrimSpace(h)) == h
  {
    assert IsHexDigit(h[..2][0]) && IsHexDigit(h[53..][1]);
    assert TrimLeft(h) == h && TrimRight(h) == h;
    forall i | 0 <= i < 55 ensures !IsUpper(h[i]) {
      if i < 2 { assert IsHexDigit(h[..2][i]); }
      else if 3 <= i < 35 { assert IsHexDigit(h[3..35][i - 3]); }
      else if 36 <= i < 52 { assert IsHexDigit(h[36..52][i - 36]); }
      else if 53 <= i { assert IsHexDigit(h[53..][i - 53]); }
    }
  }

  /** Parsing what was formatted gives it back. */
  lemma ParseFormat(traceID: string, spanID: string, sampled: bool)
    requires ValidID(traceID, 32) && ValidID(spanID, 16)
    ensures Parse(Format(traceID, spanID, sampled)) == Some(Traceparent(traceID, spanID, sampled))
  {
    FormatShape(traceID, spanID, sampled);
    LowerStays(Format(traceID, spanID, sampled));
    ParseIsPositional(Format(traceID, spanID, sampled));
  }

  lemma FormatIsHeader(h: string)
    requires IsHeader(h)
    ensures var tp := AtPositions(h);
            Format(tp.traceID, tp.parentSpanID, tp.sampled) == "00" + h[2..53] + (if tp.sampled then "01" else "00")
  {
    assert h[2..53] == "-" + h[3..35] + "-" + h[36..52] + "-";
  }

  /** Formatting what was parsed gives the trimmed lower-case header with its version set to 00 and its
      flags reduced to the sampled bit, and that parses to the same value. */
  lemma FormatParse(header: string)
    requires Parse(header).Some?
    ensures var tp := Parse(header).value;
            var h := ToLower(TrimSpace(header));
            var again := Format(tp.traceID, tp.parentSpanID, tp.sampled);
            && ValidID(tp.traceID, 32) && ValidID(tp.parentSpanID, 16)
            && Parse(again) == Some(tp)
            && |h| == 55 && again == "00" + h[2..53] + (if tp.sampled then "01" else "00")
  {
    ParseIsPositional(header);
    var tp := Parse(header).value;
    ParseFormat(tp.traceID, tp.parentSpanID, tp.sampled);
    FormatIsHeader(ToLower(TrimSpace(header)));
  }
}
