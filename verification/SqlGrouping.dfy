/** Why queries that differ only in a number, or in the length of a value list, share one template. */
module SqlGrouping {
  import opened Prelude
  import opened Ascii
  import opened Sql
  import opened SqlTemplate
  import opened SqlBlocks

  // ---------- a word of digits ----------

  /** A non-empty run of digits. */
  predicate IsNumber(d: string) {
    d != "" && AllDigits(d)
  }

  predicate EndsOutsideWord(t: string) {
    t != "" && !IsWord(t[|t| - 1])
  }

  lemma NumberRuns(d: string, q: string)
    requires IsNumber(d) && Ends(q)
    ensures WordRun(d + q) == DigitRun(d + q) == |d|
  {
    assert forall i :: 0 <= i < |d| ==> (d + q)[i] == d[i];
    if q != "" { assert (d + q)[|d|] == q[0]; }
  }

  lemma RunsBeforeNumber(t: string, z: string)
    requires EndsOutsideWord(t)
    ensures WordRun(t + z) == WordRun(t) < |t|
    ensures DigitRun(t + z) == DigitRun(t) < |t|
    ensures HexRun(t + z) == HexRun(t) < |t|
  {
    WordRunOver(t, z);
    DigitRunOver(t, z);
    HexRunOver(t, z);
    assert !IsDigit(t[|t| - 1]) && !IsHexChar(t[|t| - 1]);
  }

  /** The same match when the number after the first `k` characters is `d` long instead of one. */
  function Scaled(n: nat, k: nat, d: nat): nat {
    if n > k then k + d else n
  }

  function ScaledOption(r: Option<nat>, k: nat, d: nat): Option<nat> {
    match r
    case Some(n) => Some(Scaled(n, k, d))
    case None => None
  }

  /** The run behind a first character, up to the number or over it. */
  lemma RunScales(t: string, d: string, q: string)
    requires t == "" || EndsOutsideWord(t)
    requires IsNumber(d) && Ends(q)
    ensures WordRun(t + (d + q)) == if t == "" then |d| else WordRun(t)
    ensures DigitRun(t + (d + q)) == if t == "" then |d| else DigitRun(t)
    ensures t != "" ==> WordRun(t) < |t| && DigitRun(t) < |t|
  {
    if t == "" {
      NumberRuns(d, q);
      assert t + (d + q) == d + q;
    } else {
      RunsBeforeNumber(t, d + q);
    }
  }

  lemma FrontOff(p: string, z: string)
    requires EndsOutsideWord(p)
    ensures (p + z)[1..] == p[1..] + z && (p + z)[0] == p[0]
    ensures p[1..] == "" || EndsOutsideWord(p[1..])
  {
  }

  lemma NamedScales(p: string, d: string, q: string)
    requires EndsOutsideWord(p) && IsNumber(d) && Ends(q)
    ensures NamedLen(p + (d + q)) == Scaled(NamedLen(p + "0"), |p|, |d|)
  {
    hide WordRun, DigitRun, IsWord, Ends, EndsOutsideWord;
    FrontOff(p, d + q);
    FrontOff(p, "0");
    RunScales(p[1..], d, q);
    ZeroRun(p[1..]);
  }

  lemma ZeroRun(t: string)
    requires t == "" || EndsOutsideWord(t)
    ensures WordRun(t + "0") == if t == "" then 1 else WordRun(t)
    ensures DigitRun(t + "0") == if t == "" then 1 else DigitRun(t)
  {
    hide WordRun, DigitRun;
    RunScales(t, "0", "");
    assert "0" + "" == "0";
  }

  lemma NumberedScales(p: string, d: string, q: string)
    requires EndsOutsideWord(p) && IsNumber(d) && Ends(q)
    ensures NumberedLen(p + (d + q)) == Scaled(NumberedLen(p + "0"), |p|, |d|)
  {
    hide WordRun, DigitRun, IsWord, Ends, EndsOutsideWord;
    FrontOff(p, d + q);
    FrontOff(p, "0");
    RunScales(p[1..], d, q);
    ZeroRun(p[1..]);
  }

  lemma HexUnmoved(inWord: bool, p: string, z: string)
    requires EndsOutsideWord(p)
    ensures HexLen(inWord, p + z) == HexLen(inWord, p) <= |p|
  {
    if |p| > 2 && p[0] == '0' && p[1] == 'x' {
      var t := p[2..];
      RunsBeforeNumber(t, z);
      assert (p + z)[2..] == t + z;
      assert (t + z)[HexRun(t)..][0] == t[HexRun(t)] == t[HexRun(t)..][0];
    }
  }

  lemma IntUnmoved(inWord: bool, p: string, z: string)
    requires EndsOutsideWord(p)
    ensures IntLen(inWord, p + z) == IntLen(inWord, p) <= |p|
  {
    RunsBeforeNumber(p, z);
    assert (p + z)[DigitRun(p)..][0] == p[DigitRun(p)] == p[DigitRun(p)..][0];
  }

  /** `\d+\b` at the end of an exponent. */
  function LastDigits(s: string): Option<nat> {
    if DigitRun(s) > 0 && Ends(s[DigitRun(s)..]) then Some(DigitRun(s)) else None
  }

  predicate IsMark(c: char) { c == 'e' || c == 'E' }

  lemma ExponentIs(s: string)
    requires s != "" && IsMark(s[0])
    ensures ExponentLen(s) == Longer(1 + SignLen(s), LastDigits(s[1 + SignLen(s)..]))
  {
    hide DigitRun, Ends, SignLen;
  }

  /** The digits of an exponent may be looked for in front of `z` when its sign is not. */
  lemma ExponentAt(u: string, z: string)
    requires u != "" && IsMark(u[0]) && (|u| > 1 || z == "" || !IsSign(z[0]))
    ensures var k := 1 + SignLen(u);
      ExponentLen(u + z) == Longer(k, LastDigits(u[k..] + z))
  {
    hide LastDigits, ExponentLen;
    ExponentIs(u + z);
    assert (u + z)[1 + SignLen(u)..] == u[1 + SignLen(u)..] + z;
  }

  lemma MarkIsNotLast(u: string)
    requires EndsOutsideWord(u) && IsMark(u[0])
    ensures |u| > 1
  {
  }

  lemma ExponentScales(u: string, d: string, q: string)
    requires EndsOutsideWord(u) && IsNumber(d) && Ends(q)
    ensures ExponentLen(u + (d + q)) == ScaledOption(ExponentLen(u + "0"), |u|, |d|)
  {
    hide ExponentLen, LastDigits, Ends, IsWord, IsNumber;
    if IsMark(u[0]) {
      assert |u| > 1 by { MarkIsNotLast(u); }
      ExponentAt(u, d + q);
      ExponentAt(u, "0");
      ExponentDigitsScale(u[1 + SignLen(u)..], d, q);
    } else {
      NoExponent(u, d + q);
      NoExponent(u, "0");
    }
  }

  lemma NoExponent(u: string, z: string)
    requires u != "" && !IsMark(u[0])
    ensures ExponentLen(u + z) == if IsWord(u[0]) then None else Some(0)
  {
  }

  lemma ExponentDigitsScale(v: string, d: string, q: string)
    requires v == "" || EndsOutsideWord(v)
    requires IsNumber(d) && Ends(q)
    ensures LastDigits(v + (d + q)) == ScaledOption(LastDigits(v + "0"), |v|, |d|)
  {
    hide DigitRun;
    if v == "" {
      assert v + (d + q) == d + q && v + "0" == "0";
      NumberRuns(d, q);
      NumberRuns("0", "");
      assert "0" + "" == "0";
      assert (d + q)[|d|..] == q;
    } else {
      RunsBeforeNumber(v, d + q);
      RunsBeforeNumber(v, "0");
      var n := DigitRun(v);
      assert (v + (d + q))[n..][0] == v[n] == (v + "0")[n..][0];
    }
  }

  lemma FractionIsNumber(d: string, q: string)
    requires IsNumber(d) && Ends(q)
    ensures FractionLen(d + q) == Some(|d|)
  {
    NumberRuns(d, q);
    hide DigitRun, IsNumber;
    assert (d + q)[|d|..] == q;
  }

  lemma FractionStep(t: string, z: string)
    requires EndsOutsideWord(t)
    ensures var n := DigitRun(t);
      FractionLen(t + z) == if n == 0 then None else Longer(n, ExponentLen(t[n..] + z))
  {
    hide DigitRun, ExponentLen, EndsOutsideWord;
    RunsBeforeNumber(t, z);
    CutInFront(t, z, DigitRun(t));
  }

  lemma CutInFront(t: string, z: string, k: nat)
    requires k <= |t|
    ensures (t + z)[k..] == t[k..] + z
  {
  }

  lemma NothingInFront(t: string, s: string)
    requires t == ""
    ensures t + s == s == s + ""
  {
  }

  lemma FractionFromStart(t: string, d: string, q: string)
    requires t == "" && IsNumber(d) && Ends(q)
    ensures FractionLen(t + (d + q)) == Some(|d|) && FractionLen(t + "0") == Some(1)
  {
    NothingInFront(t, d + q);
    NothingInFront(t, "0");
    FractionIsNumber(d, q);
    FractionIsNumber("0", "");
    hide FractionLen;
  }

  lemma FractionScales(t: string, d: string, q: string)
    requires t == "" || EndsOutsideWord(t)
    requires IsNumber(d) && Ends(q)
    ensures FractionLen(t + (d + q)) == ScaledOption(FractionLen(t + "0"), |t|, |d|)
  {
    hide DigitRun, ExponentLen, FractionLen;
    if t == "" {
      FractionFromStart(t, d, q);
    } else {
      FractionStep(t, d + q);
      FractionStep(t, "0");
      RunsBeforeNumber(t, "");
      ExponentScales(t[DigitRun(t)..], d, q);
    }
  }

  lemma DecimalStep(inWord: bool, p: string, z: string)
    requires EndsOutsideWord(p)
    ensures DigitRun(p) < |p|
    ensures var k := DigitRun(p);
      DecimalLen(inWord, p + z)
      == if inWord || k == 0 || p[k] != '.' then 0 else Reach(k + 1, FractionLen(p[k + 1..] + z))
  {
    hide FractionLen, DigitRun, WordRun, HexRun, EndsOutsideWord, DecimalLen;
    RunsBeforeNumber(p, z);
    var k := DigitRun(p);
    DecimalUnfolds(inWord, p + z, k);
    PointBefore(p, z, k);
  }

  lemma PointBefore(p: string, z: string, k: nat)
    requires k < |p|
    ensures (p + z)[k] == p[k] && (p + z)[k + 1..] == p[k + 1..] + z
  {
  }

  lemma DecimalUnfolds(inWord: bool, s: string, k: nat)
    requires k == DigitRun(s) < |s|
    ensures DecimalLen(inWord, s)
         == if inWord || k == 0 || s[k] != '.' then 0 else Reach(k + 1, FractionLen(s[k + 1..]))
  {
    hide DigitRun, FractionLen;
  }

  function Reach(k: nat, r: Option<nat>): nat {
    match r
    case Some(n) => k + n
    case None => 0
  }

  lemma DecimalScales(inWord: bool, p: string, d: string, q: string)
    requires EndsOutsideWord(p) && IsNumber(d) && Ends(q)
    ensures DecimalLen(inWord, p + (d + q)) == Scaled(DecimalLen(inWord, p + "0"), |p|, |d|)
  {
    hide FractionLen, DigitRun, DecimalLen, IsNumber, Ends, IsWord;
    DecimalStep(inWord, p, d + q);
    DecimalStep(inWord, p, "0");
    FractionScales(p[DigitRun(p) + 1..], d, q);
  }

  /** The passes that look for numbers and placeholders. */
  predicate Lexical(pass: Pass) {
    pass.Named? || pass.Numbered? || pass.Hex? || pass.Decimal? || pass.Int?
  }

  /** The passes before the lists are collapsed. */
  predicate Literally(pass: Pass) {
    Lexical(pass) || pass.SingleQuoted? || pass.DoubleQuoted?
  }

  lemma MatchScales(pass: Pass, inWord: bool, p: string, d: string, q: string)
    requires Lexical(pass) && EndsOutsideWord(p) && IsNumber(d) && Ends(q)
    ensures MatchLen(pass, inWord, p + (d + q)) == Scaled(MatchLen(pass, inWord, p + "0"), |p|, |d|)
  {
    hide NamedLen, NumberedLen, HexLen, DecimalLen, IntLen;
    match pass
    case Named => NamedScales(p, d, q);
    case Numbered => NumberedScales(p, d, q);
    case Hex => HexUnmoved(inWord, p, d + q); HexUnmoved(inWord, p, "0");
    case Decimal => DecimalScales(inWord, p, d, q);
    case Int => IntUnmoved(inWord, p, d + q); IntUnmoved(inWord, p, "0");
  }

  lemma NumberUnquoted(d: string)
    requires IsNumber(d)
    ensures d != "" && Unquoted(d) && d[0] != '\n' && IsWord(d[0]) && IsWord(d[|d| - 1])
  {
  }

  lemma NumbersAgnostic(pass: Pass, inWord: bool, p: string, d: string, e: string, q: string)
    requires Literally(pass)
    requires EndsOutsideWord(p) && IsNumber(d) && IsNumber(e) && Ends(q)
    ensures Agnostic(pass, inWord, p, d, e, q)
  {
    hide QuotedLen, NamedLen, NumberedLen, HexLen, DecimalLen, IntLen, IsNumber;
    if Lexical(pass) {
      MatchScales(pass, inWord, p, d, q);
      MatchScales(pass, inWord, p, e, q);
    } else {
      NumberUnquoted(d);
      NumberUnquoted(e);
      QuotedAgnostic(if pass.SingleQuoted? then '\'' else '"', p, d, e, q);
    }
  }

  // ---------- the scan at the number ----------

  lemma CopyNumber(pass: Pass, d: string, q: string)
    requires IsNumber(d) && Ends(q) && MatchLen(pass, false, d + q) == 0
    ensures ReplaceAll(pass, false, d + q) == d + ReplaceAll(pass, true, q)
  {
    hide MatchLen;
    NumberRuns(d, q);
    CopyWholeWord(pass, d + q);
    assert (d + q)[..|d|] == d && (d + q)[|d|..] == q;
  }

  lemma DecimalAtNumber(d: string, e: string, q: string)
    requires IsNumber(d) && IsNumber(e) && Ends(q)
    ensures Agrees(DecimalLen(false, d + q), DecimalLen(false, e + q), 0, |d|, |e|)
  {
    NumberRuns(d, q);
    NumberRuns(e, q);
    hide FractionLen, DigitRun, IsNumber;
    if q != "" {
      assert (d + q)[|d|] == q[0] == (e + q)[|e|];
      assert (d + q)[|d| + 1..] == q[1..] == (e + q)[|e| + 1..];
    }
  }

  /** At the number every pass agrees: it passes both numbers over, or swallows both. */
  lemma AtNumber(pass: Pass, d: string, e: string, q: string)
    requires Literally(pass)
    requires IsNumber(d) && IsNumber(e) && Ends(q)
    ensures Agrees(MatchLen(pass, false, d + q), MatchLen(pass, false, e + q), 0, |d|, |e|)
    ensures pass.Int? ==> MatchLen(pass, false, d + q) == |d|
  {
    if pass.Decimal? {
      DecimalAtNumber(d, e, q);
    } else {
      NumberRuns(d, q);
      NumberRuns(e, q);
      hide DigitRun;
      if pass.Hex? { NoHexAtNumber(d, q); NoHexAtNumber(e, q); }
      if pass.Int? { assert (d + q)[|d|..] == q == (e + q)[|e|..]; }
    }
  }

  lemma NoHexAtNumber(d: string, q: string)
    requires IsNumber(d) && Ends(q)
    ensures HexLen(false, d + q) == 0
  {
    if |d| > 1 { assert (d + q)[1] == d[1]; }
    else if q != "" { assert (d + q)[1] == q[0]; }
  }

  /** x and y are the same but for the numbers d and e in one place. */
  predicate Varies(x: string, y: string, p: string, d: string, e: string, q: string) {
    x == p + (d + q) && y == p + (e + q) && !EndsInWord(false, p) && Ends(q)
  }

  ghost predicate Alike(x: string, y: string, d: string, e: string) {
    x == y || exists p, q :: Varies(x, y, p, d, e, q)
  }

  lemma NumbersAgnosticAlong(pass: Pass, p: string, d: string, e: string, q: string)
    requires Literally(pass)
    requires !EndsInWord(false, p) && IsNumber(d) && IsNumber(e) && Ends(q)
    ensures AgnosticAlong(pass, p, d, e, q)
  {
    hide Agnostic, IsNumber;
    forall i: nat, f: bool | i < |p| ensures Agnostic(pass, f, p[i..], d, e, q) {
      NumbersAgnostic(pass, f, p[i..], d, e, q);
    }
  }

  /** What is left of two numbers once the scan stands at them. */
  lemma NumbersLeft(pass: Pass, w: string, d: string, e: string, q: string)
    requires Literally(pass)
    requires !EndsInWord(false, w) && IsNumber(d) && IsNumber(e) && Ends(q)
    ensures Alike(w + ReplaceAll(pass, false, d + q), w + ReplaceAll(pass, false, e + q), d, e)
    ensures pass.Int? ==> ReplaceAll(pass, false, d + q) == ReplaceAll(pass, false, e + q)
  {
    hide MatchLen, IsNumber, ReplaceAll, Ends, Alike;
    AtNumber(pass, d, e, q);
    NumberUnquoted(d);
    NumberUnquoted(e);
    if MatchLen(pass, false, d + q) == 0 {
      CopiedAlike(pass, w, d, e, q);
    } else {
      SwallowNumber(pass, d, q, MatchLen(pass, false, d + q) - |d|);
      SwallowNumber(pass, e, q, MatchLen(pass, false, d + q) - |d|);
      SameAreAlike(w + ReplaceAll(pass, false, d + q), d, e);
    }
  }

  lemma CopiedAlike(pass: Pass, w: string, d: string, e: string, q: string)
    requires MatchLen(pass, false, d + q) == MatchLen(pass, false, e + q) == 0
    requires !EndsInWord(false, w) && IsNumber(d) && IsNumber(e) && Ends(q)
    ensures Alike(w + ReplaceAll(pass, false, d + q), w + ReplaceAll(pass, false, e + q), d, e)
  {
    hide MatchLen, IsNumber, ReplaceAll;
    CopyNumber(pass, d, q);
    CopyNumber(pass, e, q);
    EdgeKept(pass, true, q);
    var t := ReplaceAll(pass, true, q);
    assert Varies(w + ReplaceAll(pass, false, d + q), w + ReplaceAll(pass, false, e + q), w, d, e, t);
  }

  lemma SwallowNumber(pass: Pass, d: string, q: string, k: nat)
    requires IsNumber(d) && MatchLen(pass, false, d + q) == |d| + k && k <= |q|
    ensures ReplaceAll(pass, false, d + q)
         == Replacement(pass) + ReplaceAll(pass, k == 0 || IsWord(q[k - 1]), q[k..])
  {
    hide MatchLen, Replacement;
    assert (d + q)[|d| + k..] == q[k..];
    assert (d + q)[|d| + k - 1] == if k == 0 then d[|d| - 1] else q[k - 1];
  }

  /** No literal pass tells two numbers apart, and the last of them removes both. */
  lemma PassKeepsAlike(pass: Pass, x: string, y: string, d: string, e: string)
    requires Literally(pass)
    requires IsNumber(d) && IsNumber(e) && Alike(x, y, d, e)
    ensures Alike(Apply(pass, x), Apply(pass, y), d, e)
    ensures pass.Int? ==> Apply(pass, x) == Apply(pass, y)
  {
    if x != y {
      var p, q :| Varies(x, y, p, d, e, q);
      NumberUnquoted(d);
      NumberUnquoted(e);
      NumbersAgnosticAlong(pass, p, d, e, q);
      hide MatchLen, IsNumber, ReplaceAll, AgnosticAlong, Alike;
      var r := BlockScan(pass, false, p, d, e, q);
      if r.Some? { NumbersLeft(pass, r.value, d, e, q); }
      else { SameAreAlike(Apply(pass, x), d, e); }
    }
  }

  lemma SameAreAlike(x: string, d: string, e: string)
    ensures Alike(x, x, d, e)
  {
  }

  lemma StrippedIgnoresNumber(x: string, y: string, d: string, e: string)
    requires IsNumber(d) && IsNumber(e) && Alike(x, y, d, e)
    ensures Stripped(x) == Stripped(y)
  {
    StrippedIs(x);
    StrippedIs(y);
    hide Apply, Alike, IsNumber;
    var x1, y1 := Apply(SingleQuoted, x), Apply(SingleQuoted, y);
    PassKeepsAlike(SingleQuoted, x, y, d, e);
    var x2, y2 := Apply(DoubleQuoted, x1), Apply(DoubleQuoted, y1);
    PassKeepsAlike(DoubleQuoted, x1, y1, d, e);
    var x3, y3 := Apply(Named, x2), Apply(Named, y2);
    PassKeepsAlike(Named, x2, y2, d, e);
    var x4, y4 := Apply(Numbered, x3), Apply(Numbered, y3);
    PassKeepsAlike(Numbered, x3, y3, d, e);
    var x5, y5 := Apply(Hex, x4), Apply(Hex, y4);
    PassKeepsAlike(Hex, x4, y4, d, e);
    var x6, y6 := Apply(Decimal, x5), Apply(Decimal, y5);
    PassKeepsAlike(Decimal, x5, y5, d, e);
    PassKeepsAlike(Int, x6, y6, d, e);
  }

  /** Grouping by number: a word of digits anywhere in a query can be replaced by any other, and the
      template stays the same. */
  lemma NumbersShareTemplate(p: string, d: string, e: string, q: string)
    requires IsNumber(d) && IsNumber(e)
    requires p == "" || !IsWord(p[|p| - 1])
    requires q == "" || !IsWord(q[0])
    ensures Normalize(p + d + q) == Normalize(p + e + q)
  {
    assert p + d + q == p + (d + q) && p + e + q == p + (e + q);
    assert Varies(p + d + q, p + e + q, p, d, e, q);
    StrippedIgnoresNumber(p + d + q, p + e + q, d, e);
    hide Stripped, Collapsed, Apply, ToLower, TrimSpace;
  }
}
