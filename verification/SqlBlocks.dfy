/** How a pass of the SQL normalizer treats two texts that differ in one block: p + b + q and p + c + q. */
module SqlBlocks {
  import opened Prelude
  import opened Ascii
  import opened Sql
  import opened SqlTemplate

  // ---------- runs across a seam ----------

  lemma {:induction false} WordRunOver(s: string, z: string)
    ensures WordRun(s + z) == if WordRun(s) < |s| then WordRun(s) else |s| + WordRun(z)
  {
    if s == "" { assert s + z == z; }
    else { WordRunOver(s[1..], z); assert (s + z)[1..] == s[1..] + z; }
  }

  lemma {:induction false} DigitRunOver(s: string, z: string)
    ensures DigitRun(s + z) == if DigitRun(s) < |s| then DigitRun(s) else |s| + DigitRun(z)
  {
    if s == "" { assert s + z == z; }
    else { DigitRunOver(s[1..], z); assert (s + z)[1..] == s[1..] + z; }
  }

  lemma {:induction false} HexRunOver(s: string, z: string)
    ensures HexRun(s + z) == if HexRun(s) < |s| then HexRun(s) else |s| + HexRun(z)
  {
    if s == "" { assert s + z == z; }
    else { HexRunOver(s[1..], z); assert (s + z)[1..] == s[1..] + z; }
  }

  lemma {:induction false} BlankRunOver(s: string, z: string)
    ensures BlankRun(s + z) == if BlankRun(s) < |s| then BlankRun(s) else |s| + BlankRun(z)
  {
    if s == "" { assert s + z == z; }
    else { BlankRunOver(s[1..], z); assert (s + z)[1..] == s[1..] + z; }
  }

  // ---------- scanning up to a block ----------

  /** Two matches that start `k` characters before blocks of lengths `b` and `c` end before the blocks and
      are the same, or end equally far behind them. */
  predicate Agrees(n: nat, m: nat, k: nat, b: nat, c: nat) {
    (n == m && n <= k) || (n >= k + b && m - c == n - b)
  }

  /** A match that starts at the front of `p` does not care which of two blocks comes after `p`. */
  predicate Agnostic(pass: Pass, inWord: bool, p: string, b: string, c: string, q: string) {
    Agrees(MatchLen(pass, inWord, p + (b + q)), MatchLen(pass, inWord, p + (c + q)), |p|, |b|, |c|)
  }

  predicate EndsInWord(inWord: bool, p: string) {
    if p == "" then inWord else IsWord(p[|p| - 1])
  }

  ghost predicate AgnosticAlong(pass: Pass, p: string, b: string, c: string, q: string) {
    forall i: nat, f: bool :: i < |p| ==> Agnostic(pass, f, p[i..], b, c, q)
  }

  /** The same for the scan of `p` itself: each match knows what stands in front of it. */
  ghost predicate AgnosticFrom(pass: Pass, inWord: bool, p: string, b: string, c: string, q: string) {
    forall i: nat :: i < |p| ==> Agnostic(pass, FlagAt(inWord, p, i), p[i..], b, c, q)
  }

  lemma AlongIsFrom(pass: Pass, inWord: bool, p: string, b: string, c: string, q: string)
    requires AgnosticAlong(pass, p, b, c, q)
    ensures AgnosticFrom(pass, inWord, p, b, c, q)
  {
    hide Agnostic;
  }

  lemma FromHere(pass: Pass, inWord: bool, p: string, b: string, c: string, q: string)
    requires AgnosticFrom(pass, inWord, p, b, c, q) && p != ""
    ensures Agnostic(pass, inWord, p, b, c, q)
  {
    hide Agnostic;
    assert p[0..] == p && Agnostic(pass, FlagAt(inWord, p, 0), p[0..], b, c, q);
  }

  lemma FromTail(pass: Pass, inWord: bool, p: string, b: string, c: string, q: string, k: nat)
    requires AgnosticFrom(pass, inWord, p, b, c, q) && 0 < k <= |p|
    ensures AgnosticFrom(pass, IsWord(p[k - 1]), p[k..], b, c, q)
  {
    hide Agnostic, IsWord;
    var f, t := IsWord(p[k - 1]), p[k..];
    forall i: nat | i < |t| ensures Agnostic(pass, FlagAt(f, t, i), t[i..], b, c, q) {
      assert t[i..] == p[k + i..] && FlagAt(f, t, i) == FlagAt(inWord, p, k + i);
      assert Agnostic(pass, FlagAt(inWord, p, k + i), p[k + i..], b, c, q);
    }
  }

  /** How far one step of the scan goes when the match found is `n` long, and what it writes. */
  function Width(n: nat): (w: nat)
    ensures w > 0
  {
    if n > 0 then n else 1
  }

  function Written(pass: Pass, n: nat, p: string): (w: string)
    requires p != ""
    ensures w != ""
  {
    if n > 0 then Replacement(pass) else [p[0]]
  }

  lemma StepBefore(pass: Pass, inWord: bool, p: string, z: string, n: nat)
    requires p != "" && n == MatchLen(pass, inWord, p + z) <= |p|
    ensures ReplaceAll(pass, inWord, p + z)
         == Written(pass, n, p) + ReplaceAll(pass, IsWord(p[Width(n) - 1]), p[Width(n)..] + z)
  {
    hide MatchLen, Replacement, IsWord;
    ScanStep(pass, inWord, p + z);
    hide ReplaceAll;
    assert (p + z)[n..] == p[n..] + z && (p + z)[1..] == p[1..] + z;
    assert (p + z)[Width(n) - 1] == p[Width(n) - 1];
  }

  /** One step of the scan that runs over the block `b`, and ends with it or behind it. */
  lemma StepOver(pass: Pass, inWord: bool, p: string, b: string, q: string, k: nat)
    requires p != "" && b != "" && MatchLen(pass, inWord, p + (b + q)) == |p| + |b| + k
    ensures k <= |q|
    ensures ReplaceAll(pass, inWord, p + (b + q))
         == Replacement(pass) + ReplaceAll(pass, IsWord(if k == 0 then b[|b| - 1] else q[k - 1]), q[k..])
  {
    hide *;
    var s, n := p + (b + q), |p| + |b| + k;
    BehindBlock(p, b, q, k);
    ScanStep(pass, inWord, s);
  }

  lemma BehindBlock(p: string, b: string, q: string, k: nat)
    requires b != "" && k <= |q|
    ensures var s, n := p + (b + q), |p| + |b| + k;
      n <= |s| && s[n..] == q[k..] && s[n - 1] == if k == 0 then b[|b| - 1] else q[k - 1]
  {
  }

  /** What the scan writes before it stands at the text `z`; nothing when a match runs into it. */
  function Before(pass: Pass, inWord: bool, p: string, z: string): Option<string>
    decreases |p|
  {
    if p == "" then Some("")
    else
      var n := MatchLen(pass, inWord, p + z);
      if n > |p| then None
      else Prefixed(Written(pass, n, p), Before(pass, IsWord(p[Width(n) - 1]), p[Width(n)..], z))
  }

  function Prefixed(w: string, r: Option<string>): Option<string> {
    match r
    case Some(s) => Some(w + s)
    case None => None
  }

  /** Where no word follows, it does not matter whether one came before. */
  lemma FlagIrrelevant(pass: Pass, a: bool, b: bool, q: string)
    requires Ends(q)
    ensures ReplaceAll(pass, a, q) == ReplaceAll(pass, b, q)
  {
    if q == "" {
      EmptyScan(pass, a);
      EmptyScan(pass, b);
    } else {
      MatchWithoutWord(pass, a, b, q);
      hide MatchLen, ReplaceAll;
      ScanStep(pass, a, q);
      ScanStep(pass, b, q);
    }
  }

  lemma MatchWithoutWord(pass: Pass, a: bool, b: bool, q: string)
    requires q != "" && !IsWord(q[0])
    ensures MatchLen(pass, a, q) == MatchLen(pass, b, q)
  {
    if MatchLen(pass, a, q) > 0 { MatchEdges(pass, a, q); }
    if MatchLen(pass, b, q) > 0 { MatchEdges(pass, b, q); }
  }

  lemma WrittenEnd(pass: Pass, n: nat, p: string)
    requires p != "" && n <= |p| && !IsWord(p[Width(n) - 1])
    ensures !EndsInWord(false, Written(pass, n, p))
  {
  }

  /** The scan of p + (b + q) writes `w`, and then stands at the block. */
  predicate Reaches(pass: Pass, inWord: bool, p: string, b: string, q: string, w: string) {
    && ReplaceAll(pass, inWord, p + (b + q)) == w + ReplaceAll(pass, EndsInWord(inWord, p), b + q)
    && (!EndsInWord(inWord, p) ==> !EndsInWord(inWord, w))
  }

  lemma ReachesStep(pass: Pass, inWord: bool, p: string, b: string, q: string, n: nat, w: string)
    requires p != "" && n == MatchLen(pass, inWord, p + (b + q)) <= |p|
    ensures Reaches(pass, IsWord(p[Width(n) - 1]), p[Width(n)..], b, q, w) ==>
              Reaches(pass, inWord, p, b, q, Written(pass, n, p) + w)
  {
    hide MatchLen, Written, ReplaceAll, IsWord;
    StepBefore(pass, inWord, p, b + q, n);
    if !IsWord(p[Width(n) - 1]) { WrittenEnd(pass, n, p); }
    var k := Width(n);
    assert EndsInWord(IsWord(p[k - 1]), p[k..]) == EndsInWord(inWord, p);
    PrefixedText(Written(pass, n, p), w, ReplaceAll(pass, EndsInWord(inWord, p), b + q));
  }

  lemma PrefixedText(w: string, s: string, t: string)
    ensures (w + s) + t == w + (s + t)
  {
  }

  /** Either a match runs over the block, and then nothing is left of the difference, or the scan comes to
      stand at the block with the same text written. */
  lemma {:induction false} ScanFrom(pass: Pass, inWord: bool, p: string, b: string, c: string, q: string)
      returns (r: Option<string>)
    requires b != "" && c != "" && (IsWord(b[|b| - 1]) == IsWord(c[|c| - 1]) || Ends(q))
    requires AgnosticFrom(pass, inWord, p, b, c, q)
    ensures r.None? ==> ReplaceAll(pass, inWord, p + (b + q)) == ReplaceAll(pass, inWord, p + (c + q))
    ensures r.Some? ==> Reaches(pass, inWord, p, b, q, r.value) && Reaches(pass, inWord, p, c, q, r.value)
    ensures r == Before(pass, inWord, p, b + q)
    decreases |p|
  {
    hide MatchLen, IsWord, ReplaceAll, Written, Replacement, Ends, AgnosticFrom;
    if p == "" {
      assert p + (b + q) == b + q && p + (c + q) == c + q;
      PrefixedText("", "", ReplaceAll(pass, inWord, b + q));
      r := Some("");
    } else {
      FromHere(pass, inWord, p, b, c, q);
      var n := MatchLen(pass, inWord, p + (b + q));
      if n >= |p| + |b| {
        BothOver(pass, inWord, p, b, c, q, n - |p| - |b|);
        r := None;
      } else {
        FromTail(pass, inWord, p, b, c, q, Width(n));
        var rest := ScanFrom(pass, IsWord(p[Width(n) - 1]), p[Width(n)..], b, c, q);
        r := BlockScanStep(pass, inWord, p, b, c, q, n, rest);
      }
    }
  }

  lemma BlockScan(pass: Pass, inWord: bool, p: string, b: string, c: string, q: string) returns (r: Option<string>)
    requires b != "" && c != "" && (IsWord(b[|b| - 1]) == IsWord(c[|c| - 1]) || Ends(q))
    requires AgnosticAlong(pass, p, b, c, q)
    ensures r.None? ==> ReplaceAll(pass, inWord, p + (b + q)) == ReplaceAll(pass, inWord, p + (c + q))
    ensures r.Some? ==> Reaches(pass, inWord, p, b, q, r.value) && Reaches(pass, inWord, p, c, q, r.value)
    ensures r == Before(pass, inWord, p, b + q)
  {
    hide *;
    AlongIsFrom(pass, inWord, p, b, c, q);
    r := ScanFrom(pass, inWord, p, b, c, q);
  }

  lemma BothOver(pass: Pass, inWord: bool, p: string, b: string, c: string, q: string, k: nat)
    requires p != "" && b != "" && c != "" && (IsWord(b[|b| - 1]) == IsWord(c[|c| - 1]) || Ends(q))
    requires MatchLen(pass, inWord, p + (b + q)) == |p| + |b| + k
    requires MatchLen(pass, inWord, p + (c + q)) == |p| + |c| + k
    ensures ReplaceAll(pass, inWord, p + (b + q)) == ReplaceAll(pass, inWord, p + (c + q))
  {
    hide MatchLen, IsWord, ReplaceAll, Replacement, Ends;
    StepOver(pass, inWord, p, b, q, k);
    StepOver(pass, inWord, p, c, q, k);
    assert q[0..] == q;
    if k == 0 && Ends(q) { FlagIrrelevant(pass, IsWord(b[|b| - 1]), IsWord(c[|c| - 1]), q); }
  }

  lemma BlockScanStep(pass: Pass, inWord: bool, p: string, b: string, c: string, q: string, n: nat,
      rest: Option<string>)
      returns (r: Option<string>)
    requires p != "" && n == MatchLen(pass, inWord, p + (b + q)) == MatchLen(pass, inWord, p + (c + q)) && n <= |p|
    requires var f, t := IsWord(p[Width(n) - 1]), p[Width(n)..];
             match rest
             case None => ReplaceAll(pass, f, t + (b + q)) == ReplaceAll(pass, f, t + (c + q))
             case Some(w) => Reaches(pass, f, t, b, q, w) && Reaches(pass, f, t, c, q, w)
    ensures r.None? ==> ReplaceAll(pass, inWord, p + (b + q)) == ReplaceAll(pass, inWord, p + (c + q))
    ensures r.Some? ==> Reaches(pass, inWord, p, b, q, r.value) && Reaches(pass, inWord, p, c, q, r.value)
    ensures r == Prefixed(Written(pass, n, p), rest)
  {
    hide MatchLen, IsWord, ReplaceAll, Written, Reaches;
    match rest
    case None =>
      StepBefore(pass, inWord, p, b + q, n);
      StepBefore(pass, inWord, p, c + q, n);
      r := None;
    case Some(w) =>
      ReachesStep(pass, inWord, p, b, q, n, w);
      ReachesStep(pass, inWord, p, c, q, n, w);
      r := Some(Written(pass, n, p) + w);
  }

  // ---------- quoted literals across a block ----------

  /** Nothing in the text ends a literal or escapes a character. */
  predicate Unquoted(s: string) {
    forall i :: 0 <= i < |s| ==> s[i] != '\'' && s[i] != '"' && s[i] != '\\'
  }

  predicate LiteralsAgree(r: Option<nat>, s: Option<nat>, k: nat, b: nat, c: nat) {
    match r
    case None => s.None?
    case Some(n) => s.Some? && Agrees(n, s.value, k, b, c)
  }

  lemma {:induction false} LiteralLast(quote: char, s: string)
    requires Literal(quote, s).Some?
    ensures s[Literal(quote, s).value - 1] == quote
    decreases |s|
  {
    if s[0] == quote {
      if |s| > 1 && s[1] == quote && Literal(quote, s[2..]).Some? { LiteralLast(quote, s[2..]); }
    } else if s[0] == '\\' {
      LiteralLast(quote, s[2..]);
    } else {
      LiteralLast(quote, s[1..]);
    }
  }

  lemma {:induction false} LiteralThrough(quote: char, b: string, q: string)
    requires IsQuote(quote) && Unquoted(b)
    ensures Literal(quote, b + q) == Longer(|b|, Literal(quote, q))
  {
    if b == "" {
      assert b + q == q;
    } else {
      LiteralThrough(quote, b[1..], q);
      assert (b + q)[1..] == b[1..] + q;
      LongerTwice(1, |b| - 1, Literal(quote, q));
    }
  }

  lemma LongerTwice(i: nat, j: nat, r: Option<nat>)
    ensures Longer(i, Longer(j, r)) == Longer(i + j, r)
  {
  }

  /** One step in a literal that stays in front of the text `z`; a lone quote or backslash at the end of
      `p` looks one character further. */
  function LiteralStep(quote: char, p: string, r: Option<nat>): Option<nat>
    requires |p| > 1
  {
    if p[0] == quote then
      if p[1] == quote then
        match r
        case Some(n) => Some(n + 2)
        case None => Some(1)
      else Some(1)
    else if p[0] == '\\' then if p[1] != '\n' then Longer(2, r) else None
    else Longer(1, r)
  }

  function LiteralWidth(quote: char, p: string): (n: nat)
    requires |p| > 1
    ensures 0 < n <= 2
  {
    if p[0] == quote || p[0] == '\\' then 2 else 1
  }

  lemma LiteralSteps(quote: char, p: string, z: string)
    requires |p| > 1 && IsQuote(quote)
    ensures var w := LiteralWidth(quote, p);
      Literal(quote, p + z) == LiteralStep(quote, p, Literal(quote, p[w..] + z))
  {
    assert (p + z)[1..] == p[1..] + z && (p + z)[2..] == p[2..] + z;
  }

  lemma LiteralAtSeam(quote: char, p: string, b: string, q: string)
    requires |p| == 1 && b != "" && b[0] != '\n' && IsQuote(quote) && Unquoted(b)
    ensures Literal(quote, p + (b + q))
         == if p[0] == quote then Some(1) else Longer(1 + |b|, Literal(quote, q))
  {
    assert (p + (b + q))[1..] == b + q && (p + (b + q))[2..] == b[1..] + q && (p + (b + q))[1] == b[0];
    LiteralThrough(quote, b, q);
    LiteralThrough(quote, b[1..], q);
    LongerTwice(1, |b|, Literal(quote, q));
    LongerTwice(2, |b| - 1, Literal(quote, q));
  }

  lemma {:induction false} LiteralAgnostic(quote: char, p: string, b: string, c: string, q: string)
    requires IsQuote(quote) && Unquoted(b) && Unquoted(c)
    requires b != "" && c != "" && b[0] != '\n' && c[0] != '\n'
    ensures LiteralsAgree(Literal(quote, p + (b + q)), Literal(quote, p + (c + q)), |p|, |b|, |c|)
    decreases |p|
  {
    hide Literal, Unquoted;
    if p == "" {
      assert p + (b + q) == b + q && p + (c + q) == c + q;
      LiteralThrough(quote, b, q);
      LiteralThrough(quote, c, q);
    } else if |p| == 1 {
      LiteralAtSeam(quote, p, b, q);
      LiteralAtSeam(quote, p, c, q);
    } else {
      LiteralSteps(quote, p, b + q);
      LiteralSteps(quote, p, c + q);
      LiteralAgnostic(quote, p[LiteralWidth(quote, p)..], b, c, q);
    }
  }

  lemma QuotedAgnostic(quote: char, p: string, b: string, c: string, q: string)
    requires IsQuote(quote) && Unquoted(b) && Unquoted(c) && p != ""
    requires b != "" && c != "" && b[0] != '\n' && c[0] != '\n'
    ensures Agrees(QuotedLen(quote, p + (b + q)), QuotedLen(quote, p + (c + q)), |p|, |b|, |c|)
  {
    hide Literal, Unquoted;
    LiteralAgnostic(quote, p[1..], b, c, q);
    assert (p + (b + q))[1..] == p[1..] + (b + q) && (p + (c + q))[1..] == p[1..] + (c + q);
  }
}
