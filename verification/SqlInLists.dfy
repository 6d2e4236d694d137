/** Value lists behind IN: what the passes leave of the word, and that the list is collapsed whatever blanks
    it has. */
module SqlInLists {
  import opened Prelude
  import opened Ascii
  import opened Sql
  import opened SqlBlocks
  import opened SqlChars
  import opened SqlGrouping
  import opened SqlLists
  import opened SqlCollapse
  import opened SqlNumerals
  import opened SqlRows

  // ---------- where the IN pass goes on into a list ----------

  /** The text ends with IN and blanks. */
  predicate EndsWithIn(inWord: bool, p: string) {
    exists k :: 0 <= k < |p| && InHead(FlagAt(inWord, p, k), p[k..]) == |p| - k
  }

  lemma EndsStep(inWord: bool, p: string)
    requires p != ""
    ensures EndsWithIn(inWord, p) <==> InHead(inWord, p) == |p| || EndsWithIn(IsWord(p[0]), p[1..])
  {
    hide InHead, IsWord;
    var f, t := IsWord(p[0]), p[1..];
    assert p[0..] == p;
    assert forall k :: 0 <= k < |t| ==> t[k..] == p[k + 1..] && FlagAt(f, t, k) == FlagAt(inWord, p, k + 1);
    if EndsWithIn(f, t) {
      var k :| 0 <= k < |t| && InHead(FlagAt(f, t, k), t[k..]) == |t| - k;
      assert InHead(FlagAt(inWord, p, k + 1), p[k + 1..]) == |p| - (k + 1);
    }
    if EndsWithIn(inWord, p) && InHead(inWord, p) != |p| {
      var k :| 0 <= k < |p| && InHead(FlagAt(inWord, p, k), p[k..]) == |p| - k;
      assert k > 0 && t[k - 1..] == p[k..];
    }
  }

  /** IN and blanks have no bracket. */
  lemma InHeadPlain(inWord: bool, s: string, i: nat)
    requires i < InHead(inWord, s)
    ensures s[i] != ')'
  {
    if i >= 2 { assert s[2..][i - 2] == s[i]; }
  }

  lemma {:induction false} EndsBehind(inWord: bool, p: string, n: nat)
    requires 0 < n <= |p| && p[n - 1] == ')'
    ensures EndsWithIn(inWord, p) <==> EndsWithIn(IsWord(p[n - 1]), p[n..])
    decreases n
  {
    hide InHead, IsWord, EndsWithIn;
    EndsStep(inWord, p);
    if InHead(inWord, p) == |p| { InHeadPlain(inWord, p, n - 1); }
    if n == 1 {
    } else {
      EndsBehind(IsWord(p[0]), p[1..], n - 1);
      assert p[1..][n - 1..] == p[n..];
    }
  }

  /** How far the scan goes at the front, when it does not run into the list. */
  lemma InStep(inWord: bool, p: string, b: string, q: string)
    requires TupleHere(b) && p != ""
    ensures var n := MatchLen(InList, inWord, p + (b + q));
      if n > |p| then EndsWithIn(inWord, p)
      else EndsWithIn(inWord, p) <==> EndsWithIn(IsWord(p[Width(n) - 1]), p[Width(n)..])
  {
    var n := MatchLen(InList, inWord, p + (b + q));
    hide InListLen, InHead, TupleHere, IsWord, EndsWithIn;
    OpensTuple(b);
    InListBeforeTuple(inWord, p, b, q);
    EndsStep(inWord, p);
    if 0 < n <= |p| { EndsBehind(inWord, p, n); }
  }

  /** The scan runs over the list exactly when the text before it ends with IN. */
  lemma {:induction false} InRunsOver(inWord: bool, p: string, b: string, q: string)
    requires TupleHere(b)
    ensures Before(InList, inWord, p, b + q).None? <==> EndsWithIn(inWord, p)
    decreases |p|
  {
    hide TupleHere, IsWord, Written, EndsWithIn, MatchLen;
    if p == "" {
      NothingEndsWithIn(inWord);
    } else {
      InStep(inWord, p, b, q);
      var n := MatchLen(InList, inWord, p + (b + q));
      if n <= |p| { InRunsOver(IsWord(p[Width(n) - 1]), p[Width(n)..], b, q); }
    }
  }

  lemma NothingEndsWithIn(inWord: bool)
    ensures !EndsWithIn(inWord, "")
  {
  }

  /** Then nothing is left of the list's form. */
  lemma InTakesList(p: string, b: string, c: string, q: string)
    requires HoleRow(b) && HoleRow(c) && EndsWithIn(false, p)
    ensures Apply(InList, p + (b + q)) == Apply(InList, p + (c + q))
  {
    OpensTuple(b);
    OpensTuple(c);
    TuplesAgnosticAlong(InList, p, b, c, q);
    hide ReplaceAll, AgnosticAlong, EndsWithIn, TupleHere;
    InRunsOver(false, p, b, q);
    var r := BlockScan(InList, false, p, b, c, q);
  }

  // ---------- IN under the literal passes ----------

  /** IN in any case, and blanks. */
  predicate IsIn(h: string) {
    |h| >= 2 && Lower(h[0]) == 'i' && Lower(h[1]) == 'n' && AllBlank(h[2..])
  }

  /** Text that IN can follow: a word would join with it, a colon or a dollar sign would make it a name. */
  predicate MayPrecedeIn(p: string) {
    p == "" || (!IsWord(p[|p| - 1]) && p[|p| - 1] != ':' && p[|p| - 1] != '$')
  }

  /** The text ends with such an IN. */
  predicate BehindIn(p: string) {
    exists k :: 0 <= k <= |p| && MayPrecedeIn(p[..k]) && IsIn(p[k..])
  }

  lemma InIsHead(p: string, h: string)
    requires MayPrecedeIn(p) && IsIn(h)
    ensures EndsWithIn(false, p + h)
  {
    BlankRunOver(h[2..], "");
    assert h[2..] + "" == h[2..];
    assert BlankRun(h[2..]) == |h| - 2;
    hide BlankRun;
    assert (p + h)[|p|..] == h;
    assert InHead(FlagAt(false, p + h, |p|), (p + h)[|p|..]) == |h|;
  }

  predicate InChar(c: char) {
    Lower(c) == 'i' || Lower(c) == 'n' || IsBlank(c)
  }

  lemma InHasInChars(h: string)
    requires IsIn(h)
    ensures forall i :: 0 <= i < |h| ==> InChar(h[i])
  {
    assert forall i :: 2 <= i < |h| ==> h[i] == h[2..][i - 2];
  }

  lemma NoMatchAtInChar(pass: Pass, inWord: bool, s: string)
    requires Literally(pass) && s != "" && InChar(s[0])
    ensures MatchLen(pass, inWord, s) == 0
  {
    hide HexRun, ExponentLen, Literal, WordRun;
  }

  lemma {:induction false} InCopied(pass: Pass, inWord: bool, h: string, z: string)
    requires Literally(pass) && forall i :: 0 <= i < |h| ==> InChar(h[i])
    ensures Before(pass, inWord, h, z) == Some(h)
    decreases |h|
  {
    hide MatchLen, IsWord, InChar, Literally;
    if h == "" {
    } else {
      NoMatchAtInChar(pass, inWord, h + z);
      InCopied(pass, IsWord(h[0]), h[1..], z);
      assert Width(0) == 1 && h == [h[0]] + h[1..];
    }
  }

  /** A match that starts before IN does not end in it. */
  lemma NotIntoIn(pass: Pass, inWord: bool, p: string, h: string, z: string)
    requires Literally(pass) && p != "" && MayPrecedeIn(p) && IsIn(h)
    ensures var n := MatchLen(pass, inWord, p + h + z); n <= |p| || n > |p + h|
  {
    hide MatchLen, IsIn, InChar, IsWord;
    var s := p + h + z;
    var n := MatchLen(pass, inWord, s);
    InHasInChars(h);
    if |p| < n <= |p + h| {
      assert s[n - 1] == h[n - 1 - |p|] && s[|p| - 1] == p[|p| - 1];
      NoMatchIntoInChar(pass, inWord, s, |p| - 1);
    }
  }

  /** Only a name ends with such a letter, and before it come letters and the mark. */
  lemma NoMatchIntoInChar(pass: Pass, inWord: bool, s: string, i: nat)
    requires Literally(pass) && i + 1 < MatchLen(pass, inWord, s)
    requires i < |s| && !IsWord(s[i]) && s[i] != ':' && s[i] != '$'
    ensures !InChar(s[MatchLen(pass, inWord, s) - 1])
  {
    hide MatchLen, MayHold, IsWord, InChar;
    var c := s[MatchLen(pass, inWord, s) - 1];
    MatchLast(pass, inWord, s);
    if pass.SingleQuoted? || pass.DoubleQuoted? {
      QuoteLast(pass, inWord, s);
      QuotesAreNoInChars(c);
    } else {
      MatchHolds(pass, inWord, s);
      HoldsNoInChar(pass, s[i], c);
    }
  }

  lemma QuoteLast(pass: Pass, inWord: bool, s: string)
    requires (pass.SingleQuoted? || pass.DoubleQuoted?) && MatchLen(pass, inWord, s) > 0
    ensures IsQuote(s[MatchLen(pass, inWord, s) - 1])
  {
    hide Literal;
    LiteralLast(if pass.SingleQuoted? then '\'' else '"', s[1..]);
  }

  lemma QuotesAreNoInChars(c: char)
    requires IsQuote(c)
    ensures !InChar(c)
  {
  }

  lemma HoldsNoInChar(pass: Pass, a: char, c: char)
    requires Literally(pass) && !pass.SingleQuoted? && !pass.DoubleQuoted? && MayHold(pass, a) && MayHold(pass, c)
    requires (IsWord(c) || IsQuote(c)) && !IsWord(a) && a != ':' && a != '$'
    ensures !InChar(c)
  {
  }

  /** What the scan leaves before a list behind IN ends with IN as well. */
  lemma {:induction false} InLeft(pass: Pass, inWord: bool, p: string, h: string, z: string) returns (w: string)
    requires Literally(pass) && MayPrecedeIn(p) && IsIn(h) && Before(pass, inWord, p + h, z).Some?
    ensures Before(pass, inWord, p + h, z) == Some(w + h) && MayPrecedeIn(w) && (p != "" ==> w != "")
    decreases |p|
  {
    hide MatchLen, IsIn, Written, IsWord;
    if p == "" {
      assert p + h == h;
      InHasInChars(h);
      InCopied(pass, inWord, h, z);
      w := "";
      assert w + h == h;
    } else {
      var s := p + h;
      var n := MatchLen(pass, inWord, s + z);
      NotIntoIn(pass, inWord, p, h, z);
      var k := Width(n);
      assert s[k..] == p[k..] + h && s[k - 1] == p[k - 1];
      TailPrecedesIn(p, k);
      var rest := InLeft(pass, IsWord(p[k - 1]), p[k..], h, z);
      w := Written(pass, n, s) + rest;
      PrefixedText(Written(pass, n, s), rest, h);
      JoinedPrecedesIn(pass, n, p, h, rest);
    }
  }

  lemma TailPrecedesIn(p: string, k: nat)
    requires MayPrecedeIn(p) && k <= |p|
    ensures MayPrecedeIn(p[k..])
  {
  }

  lemma JoinedPrecedesIn(pass: Pass, n: nat, p: string, h: string, w: string)
    requires Literally(pass) && p != "" && n <= |p| && MayPrecedeIn(p) && MayPrecedeIn(w)
    requires |p| > Width(n) ==> w != ""
    ensures MayPrecedeIn(Written(pass, n, p + h) + w)
  {
    var u := Written(pass, n, p + h);
    if n > 0 { assert u == "?"; } else { assert u == [p[0]]; }
  }

  // ---------- two lists behind one IN ----------

  /** x and y are the same but for the blocks b and c behind one IN. */
  predicate AroundIn(x: string, y: string, p: string, h: string, b: string, c: string, q: string) {
    Around(x, y, p + h, b, c, q) && MayPrecedeIn(p) && IsIn(h)
  }

  ghost predicate SimilarIn(x: string, y: string, b: string, c: string) {
    x == y || exists p, h, q :: AroundIn(x, y, p, h, b, c, q)
  }

  lemma SameAreSimilarIn(x: string, b: string, c: string)
    ensures SimilarIn(x, x, b, c)
  {
  }

  lemma InPassLeft(pass: Pass, p: string, h: string, b: string, c: string, b': string, c': string, q: string)
    requires Literally(pass) && IsBlock(b) && IsBlock(c) && Turns(pass, b, b') && Turns(pass, c, c')
    requires MayPrecedeIn(p) && IsIn(h)
    ensures SimilarIn(Apply(pass, p + h + (b + q)), Apply(pass, p + h + (c + q)), b', c')
  {
    var x, y := Apply(pass, p + h + (b + q)), Apply(pass, p + h + (c + q));
    BlocksAgnosticAlong(pass, p + h, b, c, q);
    hide Literally, ReplaceAll, AgnosticAlong, SimilarIn, Unquoted, IsIn, MayPrecedeIn;
    var r := BlockScan(pass, false, p + h, b, c, q);
    match r
    case None => SameAreSimilarIn(x, b', c');
    case Some(u) =>
      var w := InLeft(pass, false, p, h, b + q);
      var f, z := EndsInWord(false, p + h), ReplaceAll(pass, false, q);
      assert ReplaceAll(pass, f, b + q) == b' + z;
      assert ReplaceAll(pass, f, c + q) == c' + z;
      assert AroundIn(x, y, w, h, b', c', z);
      SimilarInAround(x, y, w, h, b', c', z);
  }

  lemma SimilarInAround(x: string, y: string, p: string, h: string, b: string, c: string, q: string)
    requires AroundIn(x, y, p, h, b, c, q)
    ensures SimilarIn(x, y, b, c)
  {
  }

  lemma PassKeepsSimilarIn(pass: Pass, x: string, y: string, b: string, c: string, b': string, c': string)
    requires Literally(pass) && IsBlock(b) && IsBlock(c) && Turns(pass, b, b') && Turns(pass, c, c')
    requires SimilarIn(x, y, b, c)
    ensures SimilarIn(Apply(pass, x), Apply(pass, y), b', c')
  {
    if x == y {
      SameAreSimilarIn(Apply(pass, x), b', c');
    } else {
      var p, h, q :| AroundIn(x, y, p, h, b, c, q);
      hide Apply, Turns, IsIn, MayPrecedeIn, SimilarIn, IsBlock;
      InPassLeft(pass, p, h, b, c, b', c', q);
    }
  }

  lemma StrippedKeepsSimilarIn(x: string, y: string, b: string, c: string, b': string, c': string)
    requires IsBlock(b) && IsBlock(c) && Kept(b) && Kept(c) && Turns(Int, b, b') && Turns(Int, c, c')
    requires SimilarIn(x, y, b, c)
    ensures SimilarIn(Stripped(x), Stripped(y), b', c')
  {
    StrippedIs(x);
    StrippedIs(y);
    hide Apply, SimilarIn, IsBlock, Turns;
    var x1, y1 := Apply(SingleQuoted, x), Apply(SingleQuoted, y);
    PassKeepsSimilarIn(SingleQuoted, x, y, b, c, b, c);
    var x2, y2 := Apply(DoubleQuoted, x1), Apply(DoubleQuoted, y1);
    PassKeepsSimilarIn(DoubleQuoted, x1, y1, b, c, b, c);
    var x3, y3 := Apply(Named, x2), Apply(Named, y2);
    PassKeepsSimilarIn(Named, x2, y2, b, c, b, c);
    var x4, y4 := Apply(Numbered, x3), Apply(Numbered, y3);
    PassKeepsSimilarIn(Numbered, x3, y3, b, c, b, c);
    var x5, y5 := Apply(Hex, x4), Apply(Hex, y4);
    PassKeepsSimilarIn(Hex, x4, y4, b, c, b, c);
    var x6, y6 := Apply(Decimal, x5), Apply(Decimal, y5);
    PassKeepsSimilarIn(Decimal, x5, y5, b, c, b, c);
    PassKeepsSimilarIn(Int, x6, y6, b, c, b', c');
  }

  lemma CollapsedBehindIn(x: string, y: string, b: string, c: string)
    requires HoleRow(b) && HoleRow(c) && SimilarIn(x, y, b, c)
    ensures Collapsed(x) == Collapsed(y)
  {
    CollapsedIs(x);
    CollapsedIs(y);
    if x != y {
      var p, h, q :| AroundIn(x, y, p, h, b, c, q);
      InIsHead(p, h);
      hide Apply, EndsWithIn, HoleRow;
      InTakesList(p + h, b, c, q);
    }
  }

  lemma SimilarBehindIn(p: string, b: string, c: string, q: string)
    requires BehindIn(p)
    ensures SimilarIn(p + b + q, p + c + q, b, c)
  {
    var k :| 0 <= k <= |p| && MayPrecedeIn(p[..k]) && IsIn(p[k..]);
    assert p == p[..k] + p[k..] && p + b + q == p + (b + q) && p + c + q == p + (c + q);
    SimilarInAround(p + b + q, p + c + q, p[..k], p[k..], b, c, q);
  }

  /** A list behind IN: whatever values it has and whatever blanks, the template is the same. */
  lemma InListsShareTemplate(p: string, cells: seq<Cell>, others: seq<Cell>, q: string)
    requires IsTuple(cells) && IsTuple(others) && BehindIn(p)
    ensures Normalize(p + TupleText(cells) + q) == Normalize(p + TupleText(others) + q)
  {
    var b, c := TupleText(cells), TupleText(others);
    var b', c' := TupleText(Holes(cells)), TupleText(Holes(others));
    TuplesAreBlocks(cells);
    TuplesAreBlocks(others);
    hide *;
    var x, y := p + b + q, p + c + q;
    SimilarBehindIn(p, b, c, q);
    StrippedKeepsSimilarIn(x, y, b, c, b', c');
    CollapsedBehindIn(Stripped(x), Stripped(y), b', c');
    SameCollapsed(x, y);
  }

  lemma SameCollapsed(x: string, y: string)
    requires Collapsed(Stripped(x)) == Collapsed(Stripped(y))
    ensures Normalize(x) == Normalize(y)
  {
    hide Stripped, Collapsed, Apply, ToLower, TrimSpace;
  }
}
