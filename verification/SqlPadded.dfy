/** Blanks around a lone value: exactly when the normalizer takes them away. */
module SqlPadded {
  import opened Prelude
  import opened Ascii
  import opened Sql
  import opened SqlTemplate
  import opened SqlBlocks
  import opened SqlGrouping
  import opened SqlLists
  import opened SqlCollapse
  import opened SqlRows
  import opened SqlInLists
  import opened SqlNoLists
  import opened SqlLiterals
  import opened SqlValueLists

  // ---------- a row in front ----------

  /** A row stands at the front, and then nothing but a comma with its blanks. */
  predicate RowAndComma(p: string) {
    var n := TupleLen(p);
    n > 0 && SeparatorLen(p[n..]) == |p| - n > 0
  }

  /** The text ends with a row and a comma. */
  predicate EndsWithRow(p: string)
    decreases |p|
  {
    p != "" && (RowAndComma(p) || EndsWithRow(p[1..]))
  }

  predicate StartsWithRow(q: string) {
    MoreTuples(q) > 0
  }

  /** The first `n` characters have no bracket that opens. */
  predicate Closed(s: string, n: nat)
    requires n <= |s|
  {
    forall i :: 0 <= i < n ==> s[i] != '('
  }

  lemma ClosedOn(s: string, k: nat, n: nat)
    requires k + n <= |s| && Closed(s, k) && Closed(s[k..], n)
    ensures Closed(s, k + n)
  {
    assert forall i :: k <= i < k + n ==> s[i] == s[k..][i - k];
  }

  lemma SeparatorIsClosed(s: string)
    ensures Closed(s, SeparatorLen(s)) && Closed(s, CloseLen(s))
  {
    hide BlankRun;
    var b := BlankRun(s);
    if b < |s| && s[b] == ',' {
      var t := s[b + 1..];
      assert Closed(s, b + 1) && Closed(t, BlankRun(t));
      ClosedOn(s, b + 1, BlankRun(t));
    }
  }

  lemma {:induction false} TailIsClosed(s: string)
    ensures Closed(s, TupleTail(s))
    decreases |s|
  {
    hide SeparatorLen, CloseLen, TupleTail;
    SeparatorIsClosed(s);
    var c := SeparatorLen(s);
    if c == 0 {
      TailCloses(s);
    } else {
      TailGoes(s, c);
      if HoleAt(s, c) {
        TailIsClosed(s[c + 1..]);
        ClosedOn(s, c + 1, TupleTail(s[c + 1..]));
      }
    }
  }

  lemma TupleIsClosed(s: string)
    requires TupleLen(s) > 0
    ensures s[0] == '(' && Closed(s[1..], TupleLen(s) - 1)
  {
    hide BlankRun, TupleTail;
    var h := TupleHead(s);
    TailIsClosed(s[h..]);
    assert Closed(s[1..], h - 1);
    assert s[1..][h - 1..] == s[h..];
    ClosedOn(s[1..], h - 1, TupleTail(s[h..]));
  }

  lemma NeedsBracket(s: string)
    requires s != "" && s[0] != '('
    ensures !RowAndComma(s)
  {
    hide TupleTail, SeparatorLen;
  }

  lemma {:induction false} RowBehind(s: string, n: nat)
    requires n <= |s| && Closed(s, n)
    ensures EndsWithRow(s) <==> EndsWithRow(s[n..])
    decreases n
  {
    hide RowAndComma;
    if n == 0 {
      assert s[0..] == s;
    } else {
      NeedsBracket(s);
      RowBehind(s[1..], n - 1);
      assert s[1..][n - 1..] == s[n..];
    }
  }

  lemma RowBehindTuple(s: string)
    requires TupleLen(s) > 0
    ensures EndsWithRow(s) <==> RowAndComma(s) || EndsWithRow(s[TupleLen(s)..])
  {
    hide TupleLen, RowAndComma, EndsWithRow;
    TupleIsClosed(s);
    RowBehind(s[1..], TupleLen(s) - 1);
    assert s[1..][TupleLen(s) - 1..] == s[TupleLen(s)..];
    assert EndsWithRow(s) <==> RowAndComma(s) || EndsWithRow(s[1..]) by { RowUnfolds(s); }
  }

  lemma RowUnfolds(s: string)
    requires s != ""
    ensures EndsWithRow(s) <==> RowAndComma(s) || EndsWithRow(s[1..])
  {
    hide RowAndComma;
  }

  // ---------- the pass that merges rows ----------

  /** Commas and rows up to the end, the last a comma. */
  predicate Chain(s: string)
    decreases |s|
  {
    var c := SeparatorLen(s);
    c > 0 && (c == |s| || (TupleLen(s[c..]) > 0 && Chain(s[c + TupleLen(s[c..])..])))
  }

  lemma ChainUnfolds(s: string, c: nat, n: nat)
    requires c == SeparatorLen(s) && n == TupleLen(s[c..])
    ensures c + n <= |s| && (Chain(s) <==> c > 0 && (c == |s| || (n > 0 && Chain(s[c + n..]))))
  {
    hide SeparatorLen, TupleLen;
  }

  /** Such rows go on into a tuple behind them, others end before it. */
  lemma {:induction false} ChainRunsOver(s: string, b: string, q: string)
    requires TupleHere(b)
    ensures var k := MoreTuples(s + (b + q)); if Chain(s) then k > |s| else k == MoreTuples(s)
    decreases |s|
  {
    OpensTuple(b);
    hide TupleLen, SeparatorLen, MoreTuples, TupleHere, RowsHere, Chain;
    var c := SeparatorLen(s);
    var n := TupleLen(s[c..]);
    ChainUnfolds(s, c, n);
    if s == "" {
      MoreTuplesNone(s, b + q);
      NoRowsInNothing();
    } else if c == |s| {
      TupleIsRows(b);
      MoreTuplesThere(s, b, q);
    } else {
      MoreTuplesStep(s, b + q, c, n);
      MoreTuplesUnfolds(s, c, n);
      if c > 0 && n > 0 { ChainRunsOver(s[c + n..], b, q); }
    }
  }

  lemma NoRowsInNothing()
    ensures MoreTuples("") == 0 && !Chain("")
  {
  }

  lemma {:induction false} ChainEndsWithRow(u: string)
    requires TupleLen(u) > 0 && Chain(u[TupleLen(u)..])
    ensures EndsWithRow(u)
    decreases |u|
  {
    hide TupleLen, SeparatorLen, EndsWithRow;
    RowBehindTuple(u);
    var s := u[TupleLen(u)..];
    var c := SeparatorLen(s);
    if c < |s| {
      ChainEndsWithRow(s[c..]);
      assert s[c..][TupleLen(s[c..])..] == s[c + TupleLen(s[c..])..];
      SeparatorIsClosed(s);
      RowBehind(s, c);
    }
  }

  /** Behind rows that are no such chain, the end of the text is as it was. */
  lemma {:induction false} RowBehindRows(u: string)
    requires TupleLen(u) > 0 && !Chain(u[TupleLen(u)..])
    ensures var s := u[TupleLen(u)..]; EndsWithRow(u) <==> EndsWithRow(s[MoreTuples(s)..])
    decreases |u|
  {
    hide TupleLen, SeparatorLen, EndsWithRow, MoreTuples, RowAndComma, Closed;
    NoChainNoComma(u);
    RowBehindTuple(u);
    var s := u[TupleLen(u)..];
    var c := SeparatorLen(s);
    var n := TupleLen(s[c..]);
    MoreTuplesUnfolds(s, c, n);
    if c == 0 || n == 0 {
    } else {
      SeparatorIsClosed(s);
      RowBehind(s, c);
      var t := s[c..];
      assert t[n..] == s[c + n..];
      RowBehindRows(t);
      assert t[n..][MoreTuples(t[n..])..] == s[MoreTuples(s)..];
    }
  }

  lemma RowsMatchLength(inWord: bool, p: string, b: string, q: string)
    requires TupleHere(b) && p != ""
    ensures var n, s := TupleLen(p), p + (b + q);
      MatchLen(TuplesMany, inWord, s)
      == if n == 0 || MoreTuples(p[n..] + (b + q)) == 0 then 0 else n + MoreTuples(p[n..] + (b + q))
  {
    OpensTuple(b);
    hide TupleLen, MoreTuples;
    TupleBeforeBracket(p, b + q);
    var n := TupleLen(p);
    assert (p + (b + q))[n..] == p[n..] + (b + q);
  }

  /** How far the scan goes at the front, when it does not run over the tuple behind. */
  lemma RowsStep(inWord: bool, p: string, b: string, q: string)
    requires TupleHere(b) && p != ""
    ensures var m := MatchLen(TuplesMany, inWord, p + (b + q));
      if m > |p| then EndsWithRow(p) else EndsWithRow(p) <==> EndsWithRow(p[Width(m)..])
  {
    hide TupleLen, SeparatorLen, MoreTuples, TupleHere, EndsWithRow, Chain, MatchLen, RowAndComma;
    var n := TupleLen(p);
    RowsMatchLength(inWord, p, b, q);
    ChainRunsOver(p[n..], b, q);
    RowUnfolds(p);
    if n == 0 {
      NoTupleNoRow(p);
    } else if Chain(p[n..]) {
      ChainEndsWithRow(p);
    } else {
      RowBehindRows(p);
      NoChainNoComma(p);
      var k := MoreTuples(p[n..]);
      assert p[n..][k..] == p[n + k..];
    }
  }

  /** The scan runs over a tuple exactly when the text before it ends with a row. */
  lemma {:induction false} RowsRunOver(inWord: bool, p: string, b: string, q: string)
    requires TupleHere(b)
    ensures Before(TuplesMany, inWord, p, b + q).None? <==> EndsWithRow(p)
    decreases |p|
  {
    if p == "" {
      assert !EndsWithRow("");
    } else {
      hide TupleHere, IsWord, Written, EndsWithRow, MatchLen;
      RowsStep(inWord, p, b, q);
      var m := MatchLen(TuplesMany, inWord, p + (b + q));
      if m <= |p| { RowsRunOver(IsWord(p[Width(m) - 1]), p[Width(m)..], b, q); }
    }
  }

  lemma NoChainNoComma(p: string)
    requires TupleLen(p) > 0 && !Chain(p[TupleLen(p)..])
    ensures !RowAndComma(p)
  {
    hide TupleLen, SeparatorLen;
  }

  lemma NoTupleNoRow(p: string)
    requires TupleLen(p) == 0
    ensures !RowAndComma(p)
  {
    hide TupleLen, SeparatorLen;
  }

  // ---------- rows under the IN pass ----------

  /** A comma up to the end stays one. */
  lemma CommaUnderIn(inWord: bool, s: string)
    ensures var out := ReplaceAll(InList, inWord, s);
      SeparatorLen(out) == |out| > 0 <==> SeparatorLen(s) == |s| > 0
  {
    hide SeparatorLen, ReplaceAll;
    SeparatorUnder(InList, inWord, s);
    var out := ReplaceAll(InList, inWord, s);
    var k, m := SeparatorLen(s), SeparatorLen(out);
    if k > 0 {
      if s[k..] == "" { EmptyScan(InList, false); } else { HeadKept(InList, false, s[k..]); }
      assert out[m..] == "" <==> s[k..] == "";
    }
  }

  /** A row and a comma stay in front of what is copied. */
  lemma RowCopied(inWord: bool, s: string)
    requires MatchLen(InList, inWord, s) == 0
    ensures RowAndComma(ReplaceAll(InList, inWord, s)) <==> RowAndComma(s)
  {
    hide TupleLen, SeparatorLen, ReplaceAll, MatchLen;
    TupleCopied(InList, inWord, s);
    CommaUnderIn(false, s[TupleLen(s)..]);
  }

  lemma LoneRow(z: string)
    ensures EndsWithRow("IN (?)" + z) <==> SeparatorLen(z) == |z| > 0 || EndsWithRow(z)
  {
    LoneLength(z);
    hide TupleLen, SeparatorLen, EndsWithRow;
    var s, t := "IN (?)" + z, LONE + z;
    assert s[3..] == t && t[3..] == z;
    RowBehind(s, 3);
    RowBehindTuple(t);
  }

  lemma InListIsRow(inWord: bool, s: string)
    requires InListLen(inWord, s) > 0
    ensures var z := s[InListLen(inWord, s)..];
      EndsWithRow(s) <==> SeparatorLen(z) == |z| > 0 || EndsWithRow(z)
  {
    hide InHead, TupleLen, SeparatorLen, EndsWithRow;
    var h := InHead(inWord, s);
    InHeadIsClosed(inWord, s);
    RowBehind(s, h);
    var t := s[h..];
    RowBehindTuple(t);
    assert t[TupleLen(t)..] == s[InListLen(inWord, s)..];
  }

  lemma InHeadIsClosed(inWord: bool, s: string)
    ensures Closed(s, InHead(inWord, s))
  {
    if |s| > 2 {
      hide BlankRun;
      assert Closed(s[2..], BlankRun(s[2..]));
      assert forall i :: 2 <= i < |s| ==> s[i] == s[2..][i - 2];
    }
  }

  /** The IN pass changes nothing about the end. */
  lemma {:induction false} RowUnderIn(inWord: bool, s: string)
    ensures EndsWithRow(ReplaceAll(InList, inWord, s)) <==> EndsWithRow(s)
    decreases |s|
  {
    hide InListLen, SeparatorLen, ReplaceAll, EndsWithRow, RowAndComma, IsWord;
    if s == "" {
      EmptyScan(InList, inWord);
    } else {
      ScanStep(InList, inWord, s);
      var n := InListLen(inWord, s);
      if n > 0 {
        var f, z := IsWord(s[n - 1]), s[n..];
        RowUnderIn(f, z);
        CommaUnderIn(f, z);
        LoneRow(ReplaceAll(InList, f, z));
        InListIsRow(inWord, s);
      } else {
        var f, z := IsWord(s[0]), s[1..];
        RowUnderIn(f, z);
        RowCopied(inWord, s);
        RowUnfolds(s);
        RowUnfolds(ReplaceAll(InList, inWord, s));
      }
    }
  }

  // ---------- what a pass leaves in front of a bracket ----------

  /** A match at the front of `p` either runs into what follows, or is there without it. */
  predicate AloneOrOver(pass: Pass, inWord: bool, p: string, z: string) {
    MatchLen(pass, inWord, p + z) <= |p| ==> MatchLen(pass, inWord, p + z) == MatchLen(pass, inWord, p)
  }

  ghost predicate AloneOrOverAlong(pass: Pass, p: string, z: string) {
    forall i: nat, f: bool :: i < |p| ==> AloneOrOver(pass, f, p[i..], z)
  }

  lemma AloneTail(pass: Pass, p: string, z: string, k: nat)
    requires AloneOrOverAlong(pass, p, z) && k <= |p|
    ensures AloneOrOverAlong(pass, p[k..], z)
  {
    hide AloneOrOver;
    forall i: nat, f: bool | i < |p[k..]| ensures AloneOrOver(pass, f, p[k..][i..], z) {
      assert p[k..][i..] == p[k + i..];
    }
  }

  lemma AloneHere(pass: Pass, inWord: bool, p: string, z: string)
    requires AloneOrOverAlong(pass, p, z) && p != ""
    ensures AloneOrOver(pass, inWord, p, z)
  {
    hide AloneOrOver;
    assert p[0..] == p && AloneOrOver(pass, inWord, p[0..], z);
  }

  /** One step of the scan. */
  lemma WriteStep(pass: Pass, inWord: bool, p: string)
    requires p != ""
    ensures var n := MatchLen(pass, inWord, p);
      ReplaceAll(pass, inWord, p)
      == Written(pass, n, p) + ReplaceAll(pass, IsWord(p[Width(n) - 1]), p[Width(n)..])
  {
    hide MatchLen, ReplaceAll, IsWord;
    ScanStep(pass, inWord, p);
  }

  /** Where no match runs over the bracket, the text before it is treated as if it stood alone. */
  lemma {:induction false} FrontAlone(pass: Pass, inWord: bool, p: string, z: string)
    requires Opens(z) && Before(pass, inWord, p, z).Some? && AloneOrOverAlong(pass, p, z)
    ensures Before(pass, inWord, p, z) == Some(ReplaceAll(pass, inWord, p))
    decreases |p|
  {
    hide MatchLen, ReplaceAll, IsWord, Written, AloneOrOverAlong;
    if p == "" {
      EmptyScan(pass, inWord);
    } else {
      AloneHere(pass, inWord, p, z);
      var n := MatchLen(pass, inWord, p + z);
      var k := Width(n);
      AloneTail(pass, p, z, k);
      FrontAlone(pass, IsWord(p[k - 1]), p[k..], z);
      WriteStep(pass, inWord, p);
    }
  }


  lemma InFrontAlone(p: string, b: string, q: string)
    requires TupleHere(b) && !EndsWithIn(false, p)
    ensures Before(InList, false, p, b + q) == Some(Apply(InList, p))
  {
    OpensTuple(b);
    InRunsOver(false, p, b, q);
    forall i: nat, f: bool | i < |p| ensures AloneOrOver(InList, f, p[i..], b + q) {
      hide InListLen, InHead, TupleHere;
      InListBeforeTuple(f, p[i..], b, q);
    }
    hide MatchLen, ReplaceAll, TupleHere, AloneOrOver;
    FrontAlone(InList, false, p, b + q);
  }

  // ---------- the list passes on a lone value ----------

  /** A tuple of one placeholder. */
  ghost predicate LoneRowText(b: string) {
    HoleRow(b) && forall q: string :: TupleMultiLen(b + q) == 0
  }

  lemma InBoth(x: string, b: string, c: string, y: string)
    requires HoleRow(b) && HoleRow(c)
    ensures if EndsWithIn(false, x) then Apply(InList, x + (b + y)) == Apply(InList, x + (c + y))
            else Apply(InList, x + (b + y)) == Apply(InList, x) + (b + Apply(InList, y))
    ensures !EndsWithIn(false, x) ==> Apply(InList, x + (c + y)) == Apply(InList, x) + (c + Apply(InList, y))
  {
    hide ReplaceAll, AgnosticAlong, EndsWithIn, TupleHere, AllInner;
    if EndsWithIn(false, x) {
      InTakesList(x, b, c, y);
    } else {
      OpensTuple(b);
      OpensTuple(c);
      TuplesAgnosticAlong(InList, x, b, c, y);
      InFrontAlone(x, b, y);
      var r := BlockScan(InList, false, x, b, c, y);
      InListAtTuple(EndsInWord(false, x), b, y);
      InListAtTuple(EndsInWord(false, x), c, y);
    }
  }

  lemma RowsBoth(x: string, b: string, c: string, y: string) returns (t: string)
    requires HoleRow(b) && HoleRow(c)
    ensures var z := Apply(TuplesMany, y);
      if EndsWithRow(x) || StartsWithRow(y) then Apply(TuplesMany, x + (b + y)) == Apply(TuplesMany, x + (c + y))
      else Apply(TuplesMany, x + (b + y)) == t + (b + z) && Apply(TuplesMany, x + (c + y)) == t + (c + z)
  {
    OpensTuple(b);
    OpensTuple(c);
    TuplesAgnosticAlong(TuplesMany, x, b, c, y);
    hide ReplaceAll, AgnosticAlong, EndsWithRow, TupleHere, AllInner, MoreTuples, MatchLen;
    RowsRunOver(false, x, b, y);
    var r := BlockScan(TuplesMany, false, x, b, c, y);
    t := if r.Some? then r.value else "";
    if r.Some? {
      RowsAtBlock(EndsInWord(false, x), b, y);
      RowsAtBlock(EndsInWord(false, x), c, y);
    }
  }

  lemma RowsAtBlock(inWord: bool, b: string, y: string)
    requires HoleRow(b)
    ensures ReplaceAll(TuplesMany, inWord, b + y)
         == if StartsWithRow(y) then "(?)" + ReplaceAll(TuplesMany, IsWord(y[MoreTuples(y) - 1]), y[MoreTuples(y)..])
            else b + ReplaceAll(TuplesMany, false, y)
  {
    OpensTuple(b);
    hide ReplaceAll, TupleHere, AllInner, MoreTuples, MatchLen;
    TuplesManyAtTuple(inWord, b, y);
    var k := MoreTuples(y);
    if k > 0 { SwallowBlock(TuplesMany, inWord, b, y, k); } else { CopyTuple(TuplesMany, inWord, b, y); }
  }

  lemma MultiBoth(x: string, b: string, c: string, y: string) returns (t: string)
    requires LoneRowText(b) && LoneRowText(c)
    ensures var z := Apply(TupleMulti, y);
      Apply(TupleMulti, x + (b + y)) == t + (b + z) && Apply(TupleMulti, x + (c + y)) == t + (c + z)
  {
    OpensTuple(b);
    OpensTuple(c);
    TuplesAgnosticAlong(TupleMulti, x, b, c, y);
    MultiStops(false, x, b + y);
    hide ReplaceAll, AgnosticAlong, TupleHere, TupleMultiLen;
    var r := BlockScan(TupleMulti, false, x, b, c, y);
    t := r.value;
    CopyTuple(TupleMulti, EndsInWord(false, x), b, y);
    CopyTuple(TupleMulti, EndsInWord(false, x), c, y);
  }

  lemma {:induction false} MultiStops(inWord: bool, p: string, z: string)
    requires Opens(z)
    ensures Before(TupleMulti, inWord, p, z).Some?
    decreases |p|
  {
    hide TupleMultiLen, IsWord, Written;
    if p == "" {
    } else {
      TupleMultiBeforeBracket(p, z);
      var n := TupleMultiLen(p);
      MultiStops(IsWord(p[Width(n) - 1]), p[Width(n)..], z);
    }
  }

  /** Where the passes take its blanks away. */
  predicate Loses(x: string, y: string) {
    EndsWithIn(false, x) || EndsWithRow(x) || StartsWithRow(y)
  }

  lemma CollapsedBoth(x: string, b: string, c: string, y: string) returns (u: string, z: string)
    requires LoneRowText(b) && LoneRowText(c)
    ensures if Loses(x, y) then Collapsed(x + (b + y)) == Collapsed(x + (c + y))
            else Collapsed(x + (b + y)) == u + (b + z) && Collapsed(x + (c + y)) == u + (c + z)
  {
    CollapsedIs(x + (b + y));
    CollapsedIs(x + (c + y));
    InBoth(x, b, c, y);
    RowUnderIn(false, x);
    MoreUnder(InList, false, y);
    hide ReplaceAll, EndsWithIn, EndsWithRow, MoreTuples, Collapsed, HoleRow, TupleMultiLen;
    var x1, y1 := Apply(InList, x), Apply(InList, y);
    var t := RowsBoth(x1, b, c, y1);
    u := MultiBoth(t, b, c, Apply(TuplesMany, y1));
    z := Apply(TupleMulti, Apply(TuplesMany, y1));
  }

  // ---------- the last steps ----------

  lemma BlanksBeforeMark(inWord: bool, w: string, c: char, z: string)
    requires AllBlank(w) && !IsBlank(c)
    ensures ReplaceAll(Blanks, inWord, w + ([c] + z))
         == (if w == "" then "" else " ") + ([c] + ReplaceAll(Blanks, IsWord(c), z))
  {
    BlankRunThen(w, [c] + z);
    hide BlankRun, ReplaceAll;
    var s := w + ([c] + z);
    assert ([c] + z)[1..] == z;
    if w == "" {
      assert s == [c] + z;
      ScanStep(Blanks, inWord, s);
    } else {
      ScanStep(Blanks, inWord, s);
      MarkNext(IsWord(s[|w| - 1]), c, z);
    }
  }

  lemma MarkNext(inWord: bool, c: char, z: string)
    requires !IsBlank(c)
    ensures ReplaceAll(Blanks, inWord, [c] + z) == [c] + ReplaceAll(Blanks, IsWord(c), z)
  {
    assert ([c] + z)[1..] == z;
    assert BlankRun([c] + z) == 0;
    hide ReplaceAll, BlankRun;
    ScanStep(Blanks, inWord, [c] + z);
  }

  lemma BlanksMatchFront(inWord: bool, u: string, z: string)
    requires Opens(z)
    ensures MatchLen(Blanks, inWord, u + z) == MatchLen(Blanks, inWord, u)
  {
    BlanksBeforeBracket(u, z);
  }

  /** Blanks before a bracket are squashed as if nothing came. */
  lemma {:induction false} SquashFront(inWord: bool, u: string, z: string)
    requires Opens(z)
    ensures ReplaceAll(Blanks, inWord, u + z) == ReplaceAll(Blanks, inWord, u) + ReplaceAll(Blanks, false, z)
    decreases |u|
  {
    hide MatchLen, ReplaceAll, IsWord, Written;
    if u == "" {
      assert u + z == z;
      EmptyScan(Blanks, inWord);
      BracketEnds(z);
      FlagIrrelevant(Blanks, inWord, false, z);
    } else {
      var n := MatchLen(Blanks, inWord, u);
      var k := Width(n);
      BlanksMatchFront(inWord, u, z);
      StepBefore(Blanks, inWord, u, z, n);
      WriteStep(Blanks, inWord, u);
      SquashFront(IsWord(u[k - 1]), u[k..], z);
      PrefixedText(Written(Blanks, n, u), ReplaceAll(Blanks, IsWord(u[k - 1]), u[k..]), ReplaceAll(Blanks, false, z));
    }
  }

  lemma BracketEnds(z: string)
    requires Opens(z)
    ensures Ends(z)
  {
  }

  function Gap(w: string): string {
    if w == "" then "" else " "
  }

  /** The value with at most one space on either side. */
  function Core(c: Cell): string {
    "(" + (Gap(c.before) + ("?" + (Gap(c.after) + ")")))
  }

  lemma CoreSquashed(c: Cell, z: string)
    requires IsCell(c) && c.value == "?"
    ensures ReplaceAll(Blanks, false, TupleText([c]) + z) == Core(c) + ReplaceAll(Blanks, false, z)
  {
    hide ReplaceAll, AllBlank;
    var w, v := c.before, c.after;
    assert TupleText([c]) == "(" + (w + ("?" + (v + ")"))) by { assert TailText([c]) == v + ")"; }
    assert TupleText([c]) + z == ['('] + (w + (['?'] + (v + ([')'] + z))));
    MarkNext(false, '(', w + (['?'] + (v + ([')'] + z))));
    BlanksBeforeMark(false, w, '?', v + ([')'] + z));
    BlanksBeforeMark(false, v, ')', z);
    var r := ReplaceAll(Blanks, false, z);
    assert ['('] + (Gap(w) + (['?'] + (Gap(v) + ([')'] + r)))) == Core(c) + r;
  }

  lemma TrimKeepsCore(u: string, b: string, z: string)
    requires b != "" && !IsSpace(b[0]) && !IsSpace(b[|b| - 1])
    ensures TrimSpace(u + (b + z)) == TrimLeft(u) + (b + TrimRight(z))
  {
    hide TrimLeft, TrimRight, IsSpace;
    TrimLeftUpTo(u, b + z);
    var t := TrimLeft(u);
    assert t + (b + z) == (t + b) + z && (t + b)[|t + b| - 1] == b[|b| - 1];
    TrimRightDownTo(t + b, z);
    assert (t + b) + TrimRight(z) == t + (b + TrimRight(z));
  }

  /** The template from the text that the list passes leave. */
  function Finished(s: string): string {
    ToLower(TrimSpace(Apply(Blanks, s)))
  }

  lemma FinishedLength(u: string, c: Cell, z: string)
    requires IsCell(c) && c.value == "?"
    ensures |Finished(u + (TupleText([c]) + z))|
         == |TrimLeft(Apply(Blanks, u))| + |Core(c)| + |TrimRight(Apply(Blanks, z))|
  {
    CoreSquashed(c, z);
    hide ReplaceAll, TrimSpace, TrimLeft, TrimRight, ToLower, IsCell;
    SquashFront(false, u, TupleText([c]) + z);
    TrimKeepsCore(Apply(Blanks, u), Core(c), Apply(Blanks, z));
  }

  lemma LoneCells(c: Cell)
    requires IsCell(c) && c.value == "?"
    ensures LoneRowText(TupleText([c]))
  {
    assert IsTuple([c]) && AllHoles([c]);
    hide TupleText, TupleHere, AllInner;
    HoleRowText([c]);
    forall q: string ensures TupleMultiLen(TupleText([c]) + q) == 0 {
      hide TupleLen, TupleHead, SeparatorLen;
      HeadHere([c], q);
      TailHere([c], q);
    }
  }

  /** A lone placeholder in the text that the literal passes leave, whatever that is: its blanks are taken
      away if and only if it is an IN list or stands next to another row. */
  lemma LosesBlanksIff(x: string, c: Cell, y: string)
    requires IsCell(c) && c.value == "?"
    ensures Finished(Collapsed(x + (TupleText([c]) + y))) == Finished(Collapsed(x + (LONE + y)))
       <==> !Padded([c]) || Loses(x, y)
  {
    LoneIsTuple();
    LoneCells(c);
    LoneCells(LONE_CELL[0]);
    assert [LONE_CELL[0]] == LONE_CELL;
    var b := TupleText([c]);
    var u, z := CollapsedBoth(x, b, LONE, y);
    hide Collapsed, Loses, LoneRowText, Finished;
    if Loses(x, y) {
    } else if Padded([c]) {
      FinishedLength(u, c, z);
      FinishedLength(u, LONE_CELL[0], z);
      assert |Core(c)| > |Core(LONE_CELL[0])|;
    } else {
      assert c == LONE_CELL[0];
    }
  }

  // ---------- in a query ----------

  /** A literal pass treats what stands before and behind a block as if it stood alone. */
  lemma {:induction false} BracketSplits(pass: Pass, inWord: bool, p: string, z: string)
    requires Lexical(pass) && Opens(z)
    ensures ReplaceAll(pass, inWord, p + z) == ReplaceAll(pass, inWord, p) + ReplaceAll(pass, false, z)
    decreases |p|
  {
    hide MatchLen, ReplaceAll, IsWord, Written, Lexical;
    if p == "" {
      assert p + z == z;
      EmptyScan(pass, inWord);
      BracketEnds(z);
      FlagIrrelevant(pass, inWord, false, z);
    } else {
      var n := MatchLen(pass, inWord, p);
      var k := Width(n);
      LexicalBeforeBracket(pass, inWord, p, z);
      StepBefore(pass, inWord, p, z, n);
      WriteStep(pass, inWord, p);
      BracketSplits(pass, IsWord(p[k - 1]), p[k..], z);
      PrefixedText(Written(pass, n, p), ReplaceAll(pass, IsWord(p[k - 1]), p[k..]), ReplaceAll(pass, false, z));
    }
  }

  lemma PassSplits(pass: Pass, p: string, b: string, image: string, q: string)
    requires Lexical(pass) && Opens(b) && Turns(pass, b, image)
    ensures Apply(pass, p + (b + q)) == Apply(pass, p) + (image + Apply(pass, q))
  {
    hide Lexical;
    assert ReplaceAll(pass, false, b + q) == image + ReplaceAll(pass, false, q);
    hide ReplaceAll;
    BracketSplits(pass, false, p, b + q);
  }

  predicate NoQuotes(p: string) {
    '\'' !in p && '"' !in p
  }

  lemma QuotesSplit(p: string)
    requires NoQuotes(p)
    ensures Apply(DoubleQuoted, Apply(SingleQuoted, p)) == p
  {
    hide Apply;
    CopyAll('\'', p);
    CopyAll('"', p);
  }

  lemma BlockHasNoQuotes(p: string, b: string, q: string)
    requires NoQuotes(p) && NoQuotes(q) && IsBlock(b)
    ensures NoQuotes(p + (b + q))
  {
  }

  /** So does the whole of them, when there are no quotes around it. */
  lemma StrippedSplits(p: string, b: string, image: string, q: string)
    requires NoQuotes(p) && NoQuotes(q) && IsBlock(b) && Kept(b) && Turns(Int, b, image)
    ensures Stripped(p + (b + q)) == Stripped(p) + (image + Stripped(q))
  {
    var s := p + (b + q);
    BlockHasNoQuotes(p, b, q);
    QuotesSplit(s);
    QuotesSplit(p);
    QuotesSplit(q);
    StrippedIs(s);
    StrippedIs(p);
    StrippedIs(q);
    assert Turns(Named, b, b) && Turns(Numbered, b, b) && Turns(Hex, b, b) && Turns(Decimal, b, b);
    hide Apply, Turns, Kept, NoQuotes, Unquoted;
    var p3, q3 := Apply(Named, p), Apply(Named, q);
    var p4, q4 := Apply(Numbered, p3), Apply(Numbered, q3);
    var p5, q5 := Apply(Hex, p4), Apply(Hex, q4);
    var p6, q6 := Apply(Decimal, p5), Apply(Decimal, q5);
    PassSplits(Named, p, b, b, q);
    PassSplits(Numbered, p3, b, b, q3);
    PassSplits(Hex, p4, b, b, q4);
    PassSplits(Decimal, p5, b, b, q5);
    PassSplits(Int, p6, b, image, q6);
  }

  lemma NormalizeFinishes(sql: string)
    ensures Normalize(sql) == Finished(Collapsed(Stripped(sql)))
  {
    LastSteps(sql);
    hide Stripped, Collapsed, Apply, ToLower, TrimSpace;
  }

  /** A lone value in a query, with `p` before it and `q` behind it. Either the literal passes swallow it with
      its blanks, or they leave it between two texts `x` and `y`, and then its blanks are taken away if and
      only if there were none, or it is an IN list, or a row stands next to it there. Without quotes around it
      the two texts are what the literal passes make of `p` and `q`. */
  lemma PaddedIff(p: string, c: Cell, q: string) returns (stands: bool, x: string, y: string)
    requires IsCell(c)
    ensures !stands ==> Normalize(p + TupleText([c]) + q) == Normalize(p + LONE + q)
    ensures stands ==>
              (Normalize(p + TupleText([c]) + q) == Normalize(p + LONE + q) <==> !Padded([c]) || Loses(x, y))
    ensures stands ==>
              && Stripped(p + TupleText([c]) + q) == x + (TupleText([Hole(c)]) + y)
              && Stripped(p + LONE + q) == x + (LONE + y)
    ensures NoQuotes(p) && NoQuotes(q) ==> stands && x == Stripped(p) && y == Stripped(q)
  {
    var s, t := p + TupleText([c]) + q, p + LONE + q;
    NormalizeFinishes(s);
    NormalizeFinishes(t);
    stands, x, y := Stands(p, c, q);
    hide Stripped, Collapsed, TupleText, Loses, Normalize, Finished;
    if stands { LosesBlanksIff(x, Hole(c), y); }
  }

  lemma Stands(p: string, c: Cell, q: string) returns (stands: bool, x: string, y: string)
    requires IsCell(c)
    ensures !stands ==> Stripped(p + TupleText([c]) + q) == Stripped(p + LONE + q)
    ensures stands ==>
              && Stripped(p + TupleText([c]) + q) == x + (TupleText([Hole(c)]) + y)
              && Stripped(p + LONE + q) == x + (LONE + y)
    ensures NoQuotes(p) && NoQuotes(q) ==> stands && x == Stripped(p) && y == Stripped(q)
  {
    var b, b' := TupleText([c]), TupleText([Hole(c)]);
    assert Holes([c]) == [Hole(c)] && IsTuple([c]);
    LoneIsBlock();
    var s, t := p + b + q, p + LONE + q;
    assert s == p + (b + q) && t == p + (LONE + q);
    hide TupleText, Turns, Kept, IsBlock, HoleRow, Stripped, Similar, IsTuple, Hole;
    TuplesAreBlocks([c]);
    if NoQuotes(p) && NoQuotes(q) {
      StrippedSplits(p, b, b', q);
      StrippedSplits(p, LONE, LONE, q);
      stands, x, y := true, Stripped(p), Stripped(q);
    } else {
      SimilarAround(s, t, p, b, LONE, q);
      StrippedKeepsSimilar(s, t, b, LONE, b', LONE);
      stands, x, y := SimilarParts(Stripped(s), Stripped(t), b', LONE);
    }
  }

  lemma SimilarParts(s: string, t: string, b: string, c: string) returns (apart: bool, x: string, y: string)
    requires Similar(s, t, b, c)
    ensures if apart then s == x + (b + y) && t == x + (c + y) else s == t
  {
    if s == t {
      apart, x, y := false, "", "";
    } else {
      apart := true;
      x, y :| Around(s, t, x, b, c, y);
    }
  }

  // ---------- the smallest query that shows it ----------

  lemma NothingAround()
    ensures NoQuotes("") && Stripped("") == "" && !Loses("", "")
  {
    StrippedIs("");
  }

  lemma OneInBrackets(before: string, after: string)
    ensures "" + TupleText([Cell(before, "1", after)]) + "" == "(" + before + "1" + after + ")"
    ensures AllBlank(before) && AllBlank(after) ==> IsCell(Cell(before, "1", after))
  {
    var cells := [Cell(before, "1", after)];
    assert TailText(cells) == after + ")";
    assert TupleText(cells) == "(" + before + "1" + after + ")";
  }

  /** Blanks around the value of a tuple that stands by itself stay, and with them another template. */
  lemma PaddedValueAlone()
    ensures Normalize("( 1 )") != Normalize("(1)") == Normalize("(?)")
  {
    NothingAround();
    OneInBrackets(" ", " ");
    OneInBrackets("", "");
    hide Normalize, Stripped, Loses, NoQuotes, TupleText, IsCell;
    assert "" + LONE + "" == "(?)" && "(" + " " + "1" + " " + ")" == "( 1 )" && "(" + "" + "1" + "" + ")" == "(1)";
    var b, x, y := PaddedIff("", Cell(" ", "1", " "), "");
    var c, u, v := PaddedIff("", Cell("", "1", ""), "");
  }
}
