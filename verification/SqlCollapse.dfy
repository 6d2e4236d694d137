/** How the passes meet a value list from the left, and what the collapsing passes make of it. */
module SqlCollapse {
  import opened Ascii
  import opened Sql
  import opened SqlBlocks
  import opened SqlGrouping
  import opened SqlLists

  /** The text goes on with a bracket. */
  predicate Opens(z: string) {
    z != "" && z[0] == '('
  }

  // ---------- a bracket ends every literal ----------

  lemma RunsBeforeBracket(s: string, z: string)
    requires Opens(z)
    ensures WordRun(s + z) == WordRun(s) && DigitRun(s + z) == DigitRun(s)
    ensures HexRun(s + z) == HexRun(s)
  {
    WordRunOver(s, z);
    DigitRunOver(s, z);
    HexRunOver(s, z);
  }

  lemma BlanksBeforeBracket(s: string, z: string)
    requires Opens(z)
    ensures BlankRun(s + z) == BlankRun(s)
  {
    BlankRunOver(s, z);
  }

  lemma EndsBeforeBracket(s: string, z: string, n: nat)
    requires Opens(z) && n <= |s|
    ensures Ends((s + z)[n..]) == Ends(s[n..])
  {
    assert (s + z)[n..] == s[n..] + z;
  }

  lemma NamedBeforeBracket(s: string, z: string)
    requires Opens(z) && s != ""
    ensures NamedLen(s + z) == NamedLen(s) && NumberedLen(s + z) == NumberedLen(s)
  {
    hide WordRun, DigitRun;
    RunsBeforeBracket(s[1..], z);
    assert (s + z)[1..] == s[1..] + z;
  }

  lemma HexBeforeBracket(inWord: bool, s: string, z: string)
    requires Opens(z) && s != ""
    ensures HexLen(inWord, s + z) == HexLen(inWord, s)
  {
    if |s| >= 2 {
      var t := s[2..];
      hide HexRun, Ends;
      assert (s + z)[2..] == t + z;
      RunsBeforeBracket(t, z);
      EndsBeforeBracket(t, z, HexRun(t));
      if t == "" { assert HexRun(t) == 0; }
    }
  }

  lemma IntBeforeBracket(inWord: bool, s: string, z: string)
    requires Opens(z)
    ensures IntLen(inWord, s + z) == IntLen(inWord, s)
  {
    hide DigitRun, Ends;
    RunsBeforeBracket(s, z);
    EndsBeforeBracket(s, z, DigitRun(s));
  }

  lemma LastDigitsBeforeBracket(v: string, z: string)
    requires Opens(z)
    ensures LastDigits(v + z) == LastDigits(v)
  {
    hide DigitRun, Ends;
    RunsBeforeBracket(v, z);
    EndsBeforeBracket(v, z, DigitRun(v));
  }

  lemma ExponentBeforeBracket(u: string, z: string)
    requires Opens(z)
    ensures ExponentLen(u + z) == ExponentLen(u)
  {
    if u != "" && IsMark(u[0]) {
      hide ExponentLen, LastDigits;
      var v := u[1 + SignLen(u)..];
      assert u + "" == u && v + "" == v;
      ExponentAt(u, z);
      ExponentAt(u, "");
      LastDigitsBeforeBracket(v, z);
    }
  }

  lemma FractionBeforeBracket(t: string, z: string)
    requires Opens(z)
    ensures FractionLen(t + z) == FractionLen(t)
  {
    hide DigitRun, ExponentLen;
    RunsBeforeBracket(t, z);
    ExponentBeforeBracket(t[DigitRun(t)..], z);
    assert (t + z)[DigitRun(t)..] == t[DigitRun(t)..] + z;
  }

  lemma DecimalBeforeBracket(inWord: bool, s: string, z: string)
    requires Opens(z)
    ensures DecimalLen(inWord, s + z) == DecimalLen(inWord, s)
  {
    hide DigitRun, FractionLen;
    RunsBeforeBracket(s, z);
    var k := DigitRun(s);
    if k < |s| {
      FractionBeforeBracket(s[k + 1..], z);
      assert (s + z)[k + 1..] == s[k + 1..] + z;
    }
  }

  lemma LexicalBeforeBracket(pass: Pass, inWord: bool, s: string, z: string)
    requires Lexical(pass) && Opens(z) && s != ""
    ensures MatchLen(pass, inWord, s + z) == MatchLen(pass, inWord, s)
  {
    hide NamedLen, NumberedLen, HexLen, DecimalLen, IntLen;
    match pass
    case Named | Numbered => NamedBeforeBracket(s, z);
    case Hex => HexBeforeBracket(inWord, s, z);
    case Decimal => DecimalBeforeBracket(inWord, s, z);
    case Int => IntBeforeBracket(inWord, s, z);
  }

  // ---------- the literal passes around a list ----------

  predicate IsBlock(b: string) {
    Opens(b) && b[|b| - 1] == ')' && Unquoted(b)
  }

  lemma BlockAgnostic(pass: Pass, inWord: bool, p: string, b: string, c: string, q: string)
    requires Literally(pass) && p != "" && IsBlock(b) && IsBlock(c)
    ensures Agnostic(pass, inWord, p, b, c, q)
  {
    hide QuotedLen, NamedLen, NumberedLen, HexLen, DecimalLen, IntLen, Unquoted;
    if Lexical(pass) {
      LexicalBeforeBracket(pass, inWord, p, b + q);
      LexicalBeforeBracket(pass, inWord, p, c + q);
    } else {
      QuotedAgnostic(if pass.SingleQuoted? then '\'' else '"', p, b, c, q);
    }
  }

  /** x and y are the same but for the blocks b and c in one place. */
  predicate Around(x: string, y: string, p: string, b: string, c: string, q: string) {
    x == p + (b + q) && y == p + (c + q)
  }

  ghost predicate Similar(x: string, y: string, b: string, c: string) {
    x == y || exists p, q :: Around(x, y, p, b, c, q)
  }

  lemma SimilarAround(x: string, y: string, p: string, b: string, c: string, q: string)
    requires Around(x, y, p, b, c, q)
    ensures Similar(x, y, b, c)
  {
  }

  lemma SameAreSimilar(x: string, b: string, c: string)
    ensures Similar(x, x, b, c)
  {
  }

  lemma BlocksAgnosticAlong(pass: Pass, p: string, b: string, c: string, q: string)
    requires Literally(pass) && IsBlock(b) && IsBlock(c)
    ensures AgnosticAlong(pass, p, b, c, q)
  {
    hide Agnostic, IsBlock, Literally;
    forall i: nat, f: bool | i < |p| ensures Agnostic(pass, f, p[i..], b, c, q) {
      BlockAgnostic(pass, f, p[i..], b, c, q);
    }
  }

  lemma PassKeepsSimilar(pass: Pass, x: string, y: string, b: string, c: string, b': string, c': string)
    requires Literally(pass) && IsBlock(b) && IsBlock(c) && Turns(pass, b, b') && Turns(pass, c, c')
    requires Similar(x, y, b, c)
    ensures Similar(Apply(pass, x), Apply(pass, y), b', c')
  {
    if x == y {
      SameAreSimilar(Apply(pass, x), b', c');
    } else {
      var p, q :| Around(x, y, p, b, c, q);
      BlocksAgnosticAlong(pass, p, b, c, q);
      hide Literally, ReplaceAll, AgnosticAlong, Similar, Unquoted;
      var r := BlockScan(pass, false, p, b, c, q);
      match r
      case None => SameAreSimilar(Apply(pass, x), b', c');
      case Some(w) =>
        var f := EndsInWord(false, p);
        assert ReplaceAll(pass, f, b + q) == b' + ReplaceAll(pass, false, q);
        assert ReplaceAll(pass, f, c + q) == c' + ReplaceAll(pass, false, q);
        SimilarAround(Apply(pass, x), Apply(pass, y), w, b', c', ReplaceAll(pass, false, q));
    }
  }

  /** No literal pass but Int changes the block. */
  ghost predicate Kept(b: string) {
    forall pass: Pass | Literally(pass) && !pass.Int? :: Turns(pass, b, b)
  }

  lemma StrippedKeepsSimilar(x: string, y: string, b: string, c: string, b': string, c': string)
    requires IsBlock(b) && IsBlock(c) && Kept(b) && Kept(c) && Turns(Int, b, b') && Turns(Int, c, c')
    requires Similar(x, y, b, c)
    ensures Similar(Stripped(x), Stripped(y), b', c')
  {
    StrippedIs(x);
    StrippedIs(y);
    hide Apply, Similar, IsBlock, Turns;
    var x1, y1 := Apply(SingleQuoted, x), Apply(SingleQuoted, y);
    PassKeepsSimilar(SingleQuoted, x, y, b, c, b, c);
    var x2, y2 := Apply(DoubleQuoted, x1), Apply(DoubleQuoted, y1);
    PassKeepsSimilar(DoubleQuoted, x1, y1, b, c, b, c);
    var x3, y3 := Apply(Named, x2), Apply(Named, y2);
    PassKeepsSimilar(Named, x2, y2, b, c, b, c);
    var x4, y4 := Apply(Numbered, x3), Apply(Numbered, y3);
    PassKeepsSimilar(Numbered, x3, y3, b, c, b, c);
    var x5, y5 := Apply(Hex, x4), Apply(Hex, y4);
    PassKeepsSimilar(Hex, x4, y4, b, c, b, c);
    var x6, y6 := Apply(Decimal, x5), Apply(Decimal, y5);
    PassKeepsSimilar(Decimal, x5, y5, b, c, b, c);
    PassKeepsSimilar(Int, x6, y6, b, c, b', c');
  }

  // ---------- a bracket ends every list ----------

  lemma CloseBeforeBracket(s: string, z: string)
    requires Opens(z)
    ensures CloseLen(s + z) == CloseLen(s)
  {
    hide BlankRun;
    BlanksBeforeBracket(s, z);
  }

  lemma SeparatorBeforeBracket(s: string, z: string)
    requires Opens(z)
    ensures SeparatorLen(s + z) == SeparatorLen(s)
  {
    hide BlankRun, IsBlank;
    BlanksBeforeBracket(s, z);
    var k := BlankRun(s);
    if k < |s| {
      var t := s[k + 1..];
      BlanksBeforeBracket(t, z);
      assert (s + z)[k + 1..] == t + z;
      assert (s + z)[k] == s[k];
    }
  }

  lemma {:induction false} TailBeforeBracket(s: string, z: string)
    requires Opens(z)
    ensures TupleTail(s + z) == TupleTail(s)
    decreases |s|
  {
    hide SeparatorLen, CloseLen;
    SeparatorBeforeBracket(s, z);
    CloseBeforeBracket(s, z);
    var k := SeparatorLen(s);
    if 0 < k < |s| {
      TailBeforeBracket(s[k + 1..], z);
      assert (s + z)[k + 1..] == s[k + 1..] + z;
    }
  }

  lemma HeadBeforeBracket(s: string, z: string)
    requires Opens(z) && s != ""
    ensures TupleHead(s + z) == TupleHead(s)
  {
    hide BlankRun;
    BlanksBeforeBracket(s[1..], z);
    assert (s + z)[1..] == s[1..] + z;
  }

  lemma TupleBeforeBracket(s: string, z: string)
    requires Opens(z) && s != ""
    ensures TupleLen(s + z) == TupleLen(s)
  {
    hide TupleHead, TupleTail;
    HeadBeforeBracket(s, z);
    var h := TupleHead(s);
    TailBeforeBracket(s[h..], z);
    assert (s + z)[h..] == s[h..] + z;
  }

  /** A text that is one tuple, whatever follows. */
  ghost predicate TupleHere(b: string) {
    Opens(b) && forall q: string :: TupleLen(b + q) == |b|
  }

  lemma InHeadBeforeBracket(inWord: bool, s: string, z: string)
    requires Opens(z) && s != ""
    ensures InHead(inWord, s + z) == InHead(inWord, s)
  {
    hide BlankRun;
    if |s| > 1 {
      BlanksBeforeBracket(s[2..], z);
      assert (s + z)[2..] == s[2..] + z;
    }
  }

  lemma InListBeforeTuple(inWord: bool, s: string, b: string, q: string)
    requires s != "" && TupleHere(b)
    ensures InListLen(inWord, s + (b + q)) == if InHead(inWord, s) == |s| then |s| + |b| else InListLen(inWord, s)
    ensures InHead(inWord, s) < |s| ==> InListLen(inWord, s) <= |s|
  {
    hide InHead, TupleLen;
    var h := InHead(inWord, s);
    InHeadBeforeBracket(inWord, s, b + q);
    assert (s + (b + q))[h..] == s[h..] + (b + q);
    if h == |s| {
      assert s[h..] + (b + q) == b + q;
    } else {
      TupleBeforeBracket(s[h..], b + q);
    }
  }

  /** A text that is one tuple or more with commas between them, whatever follows. */
  ghost predicate RowsHere(b: string) {
    && Opens(b)
    && forall q: string ::
         TupleLen(b + q) > 0 && TupleLen(b + q) + MoreTuples((b + q)[TupleLen(b + q)..]) == |b| + MoreTuples(q)
  }

  lemma TupleIsRows(b: string)
    requires TupleHere(b)
    ensures RowsHere(b)
  {
    hide TupleLen, MoreTuples;
    forall q: string
      ensures TupleLen(b + q) > 0 && TupleLen(b + q) + MoreTuples((b + q)[TupleLen(b + q)..]) == |b| + MoreTuples(q)
    {
      assert (b + q)[|b|..] == q;
    }
  }

  lemma MoreTuplesUnfolds(s: string, k: nat, n: nat)
    requires k == SeparatorLen(s) && n == TupleLen(s[k..])
    ensures k + n <= |s| && MoreTuples(s) == if k == 0 || n == 0 then 0 else k + n + MoreTuples(s[k + n..])
  {
    hide TupleLen, SeparatorLen;
  }

  lemma MoreTuplesStep(s: string, z: string, k: nat, n: nat)
    requires Opens(z) && k == SeparatorLen(s) < |s| && n == TupleLen(s[k..])
    ensures k + n <= |s|
    ensures MoreTuples(s + z) == if k == 0 || n == 0 then 0 else k + n + MoreTuples(s[k + n..] + z)
  {
    hide *;
    SeparatorBeforeBracket(s, z);
    assert (s + z)[k..] == s[k..] + z;
    TupleBeforeBracket(s[k..], z);
    MoreTuplesUnfolds(s + z, k, n);
    assert (s + z)[k + n..] == s[k + n..] + z;
  }

  /** Rows before the block go on into it, or end before it, whatever its length. */
  lemma {:induction false} MoreTuplesAgnostic(s: string, b: string, c: string, q: string)
    requires RowsHere(b) && RowsHere(c)
    ensures Agrees(MoreTuples(s + (b + q)), MoreTuples(s + (c + q)), |s|, |b|, |c|)
    decreases |s|
  {
    hide TupleLen, SeparatorLen, RowsHere, MoreTuples;
    OpensRows(b);
    OpensRows(c);
    var k := SeparatorLen(s);
    if s == "" {
      MoreTuplesNone(s, b + q);
      MoreTuplesNone(s, c + q);
    } else if k == |s| {
      MoreTuplesThere(s, b, q);
      MoreTuplesThere(s, c, q);
    } else {
      var n := TupleLen(s[k..]);
      MoreTuplesStep(s, b + q, k, n);
      MoreTuplesStep(s, c + q, k, n);
      if k > 0 && n > 0 { MoreTuplesAgnostic(s[k + n..], b, c, q); }
    }
  }

  lemma MoreTuplesNone(s: string, z: string)
    requires s == "" && Opens(z)
    ensures MoreTuples(s + z) == 0
  {
    SeparatorBeforeBracket(s, z);
  }

  lemma MoreTuplesThere(s: string, b: string, q: string)
    requires RowsHere(b) && SeparatorLen(s) == |s| > 0
    ensures MoreTuples(s + (b + q)) == |s| + |b| + MoreTuples(q)
  {
    hide TupleLen, SeparatorLen;
    SeparatorBeforeBracket(s, b + q);
    assert (s + (b + q))[|s|..] == b + q;
    var n := TupleLen(b + q);
    assert (s + (b + q))[|s| + n..] == (b + q)[n..];
  }

  lemma TuplesManyAgnostic(s: string, b: string, c: string, q: string)
    requires s != "" && RowsHere(b) && RowsHere(c)
    ensures Agrees(TuplesManyLen(s + (b + q)), TuplesManyLen(s + (c + q)), |s|, |b|, |c|)
  {
    hide TupleLen, MoreTuples, RowsHere;
    OpensRows(b);
    OpensRows(c);
    TupleBeforeBracket(s, b + q);
    TupleBeforeBracket(s, c + q);
    var n := TupleLen(s);
    MoreTuplesAgnostic(s[n..], b, c, q);
    assert (s + (b + q))[n..] == s[n..] + (b + q) && (s + (c + q))[n..] == s[n..] + (c + q);
  }

  lemma OpensRows(b: string)
    requires RowsHere(b)
    ensures Opens(b)
  {
  }

  lemma TupleMultiBeforeBracket(s: string, z: string)
    requires Opens(z) && s != ""
    ensures TupleMultiLen(s + z) == TupleMultiLen(s)
  {
    hide TupleLen, SeparatorLen, TupleHead;
    TupleBeforeBracket(s, z);
    HeadBeforeBracket(s, z);
    var h := TupleHead(s);
    SeparatorBeforeBracket(s[h..], z);
    assert (s + z)[h..] == s[h..] + z;
  }

  /** The collapsing passes. */
  predicate Collapsing(pass: Pass) {
    pass.InList? || pass.TuplesMany? || pass.TupleMulti?
  }

  lemma TuplesAgnostic(pass: Pass, inWord: bool, p: string, b: string, c: string, q: string)
    requires Collapsing(pass) && p != "" && TupleHere(b) && TupleHere(c)
    ensures Agnostic(pass, inWord, p, b, c, q)
  {
    hide InListLen, TuplesManyLen, TupleMultiLen, InHead;
    match pass
    case InList =>
      InListBeforeTuple(inWord, p, b, q);
      InListBeforeTuple(inWord, p, c, q);
    case TuplesMany =>
      TupleIsRows(b);
      TupleIsRows(c);
      TuplesManyAgnostic(p, b, c, q);
    case TupleMulti =>
      TupleMultiBeforeBracket(p, b + q);
      TupleMultiBeforeBracket(p, c + q);
  }

  lemma TuplesAgnosticAlong(pass: Pass, p: string, b: string, c: string, q: string)
    requires Collapsing(pass) && TupleHere(b) && TupleHere(c)
    ensures AgnosticAlong(pass, p, b, c, q)
  {
    hide Agnostic, TupleHere, Collapsing;
    forall i: nat, f: bool | i < |p| ensures Agnostic(pass, f, p[i..], b, c, q) {
      TuplesAgnostic(pass, f, p[i..], b, c, q);
    }
  }
}
