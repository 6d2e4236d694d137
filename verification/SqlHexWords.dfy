/** Hexadecimal numbers under the passes of the SQL normalizer: which are read, and which reach the template. */
module SqlHexWords {
  import opened Ascii
  import opened Sql
  import opened SqlTemplate
  import opened SqlChars
  import opened SqlNoLists
  import opened SqlWords

  // ---------- hexadecimal words under the passes ----------

  /** The letter a hexadecimal word of the kind has. */
  function Letter(kind: WordKind): char {
    if kind.SmallHex? then 'x' else 'X'
  }

  /** The pass reads no word of the kind, and writes none. */
  predicate Spares(pass: Pass, kind: WordKind) {
    && !kind.Digits?
    && (pass.Decimal? || AfterInt(pass) || pass.Int? || (pass.Hex? && kind.CapitalHex?))
  }

  lemma {:induction false} NoLetterNoWord(kind: WordKind, inWord: bool, s: string)
    requires !kind.Digits? && Letter(kind) !in s
    ensures NoWord(kind, inWord, s)
    decreases |s|
  {
    if s == "" {
    } else {
      if IsWord(s[0]) {
        var w := WordRun(s);
        assert forall i :: 0 <= i < |s[..w]| ==> s[..w][i] == s[i];
        NoLetterNoWord(kind, true, s[w..]);
      } else {
        NoLetterNoWord(kind, false, s[1..]);
      }
    }
  }

  /** A text can be cut where no word goes on. */
  lemma {:induction false} WordsCut(kind: WordKind, inWord: bool, a: string, b: string)
    requires a != "" && (!IsWord(a[|a| - 1]) || Ends(b))
    ensures NoWord(kind, inWord, a + b) <==> NoWord(kind, inWord, a) && NoWord(kind, IsWord(a[|a| - 1]), b)
    decreases |a|
  {
    hide IsWord, IsOf, NoWord, WordRun, Ends;
    if IsWord(a[0]) {
      var w := WordRun(a);
      var x, y := a[..w], a[w..];
      if y == "" {
        assert a == x && y + b == b;
        WordThen(kind, inWord, a, b);
        WordThen(kind, inWord, a, "");
        NoWordInNothing(kind);
        assert a + "" == a;
      } else {
        assert a == x + y && a + b == x + (y + b) && (y + b)[0] == y[0];
        assert forall i :: 0 <= i < |x| ==> x[i] == a[i];
        WordThen(kind, inWord, x, y + b);
        WordThen(kind, inWord, x, y);
        WordsCut(kind, true, y, b);
      }
    } else {
      var y := a[1..];
      assert a == [a[0]] + y && a + b == [a[0]] + (y + b);
      NonWordFirst(kind, a[0], y);
      NonWordFirst(kind, a[0], y + b);
      if y == "" {
        NoWordInNothing(kind);
        assert y + b == b;
      } else {
        WordsCut(kind, false, y, b);
      }
    }
  }

  lemma NoWordInNothing(kind: WordKind)
    ensures forall f :: NoWord(kind, f, "")
  {
  }

  lemma MatchSpares(pass: Pass, kind: WordKind, inWord: bool, s: string)
    requires Spares(pass, kind) && MatchLen(pass, inWord, s) > 0
    ensures var n := MatchLen(pass, inWord, s);
      && NoWord(kind, inWord, s[..n])
      && (!IsWord(s[n - 1]) || Ends(s[n..]))
  {
    hide MatchLen, NoWord, MayHold, Letter;
    var n := MatchLen(pass, inWord, s);
    MatchHolds(pass, inWord, s);
    MatchStops(pass, inWord, s);
    if AfterInt(pass) { AfterIntEnds(pass, inWord, s); }
    SparesLetter(pass, kind);
    NoLetterNoWord(kind, inWord, s[..n]);
  }

  lemma SparesLetter(pass: Pass, kind: WordKind)
    requires Spares(pass, kind)
    ensures !MayHold(pass, Letter(kind))
  {
  }

  lemma ReplacementSpares(pass: Pass, kind: WordKind, inWord: bool, z: string)
    requires Spares(pass, kind)
    ensures NoWord(kind, inWord, Replacement(pass) + z) <==> NoWord(kind, false, z)
  {
    var r := Replacement(pass);
    NoLetterNoWord(kind, inWord, r);
    WordsCut(kind, inWord, r, z);
  }

  /** Hexadecimal words that a pass does not read stay, and none come. */
  lemma {:induction false} PassSpares(pass: Pass, kind: WordKind, inWord: bool, s: string)
    requires Spares(pass, kind)
    ensures NoWord(kind, inWord, ReplaceAll(pass, inWord, s)) <==> NoWord(kind, inWord, s)
    decreases |s|
  {
    hide MatchLen, ReplaceAll, NoWord, Replacement, IsOf, Spares, IsWord, WordRun, Ends;
    if s == "" {
      EmptyScan(pass, inWord);
    } else {
      ScanStep(pass, inWord, s);
      var n := MatchLen(pass, inWord, s);
      if n > 0 {
        var f, rest := IsWord(s[n - 1]), s[n..];
        var out := ReplaceAll(pass, f, rest);
        MatchSpares(pass, kind, inWord, s);
        assert s == s[..n] + rest;
        WordsCut(kind, inWord, s[..n], rest);
        PassSpares(pass, kind, f, rest);
        ReplacementSpares(pass, kind, inWord, out);
        if f { EdgeKept(pass, f, rest); FlagAtEdge(kind, f, false, out); }
      } else if IsWord(s[0]) {
        var w := WordRun(s);
        CopyWholeWord(pass, s);
        PassSpares(pass, kind, true, s[w..]);
        EdgeKept(pass, true, s[w..]);
        WordThen(kind, inWord, s[..w], ReplaceAll(pass, true, s[w..]));
        WordThen(kind, inWord, s[..w], s[w..]);
        assert s == s[..w] + s[w..];
      } else {
        PassSpares(pass, kind, false, s[1..]);
        NonWordFirst(kind, s[0], ReplaceAll(pass, false, s[1..]));
        NonWordFirst(kind, s[0], s[1..]);
        assert s == [s[0]] + s[1..];
      }
    }
  }

  // ---------- the hexadecimal pass ----------

  lemma HexFindsWord(s: string)
    requires s != "" && IsWord(s[0])
    ensures HexLen(false, s) > 0 <==> IsHexLiteral(s[..WordRun(s)])
  {
    var w := WordRun(s);
    if |s| > 2 && s[0] == '0' && s[1] == 'x' {
      var t := s[2..];
      assert forall i :: 0 <= i < |t| ==> t[i] == s[i + 2];
      var h := HexRun(t);
      assert h < |t| ==> t[h..][0] == s[h + 2];
      forall i | 2 <= i < h + 2 ensures IsHexChar(s[i]) { assert s[i] == t[i - 2]; }
      assert w > 1 && h + 2 <= w;
      if h + 2 == w {
        assert forall i :: 2 <= i < w ==> s[i] == t[i - 2];
      } else {
        assert s[..w][h + 2] == t[h];
      }
    }
  }

  lemma InsideWord(kind: WordKind, s: string)
    requires s != "" && IsWord(s[0])
    ensures NoWord(kind, true, s) <==> NoWord(kind, true, s[1..])
  {
    hide IsOf;
    var w := WordRun(s);
    assert WordRun(s[1..]) == w - 1;
    assert s[1..][w - 1..] == s[w..];
  }

  /** The hexadecimal pass is idle exactly where there is no such word. */
  lemma {:induction false} HexIdleIff(inWord: bool, s: string)
    ensures Idle(Hex, inWord, s) <==> NoWord(SmallHex, inWord, s)
    decreases |s|
  {
    if s == "" {
    } else {
      hide Idle, IsHexLiteral, WordRun, HexLen;
      IdleStep(Hex, inWord, s);
      HexIdleIff(IsWord(s[0]), s[1..]);
      if IsWord(s[0]) {
        InsideWord(SmallHex, s);
        if inWord { HexInWord(s); } else { HexFindsWord(s); InsideOrNot(s); }
      } else {
        HexNeedsWord(inWord, s);
      }
    }
  }

  lemma InsideOrNot(s: string)
    requires s != "" && IsWord(s[0])
    ensures NoWord(SmallHex, false, s) <==> !IsHexLiteral(s[..WordRun(s)]) && NoWord(SmallHex, true, s)
  {
    hide IsHexLiteral;
  }

  lemma HexInWord(s: string)
    ensures HexLen(true, s) == 0
  {
  }

  lemma HexNeedsWord(inWord: bool, s: string)
    requires s != "" && !IsWord(s[0])
    ensures HexLen(inWord, s) == 0
  {
  }

  lemma HexReadsWord(inWord: bool, s: string, n: nat, out: string)
    requires n == MatchLen(Hex, inWord, s) > 0
    requires out == ReplaceAll(Hex, IsWord(s[n - 1]), s[n..]) && NoWord(SmallHex, IsWord(s[n - 1]), out)
    ensures NoWord(SmallHex, inWord, "?" + out)
  {
    hide ReplaceAll, NoWord, MatchLen;
    MatchStops(Hex, inWord, s);
    EdgeKept(Hex, IsWord(s[n - 1]), s[n..]);
    FlagAtEdge(SmallHex, IsWord(s[n - 1]), false, out);
    NonWordFirst(SmallHex, '?', out);
  }

  /** The hexadecimal pass leaves no word that it reads. */
  lemma {:induction false} HexLeavesNone(inWord: bool, s: string)
    ensures NoWord(SmallHex, inWord, ReplaceAll(Hex, inWord, s))
    decreases |s|
  {
    hide MatchLen, ReplaceAll, NoWord, IsOf;
    if s == "" {
      EmptyScan(Hex, inWord);
      NoWordInNothing(SmallHex);
    } else {
      ScanStep(Hex, inWord, s);
      var n := MatchLen(Hex, inWord, s);
      if n > 0 {
        HexLeavesNone(IsWord(s[n - 1]), s[n..]);
        HexReadsWord(inWord, s, n, ReplaceAll(Hex, IsWord(s[n - 1]), s[n..]));
      } else if IsWord(s[0]) {
        var w := WordRun(s);
        CopyWholeWord(Hex, s);
        HexLeavesNone(true, s[w..]);
        EdgeKept(Hex, true, s[w..]);
        WordThen(SmallHex, inWord, s[..w], ReplaceAll(Hex, true, s[w..]));
        if !inWord { NotHex(s); }
      } else {
        HexLeavesNone(false, s[1..]);
        NonWordFirst(SmallHex, s[0], ReplaceAll(Hex, false, s[1..]));
      }
    }
  }

  lemma NotHex(s: string)
    requires s != "" && IsWord(s[0]) && MatchLen(Hex, false, s) == 0
    ensures !IsOf(SmallHex, s[..WordRun(s)])
  {
    HexFindsWord(s);
  }

  // ---------- the last steps ----------

  lemma {:induction false} TrimLeftWords(kind: WordKind, s: string)
    ensures NoWord(kind, false, TrimLeft(s)) <==> NoWord(kind, false, s)
  {
    hide NoWord;
    if s == "" || !IsSpace(s[0]) {
    } else {
      TrimLeftWords(kind, s[1..]);
      NonWordFirst(kind, s[0], s[1..]);
      assert s == [s[0]] + s[1..];
    }
  }

  lemma {:induction false} TrimRightWords(kind: WordKind, s: string)
    ensures NoWord(kind, false, TrimRight(s)) <==> NoWord(kind, false, s)
    decreases |s|
  {
    hide NoWord;
    if s != "" && IsSpace(s[|s| - 1]) {
      var t, c := s[..|s| - 1], s[|s| - 1];
      TrimRightWords(kind, t);
      assert s == t + [c];
      NonWordFirst(kind, c, "");
      NoWordInNothing(kind);
      assert [c] + "" == [c];
      if t != "" { WordsCut(kind, false, t, [c]); } else { assert s == [c]; }
    }
  }

  lemma {:induction false} LowerWords(inWord: bool, s: string)
    ensures NoWord(SmallHex, inWord, ToLower(s)) <==> NoWord(SmallHex, inWord, s) && NoWord(CapitalHex, inWord, s)
    decreases |s|
  {
    hide ToLower, IsHexLiteral, IsCapitalHex;
    if s == "" {
    } else {
      LowerTail(s, 1);
      assert ToLower(s)[0] == Lower(s[0]);
      if IsWord(s[0]) {
        var w := WordRun(s);
        WordRunLower(s);
        LowerTail(s, w);
        LowerWords(true, s[w..]);
        LowerWord(s[..w]);
        assert ToLower(s)[..w] == ToLower(s[..w]);
      } else {
        LowerWords(false, s[1..]);
      }
    }
  }

  lemma WordRunLower(s: string)
    ensures WordRun(ToLower(s)) == WordRun(s)
  {
    hide ToLower, WordRun;
    var n, m := WordRun(s), WordRun(ToLower(s));
    assert n < |s| ==> ToLower(s)[n] == Lower(s[n]);
    assert m < |s| ==> ToLower(s)[m] == Lower(s[m]);
  }

  /** What the hexadecimal pass is given: string literals and placeholders have been read. */
  function WithoutPlaceholders(sql: string): string {
    Apply(Numbered, Apply(Named, WithoutStrings(sql)))
  }

  lemma SquashedHex(sql: string, kind: WordKind)
    requires !kind.Digits?
    ensures NoWord(kind, false, Squashed(sql)) <==> kind.SmallHex? || NoWord(kind, false, WithoutPlaceholders(sql))
  {
    StrippedIs(sql);
    CollapsedIs(Stripped(sql));
    hide ReplaceAll, NoWord, Stripped, Collapsed;
    var s4 := WithoutPlaceholders(sql);
    var s5 := Apply(Hex, s4);
    var s6 := Apply(Decimal, s5);
    var s7 := Apply(Int, s6);
    var s8 := Apply(InList, s7);
    var s9 := Apply(TuplesMany, s8);
    var s10 := Apply(TupleMulti, s9);
    if kind.SmallHex? { HexLeavesNone(false, s4); } else { PassSpares(Hex, kind, false, s4); }
    PassSpares(Decimal, kind, false, s5);
    PassSpares(Int, kind, false, s6);
    PassSpares(InList, kind, false, s7);
    PassSpares(TuplesMany, kind, false, s8);
    PassSpares(TupleMulti, kind, false, s9);
    PassSpares(Blanks, kind, false, s10);
  }

  /** A template has a hexadecimal number exactly when the query had one with a capital X, outside string
      literals and placeholders. */
  lemma TemplateHex(sql: string)
    ensures Idle(Hex, false, Normalize(sql)) <==> NoWord(CapitalHex, false, WithoutPlaceholders(sql))
  {
    var u := Squashed(sql);
    LastSteps(sql);
    TrimIs(u);
    hide Squashed, NoWord, ToLower, TrimLeft, TrimRight, TrimSpace, Normalize, WithoutPlaceholders, Idle;
    HexIdleIff(false, Normalize(sql));
    LowerWords(false, TrimSpace(u));
    SquashedHex(sql, SmallHex);
    SquashedHex(sql, CapitalHex);
    TrimLeftWords(SmallHex, u);
    TrimLeftWords(CapitalHex, u);
    TrimRightWords(SmallHex, TrimLeft(u));
    TrimRightWords(CapitalHex, TrimLeft(u));
  }
}
