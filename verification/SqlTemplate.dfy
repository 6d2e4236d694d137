/** What the passes of the SQL normalizer establish, and that no later pass breaks it. */
module SqlTemplate {
  import opened Ascii
  import opened Sql

  // ---------- what a match touches ----------

  /** A match never joins a word: it starts outside words or at the start of one, and ends likewise. */
  lemma MatchEdges(pass: Pass, inWord: bool, s: string)
    requires MatchLen(pass, inWord, s) > 0
    ensures s != "" && (IsWord(s[0]) ==> !inWord && (pass.Hex? || pass.Decimal? || pass.Int? || pass.InList?))
    ensures IsBlank(s[0]) <==> pass.Blanks?
    ensures pass.InList? ==> IsWord(s[0]) && !IsDigit(s[0])
  {
  }

  lemma ExponentEnds(s: string)
    requires ExponentLen(s).Some?
    ensures Ends(s[ExponentLen(s).value..])
  {
  }

  lemma DecimalEnds(inWord: bool, s: string)
    requires DecimalLen(inWord, s) > 0
    ensures Ends(s[DecimalLen(inWord, s)..])
  {
    hide DigitRun, FractionLen;
    var k := DigitRun(s) + 1;
    FractionEnds(s[k..]);
    CutTwice(s, k, FractionLen(s[k..]).value);
  }

  lemma FractionEnds(f: string)
    requires FractionLen(f).Some?
    ensures Ends(f[FractionLen(f).value..])
  {
    hide DigitRun, ExponentLen, Ends;
    var d := DigitRun(f);
    var e := f[d..];
    ExponentEnds(e);
    CutTwice(f, d, ExponentLen(e).value);
  }

  lemma CutTwice(s: string, i: nat, j: nat)
    requires i + j <= |s|
    ensures s[i..][j..] == s[i + j..]
  {
  }

  lemma HexEnds(inWord: bool, s: string)
    requires HexLen(inWord, s) > 0
    ensures Ends(s[HexLen(inWord, s)..])
  {
    assert s[2..][HexRun(s[2..])..] == s[2 + HexRun(s[2..])..];
  }

  /** After a match of a placeholder or number pattern no digit follows; after a number, no word at all. */
  lemma MatchStops(pass: Pass, inWord: bool, s: string)
    requires MatchLen(pass, inWord, s) > 0
    ensures pass.Hex? || pass.Decimal? || pass.Int? || pass.Named? ==> Ends(s[MatchLen(pass, inWord, s)..])
    ensures pass.Numbered? ==> s[MatchLen(pass, inWord, s)..] == "" || !IsDigit(s[MatchLen(pass, inWord, s)..][0])
    ensures pass.Blanks? ==> s[MatchLen(pass, inWord, s)..] == "" || !IsBlank(s[MatchLen(pass, inWord, s)..][0])
  {
    match pass
    case Hex => HexEnds(inWord, s);
    case Decimal => DecimalEnds(inWord, s);
    case _ =>
  }

  /** A pass never puts a word character, a digit or a blank at the front of a text that had none there. */
  lemma HeadKept(pass: Pass, inWord: bool, s: string)
    requires s != ""
    ensures var out := ReplaceAll(pass, inWord, s);
            && out != ""
            && (IsWord(out[0]) ==> IsWord(s[0])) && (IsDigit(out[0]) ==> IsDigit(s[0]))
            && (IsBlank(out[0]) ==> IsBlank(s[0]))
  {
    hide MatchLen;
    if MatchLen(pass, inWord, s) > 0 { MatchEdges(pass, inWord, s); }
  }

  lemma ScanStep(pass: Pass, inWord: bool, s: string)
    requires s != ""
    ensures var n := MatchLen(pass, inWord, s);
      ReplaceAll(pass, inWord, s)
      == if n > 0 then Replacement(pass) + ReplaceAll(pass, IsWord(s[n - 1]), s[n..])
         else [s[0]] + ReplaceAll(pass, IsWord(s[0]), s[1..])
  {
    hide MatchLen, Replacement, IsWord;
  }

  lemma EmptyScan(pass: Pass, inWord: bool)
    ensures ReplaceAll(pass, inWord, "") == ""
  {
  }

  /** A pass finds nothing in the text. */
  predicate Idle(pass: Pass, inWord: bool, s: string) {
    forall i :: 0 <= i < |s| ==> MatchLen(pass, FlagAt(inWord, s, i), s[i..]) == 0
  }

  lemma IdleStep(pass: Pass, inWord: bool, s: string)
    requires s != ""
    ensures Idle(pass, inWord, s) <==> MatchLen(pass, inWord, s) == 0 && Idle(pass, IsWord(s[0]), s[1..])
  {
    hide MatchLen, IsWord;
    var f, t := IsWord(s[0]), s[1..];
    assert s[0..] == s;
    assert forall i :: 0 <= i < |t| ==> t[i..] == s[i + 1..] && FlagAt(f, t, i) == FlagAt(inWord, s, i + 1);
    if MatchLen(pass, inWord, s) == 0 && Idle(pass, f, t) {
      forall i | 0 <= i < |s| ensures MatchLen(pass, FlagAt(inWord, s, i), s[i..]) == 0 {
        if i > 0 { assert t[i - 1..] == s[i..]; }
      }
    }
  }

  lemma {:induction false} IdleCopies(pass: Pass, inWord: bool, s: string)
    requires Idle(pass, inWord, s)
    ensures ReplaceAll(pass, inWord, s) == s
    decreases |s|
  {
    hide Idle, MatchLen;
    if s == "" {
    } else {
      IdleStep(pass, inWord, s);
      IdleCopies(pass, IsWord(s[0]), s[1..]);
    }
  }

  // ---------- forbidden pairs ----------

  datatype Rule = NoNamed | NoNumbered | NoDoubleBlank

  predicate Bad(rule: Rule, a: char, b: char) {
    match rule
    case NoNamed => (a == ':' || a == '$') && IsWord(b)
    case NoNumbered => a == '?' && IsDigit(b)
    case NoDoubleBlank => IsBlank(a) && IsBlank(b)
  }

  predicate Obeys(rule: Rule, s: string) {
    forall i :: 0 <= i < |s| - 1 ==> !Bad(rule, s[i], s[i + 1])
  }

  /** The pass that establishes a rule. */
  predicate Establishes(pass: Pass, rule: Rule) {
    match rule
    case NoNamed => pass.Named?
    case NoNumbered => pass.Numbered?
    case NoDoubleBlank => pass.Blanks?
  }

  /** The passes that come after it. */
  predicate Follows(pass: Pass, rule: Rule) {
    match rule
    case NoNamed => !pass.SingleQuoted? && !pass.DoubleQuoted? && !pass.Named?
    case NoNumbered => !pass.SingleQuoted? && !pass.DoubleQuoted? && !pass.Named? && !pass.Numbered?
    case NoDoubleBlank => false
  }

  lemma Glue(rule: Rule, a: string, b: string)
    requires Obeys(rule, a) && Obeys(rule, b)
    requires a != "" && b != "" ==> !Bad(rule, a[|a| - 1], b[0])
    ensures Obeys(rule, a + b)
  {
  }

  lemma TailObeys(rule: Rule, s: string, k: nat)
    requires Obeys(rule, s) && k <= |s|
    ensures Obeys(rule, s[k..])
  {
  }

  lemma ReplacementObeys(pass: Pass, rule: Rule)
    requires Establishes(pass, rule) || Follows(pass, rule)
    ensures Obeys(rule, Replacement(pass))
  {
  }

  lemma ReplacementFits(pass: Pass, inWord: bool, s: string, rule: Rule, c: char)
    requires Establishes(pass, rule) || Follows(pass, rule)
    requires 0 < MatchLen(pass, inWord, s) < |s|
    requires var d := s[MatchLen(pass, inWord, s)];
             (IsWord(c) ==> IsWord(d)) && (IsDigit(c) ==> IsDigit(d)) && (IsBlank(c) ==> IsBlank(d))
    ensures var r := Replacement(pass); !Bad(rule, r[|r| - 1], c)
  {
    MatchStops(pass, inWord, s);
  }

  /** A pass establishes its rule, and every later pass keeps it. */
  lemma {:induction false} PassObeys(pass: Pass, inWord: bool, s: string, rule: Rule)
    requires Establishes(pass, rule) || (Follows(pass, rule) && Obeys(rule, s))
    ensures Obeys(rule, ReplaceAll(pass, inWord, s))
    decreases |s|
  {
    hide MatchLen, ReplaceAll, Obeys, Replacement, Establishes, Follows;
    if s == "" {
      assert ReplaceAll(pass, inWord, s) == "" by { EmptyScan(pass, inWord); }
      EmptyObeys(rule);
    } else {
      var n := MatchLen(pass, inWord, s);
      var k := if n > 0 then n else 1;
      var rest, flag := s[k..], IsWord(s[k - 1]);
      var out := ReplaceAll(pass, flag, rest);
      ScanStep(pass, inWord, s);
      if !Establishes(pass, rule) { TailObeys(rule, s, k); }
      PassObeys(pass, flag, rest, rule);
      if rest != "" { HeadKept(pass, flag, rest); } else { EmptyScan(pass, flag); }
      if n > 0 {
        ReplacementObeys(pass, rule);
        if rest != "" { ReplacementFits(pass, inWord, s, rule, out[0]); }
        Glue(rule, Replacement(pass), out);
      } else {
        if rest != "" { Unmatched(pass, inWord, s, rule, out[0]); }
        OneObeys(rule, s[0]);
        Glue(rule, [s[0]], out);
      }
    }
  }

  lemma EmptyObeys(rule: Rule)
    ensures Obeys(rule, "")
  {
  }

  lemma OneObeys(rule: Rule, c: char)
    ensures Obeys(rule, [c])
  {
  }

  lemma Unmatched(pass: Pass, inWord: bool, s: string, rule: Rule, c: char)
    requires Establishes(pass, rule) || (Follows(pass, rule) && Obeys(rule, s))
    requires |s| > 1 && MatchLen(pass, inWord, s) == 0
    requires (IsWord(c) ==> IsWord(s[1])) && (IsDigit(c) ==> IsDigit(s[1])) && (IsBlank(c) ==> IsBlank(s[1]))
    ensures !Bad(rule, s[0], c)
  {
  }

  // ---------- words that are numbers ----------

  predicate AllDigits(s: string) {
    forall i :: 0 <= i < |s| ==> IsDigit(s[i])
  }

  /** 0x and hexadecimal digits; the x is small. */
  predicate IsHexLiteral(w: string) {
    |w| > 2 && w[0] == '0' && w[1] == 'x' && forall i :: 2 <= i < |w| ==> IsHexChar(w[i])
  }

  /** The same but for a capital X. */
  predicate IsCapitalHex(w: string) {
    |w| > 2 && w[0] == '0' && w[1] == 'X' && forall i :: 2 <= i < |w| ==> IsHexChar(w[i])
  }

  datatype WordKind = Digits | SmallHex | CapitalHex

  predicate IsOf(kind: WordKind, w: string) {
    match kind
    case Digits => AllDigits(w)
    case SmallHex => IsHexLiteral(w)
    case CapitalHex => IsCapitalHex(w)
  }

  /** No word of the text is of the kind, read word by word; a text that starts inside a word has no say
      over that word. */
  predicate NoWord(kind: WordKind, inWord: bool, s: string)
    decreases |s|
  {
    if s == "" then true
    else if IsWord(s[0]) then (inWord || !IsOf(kind, s[..WordRun(s)])) && NoWord(kind, true, s[WordRun(s)..])
    else NoWord(kind, false, s[1..])
  }

  /** Inside a word nothing is matched: the rest of the word is copied. */
  lemma {:induction false} CopyWord(pass: Pass, s: string)
    ensures ReplaceAll(pass, true, s) == s[..WordRun(s)] + ReplaceAll(pass, true, s[WordRun(s)..])
    decreases |s|
  {
    hide MatchLen, ReplaceAll;
    if s == "" || !IsWord(s[0]) {
    } else {
      if MatchLen(pass, true, s) > 0 { MatchEdges(pass, true, s); }
      var t := s[1..];
      ScanStep(pass, true, s);
      CopyWord(pass, t);
      var n := WordRun(t);
      assert s[n + 1..] == t[n..];
      assert s[..n + 1] == [s[0]] + t[..n];
    }
  }

  /** So a word of which only the first character is passed over is copied whole. */
  lemma CopyWholeWord(pass: Pass, s: string)
    requires s != "" && IsWord(s[0])
    ensures [s[0]] + ReplaceAll(pass, true, s[1..]) == s[..WordRun(s)] + ReplaceAll(pass, true, s[WordRun(s)..])
  {
    hide ReplaceAll;
    CopyWord(pass, s[1..]);
    var w := WordRun(s[1..]);
    assert s[1 + w..] == s[1..][w..];
    assert s[..1 + w] == [s[0]] + s[1..][..w];
  }

  /** The flag only matters to the first character. */
  lemma FlagAtEdge(kind: WordKind, a: bool, b: bool, s: string)
    requires Ends(s)
    ensures NoWord(kind, a, s) == NoWord(kind, b, s)
  {
  }

  lemma WordThen(kind: WordKind, inWord: bool, w: string, rest: string)
    requires w != "" && (forall i :: 0 <= i < |w| ==> IsWord(w[i])) && Ends(rest)
    ensures WordRun(w + rest) == |w|
    ensures NoWord(kind, inWord, w + rest) <==> (inWord || !IsOf(kind, w)) && NoWord(kind, true, rest)
  {
    assert (w + rest)[..|w|] == w && (w + rest)[|w|..] == rest;
    assert forall i :: 0 <= i < |w| ==> (w + rest)[i] == w[i];
    assert rest != "" ==> (w + rest)[|w|] == rest[0];
  }

  lemma EdgeKept(pass: Pass, inWord: bool, s: string)
    requires Ends(s)
    ensures Ends(ReplaceAll(pass, inWord, s))
  {
    if s != "" { HeadKept(pass, inWord, s); }
  }

  /** Int finds a word that is all digits. */
  lemma IntFinds(s: string)
    requires s != "" && IsWord(s[0]) && AllDigits(s[..WordRun(s)])
    ensures IntLen(false, s) > 0
  {
    var w := WordRun(s);
    assert forall i :: 0 <= i < w ==> IsDigit(s[..w][i]) && s[..w][i] == s[i];
    assert DigitRun(s) == w;
  }

  lemma {:induction false} DropPrefix(kind: WordKind, inWord: bool, s: string, k: nat)
    requires NoWord(kind, inWord, s) && 0 < k <= |s|
    ensures NoWord(kind, IsWord(s[k - 1]), s[k..])
    decreases |s|
  {
    if IsWord(s[0]) {
      var w := WordRun(s);
      if k < w {
        WordThen(kind, true, s[k..w], s[w..]);
        assert s[k..] == s[k..w] + s[w..];
      } else if k > w {
        DropPrefix(kind, true, s[w..], k - w);
        assert s[w..][k - w..] == s[k..];
      }
    } else if k > 1 {
      DropPrefix(kind, false, s[1..], k - 1);
      assert s[1..][k - 1..] == s[k..];
    }
  }

  /** The passes after Int. */
  predicate AfterInt(pass: Pass) {
    pass.InList? || pass.TuplesMany? || pass.TupleMulti? || pass.Blanks?
  }

  lemma {:induction false} MoreTuplesEnd(s: string)
    ensures MoreTuples(s) > 0 ==> s[MoreTuples(s) - 1] == ')'
    decreases |s|
  {
    hide SeparatorLen, TupleLen;
    var c := SeparatorLen(s);
    var t := s[c..];
    var n := TupleLen(t);
    if c == 0 || n == 0 {
    } else {
      var rest := s[c + n..];
      assert s[c + n - 1] == t[n - 1];
      MoreTuplesEnd(rest);
    }
  }

  lemma TuplesManyEnd(s: string)
    ensures TuplesManyLen(s) > 0 ==> s[TuplesManyLen(s) - 1] == ')'
  {
    hide MoreTuples, TupleLen;
    MoreTuplesEnd(s[TupleLen(s)..]);
  }

  lemma AfterIntEnds(pass: Pass, inWord: bool, s: string)
    requires AfterInt(pass) && MatchLen(pass, inWord, s) > 0
    ensures !IsWord(s[MatchLen(pass, inWord, s) - 1])
  {
    hide InListLen, TuplesManyLen, TupleMultiLen, BlankRun;
    TuplesManyEnd(s);
  }

  lemma OneTuple(rest: string)
    requires NoWord(Digits, false, rest)
    ensures forall f :: NoWord(Digits, f, "(?)" + rest)
  {
    NonWordFirst(Digits, ')', rest);
    NonWordFirst(Digits, '?', [')'] + rest);
    NonWordFirst(Digits, '(', ['?'] + ([')'] + rest));
    assert "(?)" + rest == ['('] + (['?'] + ([')'] + rest));
  }

  lemma ReplacementHasNoDigitWord(pass: Pass, inWord: bool, rest: string)
    requires AfterInt(pass) && NoWord(Digits, false, rest)
    ensures NoWord(Digits, inWord, Replacement(pass) + rest)
  {
    hide NoWord;
    match pass
    case InList => InListHasNoDigitWord(inWord, rest);
    case TuplesMany | TupleMulti => OneTuple(rest);
    case Blanks => NonWordFirst(Digits, ' ', rest);
  }

  lemma InListHasNoDigitWord(inWord: bool, rest: string)
    requires NoWord(Digits, false, rest)
    ensures NoWord(Digits, inWord, "IN (?)" + rest)
  {
    hide NoWord;
    OneTuple(rest);
    NonWordFirst(Digits, ' ', "(?)" + rest);
    assert !IsDigit("IN"[0]);
    WordThen(Digits, inWord, "IN", [' '] + ("(?)" + rest));
    assert "IN (?)" + rest == "IN" + ([' '] + ("(?)" + rest));
  }

  lemma NonWordFirst(kind: WordKind, c: char, rest: string)
    requires !IsWord(c)
    ensures forall f :: NoWord(kind, f, [c] + rest) == NoWord(kind, false, rest)
    ensures [c] + rest != "" && ([c] + rest)[0] == c
  {
    assert ([c] + rest)[1..] == rest;
  }

  /** Behind a number comes no word, so the placeholder stands alone. */
  lemma IntLeavesHole(inWord: bool, s: string, n: nat, out: string)
    requires n == MatchLen(Int, inWord, s) > 0
    requires out == ReplaceAll(Int, IsWord(s[n - 1]), s[n..]) && NoWord(Digits, IsWord(s[n - 1]), out)
    ensures NoWord(Digits, inWord, "?" + out)
  {
    hide ReplaceAll, NoWord, MatchLen;
    MatchStops(Int, inWord, s);
    EdgeKept(Int, IsWord(s[n - 1]), s[n..]);
    FlagAtEdge(Digits, IsWord(s[n - 1]), false, out);
    NonWordFirst(Digits, '?', out);
  }

  lemma IntReplacement()
    ensures Replacement(Int) == "?"
  {
  }

  lemma EmptyHasNoDigitWord(inWord: bool)
    ensures NoWord(Digits, inWord, "")
  {
  }

  lemma IntNotMissed(inWord: bool, s: string)
    requires s != "" && IsWord(s[0]) && AllDigits(s[..WordRun(s)]) && !inWord
    ensures MatchLen(Int, inWord, s) > 0
  {
    IntFinds(s);
  }

  /** Int leaves no word of digits, and the later passes bring none back. */
  lemma {:induction false} PassLeavesNoDigitWord(pass: Pass, inWord: bool, s: string)
    requires pass.Int? || (AfterInt(pass) && NoWord(Digits, inWord, s))
    ensures NoWord(Digits, inWord, ReplaceAll(pass, inWord, s))
    decreases |s|
  {
    hide MatchLen, ReplaceAll, NoWord, Replacement;
    if s == "" {
      EmptyScan(pass, inWord);
      EmptyHasNoDigitWord(inWord);
    } else {
      ScanStep(pass, inWord, s);
      var n := MatchLen(pass, inWord, s);
      if n > 0 {
        var rest := s[n..];
        var out := ReplaceAll(pass, IsWord(s[n - 1]), rest);
        if AfterInt(pass) { DropPrefix(Digits, inWord, s, n); AfterIntEnds(pass, inWord, s); }
        PassLeavesNoDigitWord(pass, IsWord(s[n - 1]), rest);
        if pass.Int? {
          IntLeavesHole(inWord, s, n, out);
          IntReplacement();
        } else {
          ReplacementHasNoDigitWord(pass, inWord, out);
        }
      } else if IsWord(s[0]) {
        var w := WordRun(s);
        CopyWholeWord(pass, s);
        if AfterInt(pass) { DropPrefix(Digits, inWord, s, w); }
        PassLeavesNoDigitWord(pass, true, s[w..]);
        EdgeKept(pass, true, s[w..]);
        WordThen(Digits, inWord, s[..w], ReplaceAll(pass, true, s[w..]));
        if pass.Int? && !inWord && AllDigits(s[..w]) { IntNotMissed(inWord, s); }
        WordThen(Digits, inWord, s[..w], s[w..]);
        assert s == s[..w] + s[w..];
      } else {
        if AfterInt(pass) { DropPrefix(Digits, inWord, s, 1); }
        PassLeavesNoDigitWord(pass, false, s[1..]);
        NonWordFirst(Digits, s[0], ReplaceAll(pass, false, s[1..]));
      }
    }
  }

  // ---------- the template ----------

  /** s[i..j] is a whole word of `s` and has nothing but digits. */
  predicate NumberAt(s: string, i: nat, j: nat) {
    && i < j <= |s|
    && AllDigits(s[i..j])
    && (i == 0 || !IsWord(s[i - 1]))
    && (j == |s| || !IsWord(s[j]))
  }

  lemma NumberIsWordRun(s: string, i: nat, j: nat)
    requires NumberAt(s, i, j)
    ensures WordRun(s[i..]) == j - i && AllDigits(s[i..][..j - i]) && IsWord(s[i])
  {
    var t := s[i..];
    assert t[..j - i] == s[i..j];
    assert forall k :: 0 <= k < j - i ==> t[k] == s[i..j][k];
  }

  lemma NoNumberAt(s: string, i: nat, j: nat)
    requires NoWord(Digits, false, s)
    ensures !NumberAt(s, i, j)
  {
    assert s[0..] == s;
    if NumberAt(s, i, j) {
      NumberIsWordRun(s, i, j);
      if i > 0 { DropPrefix(Digits, false, s, i); }
      assert false;
    }
  }

  /** The text after the last pass, before trimming. */
  function Squashed(sql: string): string {
    Apply(Blanks, Collapsed(Stripped(sql)))
  }

  lemma SquashedObeys(sql: string, rule: Rule)
    ensures Obeys(rule, Squashed(sql))
  {
    StrippedIs(sql);
    CollapsedIs(Stripped(sql));
    hide ReplaceAll, Obeys;
    var s1 := Apply(DoubleQuoted, Apply(SingleQuoted, sql));
    var s2 := Apply(Named, s1);
    var s3 := Apply(Numbered, s2);
    var s4 := Apply(Hex, s3);
    var s5 := Apply(Decimal, s4);
    var s6 := Apply(Int, s5);
    var s7 := Apply(InList, s6);
    var s8 := Apply(TuplesMany, s7);
    var s9 := Apply(TupleMulti, s8);
    if rule.NoNamed? {
      PassObeys(Named, false, s1, rule);
      PassObeys(Numbered, false, s2, rule);
    } else if rule.NoNumbered? {
      PassObeys(Numbered, false, s2, rule);
    }
    if !rule.NoDoubleBlank? {
      PassObeys(Hex, false, s3, rule);
      PassObeys(Decimal, false, s4, rule);
      PassObeys(Int, false, s5, rule);
      PassObeys(InList, false, s6, rule);
      PassObeys(TuplesMany, false, s7, rule);
      PassObeys(TupleMulti, false, s8, rule);
    }
    PassObeys(Blanks, false, s9, rule);
  }

  lemma SquashedHasNoDigitWord(sql: string)
    ensures NoWord(Digits, false, Squashed(sql))
  {
    StrippedIs(sql);
    CollapsedIs(Stripped(sql));
    hide ReplaceAll, NoWord;
    var s6 := Stripped(sql);
    var s7 := Apply(InList, s6);
    var s8 := Apply(TuplesMany, s7);
    PassLeavesNoDigitWord(Int, false, Apply(Decimal, Apply(Hex, Apply(Numbered, Apply(Named,
                                        Apply(DoubleQuoted, Apply(SingleQuoted, sql)))))));
    PassLeavesNoDigitWord(InList, false, s6);
    PassLeavesNoDigitWord(TuplesMany, false, s7);
    PassLeavesNoDigitWord(TupleMulti, false, s8);
    PassLeavesNoDigitWord(Blanks, false, Apply(TupleMulti, s8));
  }

  /** Of the characters that are blanks only the space is left, and the vertical tab, which `\s` does not know. */
  predicate Flat(c: char) {
    9 <= c as int <= 13 ==> c as int == 11
  }

  lemma {:induction false} BlanksBecomeSpaces(inWord: bool, s: string, i: nat)
    requires i < |ReplaceAll(Blanks, inWord, s)|
    ensures Flat(ReplaceAll(Blanks, inWord, s)[i])
    decreases |s|
  {
    hide BlankRun;
    if i == 0 {
    } else {
      var n := BlankRun(s);
      if n > 0 { BlanksBecomeSpaces(IsWord(s[n - 1]), s[n..], i - 1); }
      else { BlanksBecomeSpaces(IsWord(s[0]), s[1..], i - 1); }
    }
  }

  lemma SliceObeys(u: string, a: nat, b: nat, rule: Rule)
    requires Obeys(rule, u) && a <= b <= |u|
    ensures Obeys(rule, u[a..b])
  {
    hide Bad;
  }

  lemma LowerObeys(s: string, rule: Rule)
    requires Obeys(rule, s)
    ensures Obeys(rule, ToLower(s))
  {
    hide ToLower, Bad, Lower;
    var t := ToLower(s);
    forall i | 0 <= i < |t| - 1 ensures !Bad(rule, t[i], t[i + 1]) {
      LowerKeepsBad(rule, s[i], s[i + 1]);
    }
  }

  lemma TrimAndLowerObey(u: string, rule: Rule)
    requires Obeys(rule, u)
    ensures Obeys(rule, ToLower(TrimSpace(u)))
  {
    hide Obeys, ToLower, TrimSpace;
    var a, b := TrimSpaceCuts(u);
    SliceObeys(u, a, b, rule);
    LowerObeys(u[a..b], rule);
  }

  lemma TrimAndLowerKeepNoNumber(u: string, i: nat, j: nat)
    requires NoWord(Digits, false, u)
    ensures !NumberAt(ToLower(TrimSpace(u)), i, j)
  {
    var a, b := TrimSpaceCuts(u);
    hide *;
    NoNumberAt(u, a + i, a + j);
    if NumberAt(ToLower(u[a..b]), i, j) { LowerKeepsNumber(u, a, b, ToLower(u[a..b]), i, j); }
  }

  lemma TrimAndLowerFlatten(u: string, i: nat)
    requires forall k :: 0 <= k < |u| ==> Flat(u[k])
    requires i < |ToLower(TrimSpace(u))|
    ensures var c := ToLower(TrimSpace(u))[i]; !IsUpper(c) && Flat(c)
  {
    var a, b := TrimSpaceCuts(u);
    hide ToLower;
    assert ToLower(u[a..b])[i] == Lower(u[a + i]);
  }

  lemma LowerKeepsSpace(s: string)
    ensures forall i :: 0 <= i < |s| ==> IsSpace(ToLower(s)[i]) == IsSpace(s[i])
  {
    hide ToLower;
  }

  lemma TrimAndLowerLeaveNoEdge(u: string)
    ensures var t := ToLower(TrimSpace(u)); t == "" || (!IsSpace(t[0]) && !IsSpace(t[|t| - 1]))
  {
    var a, b := TrimSpaceCuts(u);
    hide ToLower, TrimSpace, IsSpace;
    LowerKeepsSpace(TrimSpace(u));
  }

  lemma LastSteps(sql: string)
    ensures Normalize(sql) == ToLower(TrimSpace(Squashed(sql)))
  {
    hide ToLower, TrimSpace, Stripped, Collapsed, Apply;
  }

  lemma SquashedIsFlat(sql: string)
    ensures forall k :: 0 <= k < |Squashed(sql)| ==> Flat(Squashed(sql)[k])
  {
    forall k | 0 <= k < |Squashed(sql)| ensures Flat(Squashed(sql)[k]) {
      BlanksBecomeSpaces(false, Collapsed(Stripped(sql)), k);
    }
  }

  lemma LowerKeepsBad(rule: Rule, a: char, b: char)
    ensures Bad(rule, Lower(a), Lower(b)) <==> Bad(rule, a, b)
  {
  }

  lemma LowerKeepsNumber(u: string, a: nat, b: nat, t: string, i: nat, j: nat)
    requires a <= b <= |u| && (a == 0 || IsSpace(u[a - 1])) && (b == |u| || IsSpace(u[b]))
    requires t == ToLower(u[a..b]) && NumberAt(t, i, j)
    ensures NumberAt(u, a + i, a + j)
  {
    hide ToLower;
    assert forall k :: 0 <= k < |t| ==> t[k] == Lower(u[a + k]);
    var v, w := t[i..j], u[a + i..a + j];
    forall k | 0 <= k < |w| ensures IsDigit(w[k]) {
      assert v[k] == Lower(w[k]) && IsDigit(v[k]);
    }
  }

  /** A character that trimming leaves. */
  predicate IsInk(c: char) {
    c != ' ' && !(9 <= c as int <= 13)
  }

  /** What is promised of a template: no word is a number, no `?` goes on with a digit, no `:` or `$` with
      a word, nothing is in upper case, every blank is one space and there is none at either end. */
  ghost predicate IsTemplate(t: string) {
    && (forall i: nat, j: nat :: !NumberAt(t, i, j))
    && Obeys(NoNumbered, t) && Obeys(NoNamed, t) && Obeys(NoDoubleBlank, t)
    && (forall i :: 0 <= i < |t| ==> !IsUpper(t[i]) && Flat(t[i]))
    && (t == "" || (IsInk(t[0]) && IsInk(t[|t| - 1])))
  }

  /** Non-interference: all of it holds of the template of any text at once, although each pass
      establishes one thing and more passes follow. */
  lemma NormalizeIsTemplate(sql: string)
    ensures IsTemplate(Normalize(sql))
  {
    var u := Squashed(sql);
    LastSteps(sql);
    SquashedHasNoDigitWord(sql);
    SquashedIsFlat(sql);
    SquashedObeys(sql, NoNumbered);
    SquashedObeys(sql, NoNamed);
    SquashedObeys(sql, NoDoubleBlank);
    hide Normalize, NumberAt, Squashed, Obeys, NoWord, ToLower, TrimSpace, Flat;
    TrimAndLowerObey(u, NoNumbered);
    TrimAndLowerObey(u, NoNamed);
    TrimAndLowerObey(u, NoDoubleBlank);
    TrimAndLowerLeaveNoEdge(u);
    forall i: nat, j: nat ensures !NumberAt(Normalize(sql), i, j) { TrimAndLowerKeepNoNumber(u, i, j); }
    forall i | 0 <= i < |Normalize(sql)| ensures !IsUpper(Normalize(sql)[i]) && Flat(Normalize(sql)[i]) {
      TrimAndLowerFlatten(u, i);
    }
  }
}
