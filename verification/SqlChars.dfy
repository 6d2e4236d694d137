/** What a match can hold, and so which characters a pass of the SQL normalizer can take away or add. */
module SqlChars {
  import opened Ascii
  import opened Sql
  import opened SqlTemplate

  // ---------- the characters of a match ----------

  predicate ListChar(c: char) {
    c == '(' || c == '?' || c == ',' || c == ')' || IsBlank(c)
  }

  predicate DecimalChar(c: char) {
    IsDigit(c) || c == '.' || c == 'e' || c == 'E' || IsSign(c)
  }

  /** A match of `pass` may hold `c`. */
  predicate MayHold(pass: Pass, c: char) {
    match pass
    case SingleQuoted | DoubleQuoted => true
    case Named => c == ':' || c == '$' || IsWord(c)
    case Numbered => c == '?' || IsDigit(c)
    case Hex => c == 'x' || IsHexChar(c)
    case Decimal => DecimalChar(c)
    case Int => IsDigit(c)
    case InList => Lower(c) == 'i' || Lower(c) == 'n' || ListChar(c)
    case TuplesMany | TupleMulti => ListChar(c)
    case Blanks => IsBlank(c)
  }

  /** The first `n` characters are such. */
  predicate Holds(pass: Pass, s: string, n: nat)
    requires n <= |s|
  {
    forall i :: 0 <= i < n ==> MayHold(pass, s[i])
  }

  lemma HoldsOn(pass: Pass, s: string, k: nat, n: nat)
    requires k + n <= |s| && Holds(pass, s, k) && Holds(pass, s[k..], n)
    ensures Holds(pass, s, k + n)
  {
    hide MayHold;
    forall i | 0 <= i < k + n ensures MayHold(pass, s[i]) {
      if i >= k { assert s[k..][i - k] == s[i]; }
    }
  }

  lemma HoldsOneMore(pass: Pass, s: string, k: nat)
    requires k < |s| && Holds(pass, s, k) && MayHold(pass, s[k])
    ensures Holds(pass, s, k + 1)
  {
    hide MayHold;
  }

  lemma SeparatorHolds(s: string)
    ensures Holds(TupleMulti, s, BlankRun(s))
    ensures Holds(TupleMulti, s, SeparatorLen(s)) && Holds(TupleMulti, s, CloseLen(s))
  {
    hide BlankRun;
    var b := BlankRun(s);
    assert Holds(TupleMulti, s, b);
    if b < |s| && ListChar(s[b]) {
      HoldsOneMore(TupleMulti, s, b);
      var t := s[b + 1..];
      assert Holds(TupleMulti, t, BlankRun(t));
      HoldsOn(TupleMulti, s, b + 1, BlankRun(t));
    }
  }

  lemma {:induction false} TailHolds(s: string)
    ensures Holds(TupleMulti, s, TupleTail(s))
    decreases |s|
  {
    hide Holds, SeparatorLen, CloseLen, TupleTail;
    SeparatorHolds(s);
    var c := SeparatorLen(s);
    if c == 0 {
      TailCloses(s);
    } else {
      TailGoes(s, c);
      if HoleAt(s, c) {
        TailHolds(s[c + 1..]);
        HoldsOneMore(TupleMulti, s, c);
        HoldsOn(TupleMulti, s, c + 1, TupleTail(s[c + 1..]));
      }
      NothingHeld(TupleMulti, s);
    }
  }

  lemma NothingHeld(pass: Pass, s: string)
    ensures Holds(pass, s, 0)
  {
  }

  lemma HeadHolds(s: string)
    ensures Holds(TupleMulti, s, TupleHead(s))
  {
    hide BlankRun;
    if TupleHead(s) > 0 {
      var t := s[1..];
      assert Holds(TupleMulti, t, BlankRun(t));
      HoldsOn(TupleMulti, s, 1, BlankRun(t));
      HoldsOneMore(TupleMulti, s, 1 + BlankRun(t));
    }
  }

  lemma TupleHolds(s: string)
    ensures Holds(TupleMulti, s, TupleLen(s))
  {
    hide Holds, TupleHead, TupleTail;
    var h := TupleHead(s);
    HeadHolds(s);
    TailHolds(s[h..]);
    NothingHeld(TupleMulti, s);
    if TupleLen(s) > 0 { HoldsOn(TupleMulti, s, h, TupleTail(s[h..])); }
  }

  lemma {:induction false} MoreHolds(s: string)
    ensures Holds(TupleMulti, s, MoreTuples(s))
    decreases |s|
  {
    hide Holds, SeparatorLen, TupleLen;
    var c := SeparatorLen(s);
    var n := TupleLen(s[c..]);
    NothingHeld(TupleMulti, s);
    if c == 0 || n == 0 {
    } else {
      SeparatorHolds(s);
      TupleHolds(s[c..]);
      MoreHolds(s[c + n..]);
      HoldsThrough(TupleMulti, s, c, n, MoreTuples(s[c + n..]));
    }
  }

  lemma HoldsThrough(pass: Pass, s: string, a: nat, b: nat, c: nat)
    requires a + b + c <= |s| && Holds(pass, s, a) && Holds(pass, s[a..], b) && Holds(pass, s[a + b..], c)
    ensures Holds(pass, s, a + b + c)
  {
    hide Holds;
    HoldsOn(pass, s, a, b);
    HoldsOn(pass, s, a + b, c);
  }

  lemma RowsHold(s: string)
    ensures Holds(TupleMulti, s, TuplesManyLen(s))
  {
    hide Holds, TupleLen, MoreTuples;
    var n := TupleLen(s);
    NothingHeld(TupleMulti, s);
    TupleHolds(s);
    MoreHolds(s[n..]);
    if TuplesManyLen(s) > 0 { HoldsOn(TupleMulti, s, n, MoreTuples(s[n..])); }
  }

  lemma Wider(s: string, n: nat)
    requires n <= |s| && Holds(TupleMulti, s, n)
    ensures Holds(InList, s, n) && Holds(TuplesMany, s, n)
  {
    hide ListChar, Lower;
    forall i | 0 <= i < n ensures MayHold(InList, s[i]) && MayHold(TuplesMany, s[i]) {
      assert MayHold(TupleMulti, s[i]);
    }
  }

  lemma InHeadHolds(inWord: bool, s: string)
    ensures Holds(InList, s, InHead(inWord, s))
  {
    hide BlankRun;
    if InHead(inWord, s) > 0 {
      var t := s[2..];
      assert Holds(InList, t, BlankRun(t));
      HoldsOn(InList, s, 2, BlankRun(t));
    }
  }

  lemma InListHolds(inWord: bool, s: string)
    ensures Holds(InList, s, InListLen(inWord, s))
  {
    hide Holds, TupleLen, InHead;
    var h := InHead(inWord, s);
    NothingHeld(InList, s);
    InHeadHolds(inWord, s);
    TupleHolds(s[h..]);
    Wider(s[h..], TupleLen(s[h..]));
    if InListLen(inWord, s) > 0 { HoldsOn(InList, s, h, TupleLen(s[h..])); }
  }

  lemma ExponentHolds(s: string)
    requires ExponentLen(s).Some?
    ensures Holds(Decimal, s, ExponentLen(s).value)
  {
    hide DigitRun;
    if ExponentLen(s).value > 0 {
      var k := 1 + SignLen(s);
      assert Holds(Decimal, s, k);
      assert Holds(Decimal, s[k..], DigitRun(s[k..]));
      HoldsOn(Decimal, s, k, DigitRun(s[k..]));
    }
  }

  lemma DecimalHolds(inWord: bool, s: string)
    ensures Holds(Decimal, s, DecimalLen(inWord, s))
  {
    hide DigitRun, ExponentLen;
    if DecimalLen(inWord, s) > 0 {
      var whole := DigitRun(s);
      var f := s[whole + 1..];
      var digits := DigitRun(f);
      assert Holds(Decimal, s, whole + 1);
      assert Holds(Decimal, f, digits);
      ExponentHolds(f[digits..]);
      HoldsOn(Decimal, f, digits, ExponentLen(f[digits..]).value);
      HoldsOn(Decimal, s, whole + 1, FractionLen(f).value);
    }
  }

  lemma MatchHolds(pass: Pass, inWord: bool, s: string)
    ensures Holds(pass, s, MatchLen(pass, inWord, s))
  {
    match pass
    case Decimal => DecimalHolds(inWord, s);
    case InList => InListHolds(inWord, s);
    case TuplesMany =>
      RowsHold(s);
      Wider(s, TuplesManyLen(s));
    case TupleMulti =>
      TupleHolds(s);
    case Hex => HexHolds(inWord, s);
    case _ =>
  }

  lemma HexHolds(inWord: bool, s: string)
    ensures Holds(Hex, s, HexLen(inWord, s))
  {
    hide HexRun;
    if HexLen(inWord, s) > 0 {
      assert Holds(Hex, s[2..], HexRun(s[2..]));
      HoldsOn(Hex, s, 2, HexRun(s[2..]));
    }
  }

  // ---------- counting ----------

  function Count(c: char, s: string): nat {
    if s == "" then 0 else (if s[0] == c then 1 else 0) + Count(c, s[1..])
  }

  lemma {:induction false} CountOver(c: char, a: string, b: string)
    ensures Count(c, a + b) == Count(c, a) + Count(c, b)
  {
    if a == "" {
      assert a + b == b;
    } else {
      CountOver(c, a[1..], b);
      assert (a + b)[1..] == a[1..] + b;
    }
  }

  lemma {:induction false} CountNone(c: char, s: string)
    ensures Count(c, s) == 0 <==> c !in s
  {
    if s == "" {
    } else {
      CountNone(c, s[1..]);
      assert s == [s[0]] + s[1..];
    }
  }

  lemma CountStep(c: char, pass: Pass, inWord: bool, s: string)
    requires s != ""
    ensures var n := MatchLen(pass, inWord, s);
      Count(c, ReplaceAll(pass, inWord, s))
      == if n > 0 then Count(c, Replacement(pass)) + Count(c, ReplaceAll(pass, IsWord(s[n - 1]), s[n..]))
         else Count(c, [s[0]]) + Count(c, ReplaceAll(pass, IsWord(s[0]), s[1..]))
  {
    hide MatchLen, ReplaceAll, Replacement, IsWord, Count;
    ScanStep(pass, inWord, s);
    var n := MatchLen(pass, inWord, s);
    if n > 0 { CountOver(c, Replacement(pass), ReplaceAll(pass, IsWord(s[n - 1]), s[n..])); }
    else { CountOver(c, [s[0]], ReplaceAll(pass, IsWord(s[0]), s[1..])); }
  }

  lemma CountCut(c: char, s: string, k: nat)
    requires k <= |s|
    ensures Count(c, s) == Count(c, s[..k]) + Count(c, s[k..])
  {
    hide Count;
    assert s == s[..k] + s[k..];
    CountOver(c, s[..k], s[k..]);
  }

  /** A pass adds nothing that it does not write. */
  lemma {:induction false} PassAddsNone(c: char, pass: Pass, inWord: bool, s: string)
    requires c !in Replacement(pass)
    ensures Count(c, ReplaceAll(pass, inWord, s)) <= Count(c, s)
    decreases |s|
  {
    hide MatchLen, ReplaceAll, Replacement, IsWord, Count;
    if s == "" {
      EmptyScan(pass, inWord);
    } else {
      var n := MatchLen(pass, inWord, s);
      CountStep(c, pass, inWord, s);
      CountNone(c, Replacement(pass));
      if n > 0 {
        CountCut(c, s, n);
        PassAddsNone(c, pass, IsWord(s[n - 1]), s[n..]);
      } else {
        CountCut(c, s, 1);
        assert s[..1] == [s[0]];
        PassAddsNone(c, pass, IsWord(s[0]), s[1..]);
      }
    }
  }

  lemma MatchHoldsNone(c: char, pass: Pass, inWord: bool, s: string)
    requires !MayHold(pass, c)
    ensures Count(c, s[..MatchLen(pass, inWord, s)]) == 0
  {
    hide MatchLen, MayHold, Count;
    MatchHolds(pass, inWord, s);
    CountNone(c, s[..MatchLen(pass, inWord, s)]);
  }

  /** A pass takes nothing away that its matches cannot hold. */
  lemma {:induction false} PassKeepsCount(c: char, pass: Pass, inWord: bool, s: string)
    requires !MayHold(pass, c) && c !in Replacement(pass)
    ensures Count(c, ReplaceAll(pass, inWord, s)) == Count(c, s)
    decreases |s|
  {
    hide MatchLen, ReplaceAll, Replacement, IsWord, Count, MayHold;
    if s == "" {
      EmptyScan(pass, inWord);
    } else {
      var n := MatchLen(pass, inWord, s);
      CountStep(c, pass, inWord, s);
      CountNone(c, Replacement(pass));
      if n > 0 {
        CountCut(c, s, n);
        MatchHoldsNone(c, pass, inWord, s);
        PassKeepsCount(c, pass, IsWord(s[n - 1]), s[n..]);
      } else {
        CountCut(c, s, 1);
        assert s[..1] == [s[0]];
        PassKeepsCount(c, pass, IsWord(s[0]), s[1..]);
      }
    }
  }

  // ---------- quotes ----------

  /** The text when the string literals have been read. */
  function WithoutStrings(sql: string): string {
    Apply(DoubleQuoted, Apply(SingleQuoted, sql))
  }

  lemma QuoteStays(c: char, pass: Pass, s: string)
    requires IsQuote(c) && !pass.SingleQuoted? && !pass.DoubleQuoted?
    ensures Count(c, Apply(pass, s)) == Count(c, s)
  {
    PassKeepsCount(c, pass, false, s);
  }

  lemma {:induction false} CountLower(c: char, s: string)
    requires IsQuote(c)
    ensures Count(c, ToLower(s)) == Count(c, s)
  {
    if s == "" {
    } else {
      CountLower(c, s[1..]);
      assert ToLower(s)[1..] == ToLower(s[1..]);
    }
  }

  lemma {:induction false} CountTrimLeft(c: char, s: string)
    requires IsQuote(c)
    ensures Count(c, TrimLeft(s)) == Count(c, s)
  {
    if s == "" || !IsSpace(s[0]) {
    } else {
      CountTrimLeft(c, s[1..]);
    }
  }

  lemma {:induction false} CountTrimRight(c: char, s: string)
    requires IsQuote(c)
    ensures Count(c, TrimRight(s)) == Count(c, s)
    decreases |s|
  {
    if s == "" || !IsSpace(s[|s| - 1]) {
    } else {
      CountTrimRight(c, s[..|s| - 1]);
      CountCut(c, s, |s| - 1);
      CountNone(c, s[|s| - 1..]);
    }
  }

  lemma CountAtEnd(c: char, u: string)
    requires IsQuote(c)
    ensures Count(c, ToLower(TrimSpace(u))) == Count(c, u)
  {
    hide *;
    CountTrimLeft(c, u);
    CountTrimRight(c, TrimLeft(u));
    CountLower(c, TrimSpace(u));
    assert TrimSpace(u) == TrimRight(TrimLeft(u)) by { TrimIs(u); }
  }

  lemma TrimIs(u: string)
    ensures TrimSpace(u) == TrimRight(TrimLeft(u))
  {
  }

  /** The quotes that no literal took away are in the template. */
  lemma QuotesReachTemplate(c: char, sql: string)
    requires IsQuote(c)
    ensures Count(c, Normalize(sql)) == Count(c, WithoutStrings(sql))
  {
    LastSteps(sql);
    StrippedIs(sql);
    CollapsedIs(Stripped(sql));
    hide Apply, Normalize, Stripped, Collapsed, Count, ToLower, TrimSpace;
    var s2 := WithoutStrings(sql);
    var s3 := Apply(Named, s2);
    var s4 := Apply(Numbered, s3);
    var s5 := Apply(Hex, s4);
    var s6 := Apply(Decimal, s5);
    var s7 := Apply(Int, s6);
    var s8 := Apply(InList, s7);
    var s9 := Apply(TuplesMany, s8);
    var s10 := Apply(TupleMulti, s9);
    QuoteStays(c, Named, s2);
    QuoteStays(c, Numbered, s3);
    QuoteStays(c, Hex, s4);
    QuoteStays(c, Decimal, s5);
    QuoteStays(c, Int, s6);
    QuoteStays(c, InList, s7);
    QuoteStays(c, TuplesMany, s8);
    QuoteStays(c, TupleMulti, s9);
    QuoteStays(c, Blanks, s10);
    CountAtEnd(c, Squashed(sql));
  }
}
