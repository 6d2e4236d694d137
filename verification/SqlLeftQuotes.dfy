/** Which string literals reach a template: those that the quote passes missed only because a line feed stands
    behind a backslash in them. */
module SqlLeftQuotes {
  import opened Prelude
  import opened Ascii
  import opened Sql
  import opened SqlTemplate
  import opened SqlBlocks
  import opened SqlChars
  import opened SqlLiterals

  // ---------- literals, when a line feed is a character like any other ----------

  /** A literal opened before the text closes in it. */
  predicate Closes(quote: char, s: string)
    decreases |s|
  {
    s != "" && (s[0] == quote || if s[0] == '\\' then |s| > 1 && Closes(quote, s[2..]) else Closes(quote, s[1..]))
  }

  /** The same where a backslash stands in front. */
  predicate ClosesEscaped(quote: char, s: string) {
    s != "" && Closes(quote, s[1..])
  }

  /** Some quote opens a literal that closes. */
  predicate HasLiteral(quote: char, s: string) {
    s != "" && ((s[0] == quote && Closes(quote, s[1..])) || HasLiteral(quote, s[1..]))
  }

  lemma {:induction false} ClosesIsLiteral(quote: char, s: string)
    requires IsQuote(quote) && !LineFeedEscaped(s)
    ensures Literal(quote, s).Some? <==> Closes(quote, s)
    decreases |s|
  {
    if s == "" {
    } else if s[0] == '\\' {
      if |s| > 1 {
        EscapedBehind(s, 2);
        ClosesIsLiteral(quote, s[2..]);
      }
    } else if s[0] != quote {
      EscapedBehind(s, 1);
      ClosesIsLiteral(quote, s[1..]);
    }
  }

  /** What the quote passes do not read over: a line feed behind a backslash. */
  predicate LineFeedEscaped(s: string) {
    exists i :: 0 <= i < |s| - 1 && s[i] == '\\' && s[i + 1] == '\n'
  }

  lemma EscapedBehind(s: string, k: nat)
    requires k <= |s| && !LineFeedEscaped(s)
    ensures !LineFeedEscaped(s[k..])
  {
  }

  /** A quote pass is idle exactly where no literal is left. */
  lemma {:induction false} IdleIff(quote: char, inWord: bool, s: string)
    requires IsQuote(quote) && !LineFeedEscaped(s)
    ensures Idle(Reader(quote), inWord, s) <==> !HasLiteral(quote, s)
    decreases |s|
  {
    hide Idle, Literal, Closes, LineFeedEscaped;
    if s == "" {
      NothingIdle(quote, inWord);
    } else {
      EscapedBehind(s, 1);
      ClosesIsLiteral(quote, s[1..]);
      IdleStep(Reader(quote), inWord, s);
      IdleIff(quote, IsWord(s[0]), s[1..]);
    }
  }

  lemma NothingIdle(quote: char, inWord: bool)
    requires IsQuote(quote)
    ensures Idle(Reader(quote), inWord, "")
  {
  }

  // ---------- two texts with the same literals ----------

  predicate Unmarked(s: string) {
    forall i :: 0 <= i < |s| ==> s[i] != '\'' && s[i] != '"' && s[i] != '\\'
  }

  /** Whatever stands in front, the two texts go on alike. */
  predicate Alike(quote: char, s: string, t: string) {
    && (Closes(quote, s) <==> Closes(quote, t))
    && (ClosesEscaped(quote, s) <==> ClosesEscaped(quote, t))
    && (HasLiteral(quote, s) <==> HasLiteral(quote, t))
  }

  lemma Unfolds(quote: char, c: char, s: string)
    requires IsQuote(quote)
    ensures Closes(quote, [c] + s) <==> c == quote || if c == '\\' then ClosesEscaped(quote, s) else Closes(quote, s)
    ensures ClosesEscaped(quote, [c] + s) <==> Closes(quote, s)
    ensures HasLiteral(quote, [c] + s) <==> (c == quote && Closes(quote, s)) || HasLiteral(quote, s)
  {
    var t := [c] + s;
    assert t[1..] == s;
    if s != "" { assert t[2..] == s[1..]; }
  }

  lemma AlikeBehind(quote: char, c: char, s: string, t: string)
    requires IsQuote(quote) && Alike(quote, s, t)
    ensures Alike(quote, [c] + s, [c] + t)
  {
    Unfolds(quote, c, s);
    Unfolds(quote, c, t);
    hide Closes, ClosesEscaped, HasLiteral;
  }

  lemma {:induction false} OverUnmarked(quote: char, b: string, z: string)
    requires IsQuote(quote) && Unmarked(b)
    ensures Closes(quote, b + z) == Closes(quote, z) && HasLiteral(quote, b + z) == HasLiteral(quote, z)
    decreases |b|
  {
    hide Closes, HasLiteral;
    if b == "" {
      assert b + z == z;
    } else {
      OverUnmarked(quote, b[1..], z);
      assert b + z == [b[0]] + (b[1..] + z);
      Unfolds(quote, b[0], b[1..] + z);
    }
  }

  lemma AlikeBehindBlocks(quote: char, b: string, r: string, s: string, t: string)
    requires IsQuote(quote) && Unmarked(b) && Unmarked(r) && b != "" && r != "" && Alike(quote, s, t)
    ensures Alike(quote, b + s, r + t)
  {
    OverUnmarked(quote, b, s);
    OverUnmarked(quote, r, t);
    OverUnmarked(quote, b[1..], s);
    OverUnmarked(quote, r[1..], t);
    assert (b + s)[1..] == b[1..] + s && (r + t)[1..] == r[1..] + t;
    hide Closes, HasLiteral, Unmarked;
  }

  // ---------- the passes ----------

  /** A pass that reads no quotes. */
  predicate Ordinary(pass: Pass) {
    !pass.SingleQuoted? && !pass.DoubleQuoted?
  }

  lemma MatchUnmarked(pass: Pass, inWord: bool, s: string)
    requires Ordinary(pass)
    ensures Unmarked(s[..MatchLen(pass, inWord, s)]) && Unmarked(Replacement(pass)) && Replacement(pass) != ""
  {
    hide MatchLen, MayHold;
    MatchHolds(pass, inWord, s);
    MarksNotHeld(pass);
  }

  lemma MarksNotHeld(pass: Pass)
    requires Ordinary(pass)
    ensures !MayHold(pass, '\'') && !MayHold(pass, '"') && !MayHold(pass, '\\')
  {
  }

  /** The other passes neither open nor close a literal. */
  lemma {:induction false} PassKeepsLiterals(quote: char, pass: Pass, inWord: bool, s: string)
    requires IsQuote(quote) && Ordinary(pass)
    ensures Alike(quote, s, ReplaceAll(pass, inWord, s))
    decreases |s|
  {
    hide MatchLen, ReplaceAll, Replacement, IsWord, Alike, Ordinary;
    if s == "" {
      EmptyScan(pass, inWord);
      SelfAlike(quote, s);
    } else {
      var n := MatchLen(pass, inWord, s);
      ScanStep(pass, inWord, s);
      if n > 0 {
        MatchUnmarked(pass, inWord, s);
        PassKeepsLiterals(quote, pass, IsWord(s[n - 1]), s[n..]);
        AlikeBehindBlocks(quote, s[..n], Replacement(pass), s[n..], ReplaceAll(pass, IsWord(s[n - 1]), s[n..]));
        assert s == s[..n] + s[n..];
      } else {
        PassKeepsLiterals(quote, pass, IsWord(s[0]), s[1..]);
        AlikeBehind(quote, s[0], s[1..], ReplaceAll(pass, IsWord(s[0]), s[1..]));
        assert s == [s[0]] + s[1..];
      }
    }
  }

  lemma SelfAlike(quote: char, s: string)
    ensures Alike(quote, s, s)
  {
  }

  lemma PassKeeps(quote: char, pass: Pass, s: string)
    requires IsQuote(quote) && Ordinary(pass)
    ensures HasLiteral(quote, Apply(pass, s)) == HasLiteral(quote, s)
  {
    hide ReplaceAll, HasLiteral, Closes, ClosesEscaped;
    PassKeepsLiterals(quote, pass, false, s);
  }

  // ---------- the last steps ----------

  lemma {:induction false} TrimLeftKeeps(quote: char, s: string)
    requires IsQuote(quote)
    ensures HasLiteral(quote, TrimLeft(s)) == HasLiteral(quote, s)
  {
    hide Closes;
    if s == "" || !IsSpace(s[0]) {
    } else {
      TrimLeftKeeps(quote, s[1..]);
    }
  }

  lemma {:induction false} BlankBehind(quote: char, s: string, c: char)
    requires IsQuote(quote) && IsSpace(c)
    ensures Alike(quote, s + [c], s)
    decreases |s|
  {
    if s == "" {
      Unfolds(quote, c, "");
      assert s + [c] == [c] + "";
    } else {
      hide Alike;
      BlankBehind(quote, s[1..], c);
      AlikeBehind(quote, s[0], s[1..] + [c], s[1..]);
      assert s + [c] == [s[0]] + (s[1..] + [c]) && s == [s[0]] + s[1..];
    }
  }

  lemma {:induction false} TrimRightKeeps(quote: char, s: string)
    requires IsQuote(quote)
    ensures HasLiteral(quote, TrimRight(s)) == HasLiteral(quote, s)
    decreases |s|
  {
    hide Closes, HasLiteral;
    if s == "" || !IsSpace(s[|s| - 1]) {
    } else {
      var t := s[..|s| - 1];
      TrimRightKeeps(quote, t);
      BlankBehind(quote, t, s[|s| - 1]);
      assert s == t + [s[|s| - 1]];
    }
  }

  lemma {:induction false} LowerKeeps(quote: char, s: string)
    requires IsQuote(quote)
    ensures Alike(quote, ToLower(s), s)
    decreases |s|
  {
    hide Alike;
    if s == "" {
      SelfAlike(quote, s);
    } else {
      var c := s[0];
      LowerKeeps(quote, s[1..]);
      assert ToLower(s) == [Lower(c)] + ToLower(s[1..]) && s == [c] + s[1..];
      hide ToLower;
      if Lower(c) == c {
        AlikeBehind(quote, c, ToLower(s[1..]), s[1..]);
      } else {
        AlikeBehindBlocks(quote, [Lower(c)], [c], ToLower(s[1..]), s[1..]);
      }
    }
  }

  lemma EndKeeps(quote: char, u: string)
    requires IsQuote(quote)
    ensures HasLiteral(quote, ToLower(TrimSpace(u))) == HasLiteral(quote, u)
  {
    TrimIs(u);
    hide HasLiteral, Closes, ClosesEscaped, ToLower, TrimLeft, TrimRight, TrimSpace;
    TrimLeftKeeps(quote, u);
    TrimRightKeeps(quote, TrimLeft(u));
    LowerKeeps(quote, TrimSpace(u));
  }

  lemma SquashedKeeps(quote: char, sql: string)
    requires IsQuote(quote)
    ensures HasLiteral(quote, Squashed(sql)) == HasLiteral(quote, WithoutStrings(sql))
  {
    StrippedIs(sql);
    CollapsedIs(Stripped(sql));
    hide Apply, HasLiteral, Stripped, Collapsed;
    var s2 := WithoutStrings(sql);
    var s3 := Apply(Named, s2);
    var s4 := Apply(Numbered, s3);
    var s5 := Apply(Hex, s4);
    var s6 := Apply(Decimal, s5);
    var s7 := Apply(Int, s6);
    var s8 := Apply(InList, s7);
    var s9 := Apply(TuplesMany, s8);
    var s10 := Apply(TupleMulti, s9);
    PassKeeps(quote, Named, s2);
    PassKeeps(quote, Numbered, s3);
    PassKeeps(quote, Hex, s4);
    PassKeeps(quote, Decimal, s5);
    PassKeeps(quote, Int, s6);
    PassKeeps(quote, InList, s7);
    PassKeeps(quote, TuplesMany, s8);
    PassKeeps(quote, TupleMulti, s9);
    PassKeeps(quote, Blanks, s10);
  }

  lemma NoLineFeed(sql: string)
    ensures !LineFeedEscaped(Normalize(sql))
  {
    NormalizeIsTemplate(sql);
    hide Normalize, Obeys, NumberAt;
    assert forall i :: 0 <= i < |Normalize(sql)| ==> Flat(Normalize(sql)[i]);
  }

  /** A template has a string literal exactly when the quote passes left one that closes behind a backslash
      and a line feed. */
  lemma TemplateLiteral(quote: char, sql: string)
    requires IsQuote(quote)
    ensures Idle(Reader(quote), false, Normalize(sql)) <==> !HasLiteral(quote, WithoutStrings(sql))
  {
    hide Normalize, Idle, HasLiteral, WithoutStrings, LineFeedEscaped, Squashed, ToLower, TrimSpace;
    NoLineFeed(sql);
    IdleIff(quote, false, Normalize(sql));
    LastSteps(sql);
    EndKeeps(quote, Squashed(sql));
    SquashedKeeps(quote, sql);
  }

  // ---------- without such a line feed none is left ----------

  /** What closes a literal in `t`, or opens one, is also in `s`. */
  predicate NoMore(quote: char, s: string, t: string) {
    && (Closes(quote, t) ==> Closes(quote, s))
    && (ClosesEscaped(quote, t) ==> ClosesEscaped(quote, s))
    && (HasLiteral(quote, t) ==> HasLiteral(quote, s))
  }

  lemma NoMoreBehind(quote: char, c: char, s: string, t: string)
    requires IsQuote(quote) && NoMore(quote, s, t)
    ensures NoMore(quote, [c] + s, [c] + t)
  {
    Unfolds(quote, c, s);
    Unfolds(quote, c, t);
    hide Closes, ClosesEscaped, HasLiteral;
  }

  /** A literal between the other quotes hides no closing quote from what stands before it. */
  lemma {:induction false} ClosesOver(quote: char, other: char, s: string)
    requires IsQuote(quote) && IsQuote(other) && Literal(other, s).Some?
    requires Closes(quote, s[Literal(other, s).value..])
    ensures Closes(quote, s)
    decreases |s|
  {
    var n := Literal(other, s).value;
    if s[0] == quote {
    } else if s[0] == other {
      if n > 1 {
        ClosesOver(quote, other, s[2..]);
        assert s[2..][n - 2..] == s[n..] && s[1..][1..] == s[2..];
      }
    } else if s[0] == '\\' {
      assert s[2..][n - 2..] == s[n..];
      ClosesOver(quote, other, s[2..]);
    } else {
      assert s[1..][n - 1..] == s[n..];
      ClosesOver(quote, other, s[1..]);
    }
  }

  lemma {:induction false} HasLiteralBehind(quote: char, s: string, k: nat)
    requires k <= |s| && HasLiteral(quote, s[k..])
    ensures HasLiteral(quote, s)
    decreases k
  {
    hide Closes;
    if k == 0 {
      assert s[0..] == s;
    } else {
      assert s[1..][k - 1..] == s[k..];
      HasLiteralBehind(quote, s[1..], k - 1);
    }
  }

  /** Reading a literal brings nothing. */
  lemma NoMoreOverLiteral(quote: char, other: char, s: string, t: string)
    requires IsQuote(quote) && IsQuote(other) && QuotedLen(other, s) > 0 && NoMore(quote, s[QuotedLen(other, s)..], t)
    ensures NoMore(quote, s, "?" + t)
  {
    var n := QuotedLen(other, s);
    assert s[1..][n - 1..] == s[n..];
    Unfolds(quote, '?', t);
    assert ['?'] == "?" && s == [s[0]] + s[1..];
    Unfolds(quote, s[0], s[1..]);
    if Closes(quote, s[n..]) { ClosesOver(quote, other, s[1..]); }
    if HasLiteral(quote, s[n..]) { HasLiteralBehind(quote, s, n); }
    hide Closes, ClosesEscaped, HasLiteral, Literal;
  }

  lemma {:induction false} ReadNoMore(quote: char, other: char, s: string)
    requires IsQuote(quote) && IsQuote(other)
    ensures NoMore(quote, s, Apply(Reader(other), s))
    decreases |s|
  {
    hide Apply, QuotedLen, NoMore;
    if s == "" {
      ReadNothing(other);
      NothingMore(quote);
    } else {
      ReadStep(other, s);
      var n := QuotedLen(other, s);
      if n > 0 {
        ReadNoMore(quote, other, s[n..]);
        NoMoreOverLiteral(quote, other, s, Apply(Reader(other), s[n..]));
      } else {
        ReadNoMore(quote, other, s[1..]);
        NoMoreBehind(quote, s[0], s[1..], Apply(Reader(other), s[1..]));
        assert s == [s[0]] + s[1..];
      }
    }
  }

  lemma NothingMore(quote: char)
    ensures NoMore(quote, "", "")
  {
  }

  /** A quote pass leaves none of its literals. */
  lemma {:induction false} ReadLeavesNone(quote: char, s: string)
    requires IsQuote(quote) && !LineFeedEscaped(s)
    ensures !HasLiteral(quote, Apply(Reader(quote), s))
    decreases |s|
  {
    hide Apply, Literal, HasLiteral, Closes, LineFeedEscaped;
    if s == "" {
      ReadNothing(quote);
      assert !HasLiteral(quote, "") by { NothingLeft(quote); }
    } else {
      ReadStep(quote, s);
      var n := QuotedLen(quote, s);
      var k := if n > 0 then n else 1;
      EscapedBehind(s, k);
      ReadLeavesNone(quote, s[k..]);
      Unfolds(quote, if n > 0 then '?' else s[0], Apply(Reader(quote), s[k..]));
      assert ['?'] == "?";
      if n == 0 {
        ClosesIsLiteral(quote, s[1..]);
        ReadNoMore(quote, quote, s[1..]);
      }
    }
  }

  lemma NothingLeft(quote: char)
    ensures !HasLiteral(quote, "")
  {
  }

  lemma {:induction false} ReadEscapesNone(quote: char, s: string)
    requires IsQuote(quote) && !LineFeedEscaped(s)
    ensures !LineFeedEscaped(Apply(Reader(quote), s))
    decreases |s|
  {
    hide Apply, QuotedLen, LineFeedEscaped;
    if s == "" {
      ReadNothing(quote);
    } else {
      ReadStep(quote, s);
      var n := QuotedLen(quote, s);
      var k := if n > 0 then n else 1;
      EscapedBehind(s, k);
      ReadEscapesNone(quote, s[k..]);
      var c, out := if n > 0 then '?' else s[0], Apply(Reader(quote), s[k..]);
      assert ['?'] == "?";
      if s[k..] == "" { ReadNothing(quote); } else { ReadStep(quote, s[k..]); }
      assert c == '\\' && out != "" ==> out[0] == '?' || out[0] == s[1];
      NotEscapedHere(s);
      EscapedInFront(c, out);
    }
  }

  lemma NotEscapedHere(s: string)
    requires !LineFeedEscaped(s)
    ensures |s| > 1 && s[0] == '\\' ==> s[1] != '\n'
  {
  }

  lemma EscapedInFront(c: char, s: string)
    requires !LineFeedEscaped(s) && (c == '\\' && s != "" ==> s[0] != '\n')
    ensures !LineFeedEscaped([c] + s)
  {
  }

  /** The passes miss a literal only for a line feed behind a backslash. */
  lemma NoneLeft(quote: char, sql: string)
    requires IsQuote(quote) && !LineFeedEscaped(sql)
    ensures !HasLiteral(quote, WithoutStrings(sql))
  {
    hide Apply, HasLiteral, LineFeedEscaped, Closes, ClosesEscaped;
    var s1 := Apply(Reader('\''), sql);
    ReadEscapesNone('\'', sql);
    ReadLeavesNone('\'', sql);
    ReadLeavesNone('"', s1);
    ReadNoMore('\'', '"', s1);
  }
}
