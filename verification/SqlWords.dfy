/** Which words the normalizer takes for literals, and what that means for a second run. */
module SqlWords {
  import opened Ascii
  import opened Sql
  import opened SqlTemplate

  predicate IsWordText(w: string) {
    w != "" && forall i :: 0 <= i < |w| ==> IsWord(w[i])
  }

  lemma WordIsRun(w: string)
    requires IsWordText(w)
    ensures WordRun(w) == |w|
    ensures DigitRun(w) == |w| <==> AllDigits(w)
  {
  }

  lemma HexMatchesWord(w: string)
    requires IsWordText(w)
    ensures HexLen(false, w) == if IsHexLiteral(w) then |w| else 0
  {
    if |w| > 2 {
      var t := w[2..];
      assert forall i :: 0 <= i < |t| ==> t[i] == w[i + 2];
      assert HexRun(t) < |t| ==> t[HexRun(t)..][0] == t[HexRun(t)];
      assert HexRun(t) == |t| <==> forall i :: 2 <= i < |w| ==> IsHexChar(w[i]) by {
        assert forall i :: 2 <= i < |w| ==> w[i] == t[i - 2];
      }
    }
  }

  lemma IntMatchesWord(w: string)
    requires IsWordText(w)
    ensures IntLen(false, w) == if AllDigits(w) then |w| else 0
  {
    WordIsRun(w);
    if DigitRun(w) < |w| { assert w[DigitRun(w)..][0] == w[DigitRun(w)]; }
  }

  lemma OthersMissWord(pass: Pass, w: string)
    requires IsWordText(w) && !pass.Hex? && !pass.Int?
    ensures MatchLen(pass, false, w) == 0
  {
    if MatchLen(pass, false, w) > 0 { MatchEdges(pass, false, w); }
    if pass.InList? {
      hide TupleTail;
      if |w| > 1 { assert w[2..] == "" || w[2..][0] == w[2]; }
    }
  }

  /** A pass copies a word it does not match. */
  lemma PassOnWord(pass: Pass, w: string)
    requires IsWordText(w)
    ensures Apply(pass, w)
         == if (pass.Hex? && IsHexLiteral(w)) || (pass.Int? && AllDigits(w)) then "?" else w
  {
    if pass.Hex? { HexMatchesWord(w); }
    else if pass.Int? { IntMatchesWord(w); }
    else { OthersMissWord(pass, w); }
    WordIsRun(w);
    hide HexLen, IntLen, WordRun;
    if MatchLen(pass, false, w) == 0 {
      hide MatchLen;
      CopyWholeWord(pass, w);
      assert w[..|w|] == w && w[|w|..] == "";
    }
  }

  lemma PassOnHole(pass: Pass)
    ensures Apply(pass, "?") == "?"
  {
    assert MatchLen(pass, false, "?") == 0;
    assert "?"[1..] == "";
  }

  lemma WordIsTrim(w: string)
    requires w == "?" || IsWordText(w)
    ensures TrimSpace(w) == w
  {
  }

  /** What the literal passes make of a word. */
  function Read(w: string): string {
    if AllDigits(w) || IsHexLiteral(w) then "?" else w
  }

  lemma StrippedHole()
    ensures Apply(Decimal, "?") == "?" && Apply(Int, "?") == "?"
  {
    PassOnHole(Decimal);
    PassOnHole(Int);
  }

  lemma StrippedWord(w: string)
    requires IsWordText(w)
    ensures Stripped(w) == Read(w)
  {
    StrippedIs(w);
    hide Apply, IsHexLiteral, AllDigits, IsWordText;
    PassOnWord(SingleQuoted, w);
    PassOnWord(DoubleQuoted, w);
    PassOnWord(Named, w);
    PassOnWord(Numbered, w);
    PassOnWord(Hex, w);
    PassOnWord(Decimal, w);
    PassOnWord(Int, w);
    StrippedHole();
  }

  lemma CollapsedWord(w: string)
    requires w == "?" || IsWordText(w)
    ensures Apply(Blanks, Collapsed(w)) == w
  {
    CollapsedIs(w);
    hide Apply, IsHexLiteral, AllDigits, IsWordText;
    if w == "?" {
      PassOnHole(InList);
      PassOnHole(TuplesMany);
      PassOnHole(TupleMulti);
      PassOnHole(Blanks);
    } else {
      PassOnWord(InList, w);
      PassOnWord(TuplesMany, w);
      PassOnWord(TupleMulti, w);
      PassOnWord(Blanks, w);
    }
  }

  /** The template of a text that is one word: a placeholder when the word is a decimal number or a
      hexadecimal one with a small x, and the word in lower case otherwise. */
  lemma WordTemplate(w: string)
    requires IsWordText(w)
    ensures Normalize(w) == if AllDigits(w) || IsHexLiteral(w) then "?" else ToLower(w)
  {
    hide Stripped, Collapsed, Apply, IsHexLiteral, AllDigits, IsWordText, TrimSpace, Normalize, ToLower;
    StrippedWord(w);
    CollapsedWord(Read(w));
    WordIsTrim(Read(w));
    LastSteps(w);
    LowerHole();
  }

  lemma LowerHole()
    ensures ToLower("?") == "?"
  {
    assert "?"[1..] == "";
  }

  lemma HoleTemplate()
    ensures Normalize("?") == "?"
  {
    StrippedIs("?");
    hide Apply, TrimSpace, Normalize, ToLower;
    PassOnHole(SingleQuoted);
    PassOnHole(DoubleQuoted);
    PassOnHole(Named);
    PassOnHole(Numbered);
    PassOnHole(Hex);
    StrippedHole();
    CollapsedWord("?");
    WordIsTrim("?");
    LastSteps("?");
    LowerHole();
  }

  lemma LowerWord(w: string)
    requires IsWordText(w)
    ensures IsWordText(ToLower(w)) && ToLower(ToLower(w)) == ToLower(w)
    ensures AllDigits(ToLower(w)) <==> AllDigits(w)
    ensures IsHexLiteral(ToLower(w)) <==> IsHexLiteral(w) || IsCapitalHex(w)
  {
    hide ToLower;
    var l := ToLower(w);
    assert ToLower(l) == l by { assert forall i :: 0 <= i < |l| ==> ToLower(l)[i] == l[i]; }
    assert forall i :: 0 <= i < |w| ==> IsDigit(l[i]) == IsDigit(w[i]) && IsHexChar(l[i]) == IsHexChar(w[i]);
  }

  /** A second run changes a word's template exactly when nothing but a capital X kept the word from being
      read as a number: the first run writes the X small. */
  lemma SecondRunOnWord(w: string)
    requires IsWordText(w)
    ensures Normalize(Normalize(w)) == Normalize(w) <==> !IsCapitalHex(w)
  {
    WordTemplate(w);
    LowerWord(w);
    WordTemplate(ToLower(w));
    HoleTemplate();
    hide Normalize, ToLower, AllDigits;
    if IsCapitalHex(w) { assert !IsDigit(w[1]) && w[0] == '0'; CapitalIsNoNumber(w); }
  }

  lemma CapitalIsNoNumber(w: string)
    requires IsCapitalHex(w)
    ensures !AllDigits(w) && !IsHexLiteral(w) && ToLower(w)[0] == '0'
  {
    assert !IsDigit(w[1]);
    hide ToLower;
  }
}
