/** When normalizing a template again changes it, for any text. */
module SqlSecondRun {
  import opened Prelude
  import opened Ascii
  import opened Sql
  import opened SqlTemplate
  import opened SqlBlocks
  import opened SqlChars
  import opened SqlNoLists
  import opened SqlLiterals
  import opened SqlLeftQuotes
  import opened SqlWords
  import opened SqlHexWords

  // ---------- quotes ----------

  lemma ReaderAdds(c: char, quote: char, s: string)
    requires IsQuote(quote) && c != '?'
    ensures Count(c, Apply(Reader(quote), s)) <= Count(c, s)
  {
    PassAddsNone(c, Reader(quote), false, s);
  }

  /** A literal that is left loses its quotes. */
  lemma {:induction false} ReadLosesQuotes(quote: char, f: bool, s: string)
    requires IsQuote(quote) && !Idle(Reader(quote), f, s)
    ensures Count(quote, Apply(Reader(quote), s)) < Count(quote, s)
    decreases |s|
  {
    hide Apply, Idle, Literal, Count;
    if s == "" {
      assert false by { EmptyIdle(Reader(quote), f); }
    } else {
      var n := QuotedLen(quote, s);
      ReadStep(quote, s);
      IdleStep(Reader(quote), f, s);
      if n > 0 {
        CountOver(quote, "?", Apply(Reader(quote), s[n..]));
        CountNone(quote, "?");
        ReaderAdds(quote, quote, s[n..]);
        CountCut(quote, s, n);
        assert s[..n][0] == quote;
        CountNone(quote, s[..n]);
      } else {
        CountOver(quote, [s[0]], Apply(Reader(quote), s[1..]));
        CountCut(quote, s, 1);
        assert s[..1] == [s[0]];
        ReadLosesQuotes(quote, IsWord(s[0]), s[1..]);
      }
    }
  }

  lemma EmptyIdle(pass: Pass, f: bool)
    ensures Idle(pass, f, "")
  {
  }

  // ---------- the other passes ----------

  lemma PlaceholdersIdle(t: string)
    requires Obeys(NoNamed, t) && Obeys(NoNumbered, t)
    ensures Idle(Named, false, t) && Idle(Numbered, false, t)
  {
    forall i | 0 <= i < |t|
      ensures MatchLen(Named, FlagAt(false, t, i), t[i..]) == 0 && MatchLen(Numbered, FlagAt(false, t, i), t[i..]) == 0
    {
      var s := t[i..];
      if |s| > 1 { assert !Bad(NoNamed, t[i], t[i + 1]) && !Bad(NoNumbered, t[i], t[i + 1]) && s[1..][0] == t[i + 1]; }
    }
  }

  lemma NumberHere(t: string, i: nat)
    requires i < |t| && !FlagAt(false, t, i) && DigitRun(t[i..]) > 0 && Ends(t[i..][DigitRun(t[i..])..])
    ensures NumberAt(t, i, i + DigitRun(t[i..]))
  {
    var n := DigitRun(t[i..]);
    assert t[i..i + n] == t[i..][..n];
    assert i + n < |t| ==> t[i..][n..][0] == t[i + n];
  }

  lemma NumbersIdle(t: string)
    requires forall i: nat, j: nat :: !NumberAt(t, i, j)
    ensures Idle(Decimal, false, t) && Idle(Int, false, t)
  {
    forall i | 0 <= i < |t|
      ensures MatchLen(Decimal, FlagAt(false, t, i), t[i..]) == 0 && MatchLen(Int, FlagAt(false, t, i), t[i..]) == 0
    {
      NoNumberHere(t, i);
    }
  }

  lemma NoNumberHere(t: string, i: nat)
    requires i < |t| && forall j: nat :: !NumberAt(t, i, j)
    ensures DecimalLen(FlagAt(false, t, i), t[i..]) == 0 && IntLen(FlagAt(false, t, i), t[i..]) == 0
  {
    hide DigitRun, NumberAt, FractionLen;
    var s := t[i..];
    if !FlagAt(false, t, i) && DigitRun(s) > 0 && Ends(s[DigitRun(s)..]) { NumberHere(t, i); }
  }

  /** The literal passes find nothing in a template, but for a string literal or a hexadecimal number. */
  lemma StrippedTemplate(t: string)
    requires IsTemplate(t) && Idle(SingleQuoted, false, t) && Idle(DoubleQuoted, false, t) && Idle(Hex, false, t)
    ensures Stripped(t) == t
  {
    PlaceholdersIdle(t);
    NumbersIdle(t);
    StrippedIs(t);
    hide Idle, ReplaceAll, IsTemplate, Stripped;
    IdleCopies(SingleQuoted, false, t);
    IdleCopies(DoubleQuoted, false, t);
    IdleCopies(Named, false, t);
    IdleCopies(Numbered, false, t);
    IdleCopies(Hex, false, t);
    IdleCopies(Decimal, false, t);
    IdleCopies(Int, false, t);
  }

  // ---------- the list passes ----------

  lemma {:induction false} CleanIfOk(rule: ListRule, inWord: bool, s: string)
    requires forall i :: 0 <= i < |s| ==> OkAt(rule, FlagAt(inWord, s, i), s[i..])
    ensures Clean(rule, inWord, s)
    decreases |s|
  {
    hide OkAt, IsWord;
    if s == "" {
    } else {
      assert s[0..] == s;
      var f, t := IsWord(s[0]), s[1..];
      forall i | 0 <= i < |t| ensures OkAt(rule, FlagAt(f, t, i), t[i..]) {
        assert t[i..] == s[i + 1..] && FlagAt(f, t, i) == FlagAt(inWord, s, i + 1);
      }
      CleanIfOk(rule, f, t);
    }
  }

  lemma PlainInLower(s: string)
    requires StartsPlain(s)
    ensures ToLower(s[..6]) == "in (?)" == ToLower("IN (?)")
  {
    hide ToLower;
    assert forall i :: 2 <= i < 6 ==> s[i] == s[2..6][i - 2];
  }

  /** IN lists in their final form are only written in capitals. */
  lemma {:induction false} InListRewrites(inWord: bool, s: string)
    requires Clean(PlainIn, inWord, s)
    ensures ToLower(ReplaceAll(InList, inWord, s)) == ToLower(s)
    decreases |s|
  {
    hide Clean, StartsPlain, InListLen, ReplaceAll, ToLower;
    if s == "" {
      EmptyScan(InList, inWord);
    } else {
      ScanStep(InList, inWord, s);
      var n := InListLen(inWord, s);
      if n > 0 {
        CleanTail(PlainIn, inWord, s, n);
        CleanHere(PlainIn, inWord, s);
        PlainIsSix(inWord, s);
        InListRewrites(IsWord(s[n - 1]), s[n..]);
        PlainInLower(s);
        assert s == s[..6] + s[6..];
        LowerOver("IN (?)", ReplaceAll(InList, IsWord(s[n - 1]), s[n..]));
        LowerOver(s[..6], s[6..]);
      } else {
        CleanTail(PlainIn, inWord, s, 1);
        InListRewrites(IsWord(s[0]), s[1..]);
        assert s == [s[0]] + s[1..];
        LowerOver([s[0]], ReplaceAll(InList, IsWord(s[0]), s[1..]));
        LowerOver([s[0]], s[1..]);
      }
    }
  }

  lemma CleanHere(rule: ListRule, inWord: bool, s: string)
    requires Clean(rule, inWord, s) && s != ""
    ensures OkAt(rule, inWord, s)
  {
    hide OkAt;
  }

  /** The same text but for the case of its letters. */
  predicate SameLetters(r: string, t: string) {
    |r| == |t| && ToLower(r) == t
  }

  lemma ListsIdle(r: string, t: string)
    requires SameLetters(r, t)
    requires forall i :: 0 <= i < |t| ==> TupleMultiLen(t[i..]) == 0 && TuplesManyLen(t[i..]) == 0
    ensures Idle(TuplesMany, false, r) && Idle(TupleMulti, false, r)
  {
    hide ToLower, TupleMultiLen, TuplesManyLen;
    forall i | 0 <= i < |r| ensures TuplesManyLen(r[i..]) == 0 && TupleMultiLen(r[i..]) == 0 {
      LowerTail(r, i);
      RowsLower(r[i..]);
      TupleLower(r[i..]);
    }
  }

  lemma {:induction false} SingleSpacesStay(inWord: bool, s: string)
    requires Obeys(NoDoubleBlank, s) && forall i :: 0 <= i < |s| ==> Flat(s[i])
    ensures ReplaceAll(Blanks, inWord, s) == s
    decreases |s|
  {
    if s == "" {
    } else {
      SingleSpacesStay(IsWord(s[0]), s[1..]);
      if IsBlank(s[0]) {
        assert |s| > 1 ==> !Bad(NoDoubleBlank, s[0], s[1]) && s[1..][0] == s[1];
        assert BlankRun(s) == 1 && s[0] == ' ';
      }
    }
  }

  lemma SameBlanks(r: string, t: string)
    requires SameLetters(r, t) && Obeys(NoDoubleBlank, t) && forall i :: 0 <= i < |t| ==> Flat(t[i])
    ensures Obeys(NoDoubleBlank, r) && forall i :: 0 <= i < |r| ==> Flat(r[i])
  {
    hide ToLower;
    assert forall i :: 0 <= i < |r| ==> t[i] == Lower(r[i]);
    forall i | 0 <= i < |r| - 1 ensures !Bad(NoDoubleBlank, r[i], r[i + 1]) {
      LowerKeepsBad(NoDoubleBlank, r[i], r[i + 1]);
      assert !Bad(NoDoubleBlank, t[i], t[i + 1]);
    }
  }

  lemma SameEnds(r: string, t: string)
    requires SameLetters(r, t) && (t == "" || (!IsSpace(t[0]) && !IsSpace(t[|t| - 1])))
    ensures r == "" || (!IsSpace(r[0]) && !IsSpace(r[|r| - 1]))
  {
    hide ToLower;
  }

  lemma TemplateIsSpaced(t: string)
    requires IsTemplate(t)
    ensures Obeys(NoDoubleBlank, t) && forall i :: 0 <= i < |t| ==> Flat(t[i])
    ensures t == "" || (!IsSpace(t[0]) && !IsSpace(t[|t| - 1]))
  {
    hide Obeys, NumberAt, Flat;
  }

  /** So a second run undoes what it does: it writes IN in capitals, and then in lower case. */
  lemma SettledIsFixed(sql: string)
    requires var t := Normalize(sql);
      Idle(SingleQuoted, false, t) && Idle(DoubleQuoted, false, t) && Idle(Hex, false, t)
    ensures Normalize(Normalize(sql)) == Normalize(sql)
  {
    var t := Normalize(sql);
    NormalizeIsTemplate(sql);
    StrippedTemplate(t);
    var r := Capitals(sql);
    LastSteps(t);
    hide Normalize, Idle, IsTemplate, Stripped, Collapsed, Obeys, IsSpace, Flat, ToLower, TrimSpace;
    TemplateIsSpaced(t);
    SameBlanks(r, t);
    SameEnds(r, t);
    SingleSpacesStay(false, r);
    NothingToTrim(r);
  }

  /** The template with its IN lists in capitals: that is what the list passes make of it. */
  lemma Capitals(sql: string) returns (r: string)
    ensures r == Collapsed(Normalize(sql)) && SameLetters(r, Normalize(sql))
  {
    var t := Normalize(sql);
    r := Apply(InList, t);
    CollapsedIs(t);
    TemplateIsLower(sql);
    hide Normalize, ReplaceAll, ToLower, Collapsed, Idle, Clean;
    forall i | 0 <= i < |t| ensures OkAt(PlainIn, FlagAt(false, t, i), t[i..]) { TemplateOkAt(sql, PlainIn, i); }
    CleanIfOk(PlainIn, false, t);
    InListRewrites(false, t);
    forall i | 0 <= i < |t| ensures TupleMultiLen(t[i..]) == 0 && TuplesManyLen(t[i..]) == 0 {
      NothingLeftToCollapse(sql, i);
    }
    ListsIdle(r, t);
    IdleCopies(TuplesMany, false, r);
    IdleCopies(TupleMulti, false, r);
  }

  lemma TemplateIsLower(sql: string)
    ensures ToLower(Normalize(sql)) == Normalize(sql)
  {
    NormalizeIsTemplate(sql);
    hide Normalize, ToLower, NumberAt, Obeys;
  }

  // ---------- the condition ----------

  lemma NoWordOfAbsentLetter(sql: string)
    requires 'X' !in sql
    ensures NoWord(CapitalHex, false, WithoutPlaceholders(sql))
  {
    hide Apply, NoWord, Count;
    var s1 := Apply(SingleQuoted, sql);
    var s2 := WithoutStrings(sql);
    var s3 := Apply(Named, s2);
    CountNone('X', sql);
    ReaderAdds('X', '\'', sql);
    ReaderAdds('X', '"', s1);
    PlaceholderAdds('X', Named, s2);
    PlaceholderAdds('X', Numbered, s3);
    CountNone('X', WithoutPlaceholders(sql));
    NoLetterNoWord(CapitalHex, false, WithoutPlaceholders(sql));
  }

  lemma PlaceholderAdds(c: char, pass: Pass, s: string)
    requires (pass.Named? || pass.Numbered?) && c != '?'
    ensures Count(c, Apply(pass, s)) <= Count(c, s)
  {
    PassAddsNone(c, pass, false, s);
  }

  lemma LeftoverChanges(t: string)
    requires !Idle(SingleQuoted, false, t) || !Idle(DoubleQuoted, false, t)
    ensures Normalize(t) != t
  {
    hide Apply, Normalize, Idle, Count;
    var s1 := Apply(SingleQuoted, t);
    if !Idle(SingleQuoted, false, t) {
      ReadLosesQuotes('\'', false, t);
      ReaderAdds('\'', '"', s1);
      QuotesReachTemplate('\'', t);
    } else {
      SingleIdle(t);
      ReadLosesQuotes('"', false, t);
      QuotesReachTemplate('"', t);
    }
  }

  lemma SingleIdle(t: string)
    requires Idle(SingleQuoted, false, t)
    ensures Apply(SingleQuoted, t) == t
  {
    hide ReplaceAll, Idle;
    IdleCopies(SingleQuoted, false, t);
  }

  lemma TemplateHasNoX(sql: string)
    ensures 'X' !in Normalize(sql)
  {
    NormalizeIsTemplate(sql);
    hide Normalize, NumberAt, Obeys;
  }

  /** A second run changes a template if and only if it has a string literal or a hexadecimal number left in
      it, whatever the text was. */
  lemma LeftoversDecide(sql: string)
    ensures var t := Normalize(sql);
      Normalize(t) == t <==> Idle(SingleQuoted, false, t) && Idle(DoubleQuoted, false, t) && Idle(Hex, false, t)
  {
    var t := Normalize(sql);
    hide Normalize, Idle, WithoutPlaceholders, NoWord;
    if !Idle(SingleQuoted, false, t) || !Idle(DoubleQuoted, false, t) {
      LeftoverChanges(t);
    } else if Idle(Hex, false, t) {
      SettledIsFixed(sql);
    } else {
      TemplateHasNoX(sql);
      NoWordOfAbsentLetter(t);
      TemplateHex(t);
    }
  }

  /** For any text: a second run changes the template if and only if the quote passes have left a literal that
      closes when a line feed behind a backslash counts as any other character, or a hexadecimal number with a
      capital X stands outside string literals and placeholders. */
  lemma SecondRunIff(sql: string)
    ensures Normalize(Normalize(sql)) == Normalize(sql)
       <==> && !HasLiteral('\'', WithoutStrings(sql)) && !HasLiteral('"', WithoutStrings(sql))
            && NoWord(CapitalHex, false, WithoutPlaceholders(sql))
  {
    hide Normalize, Idle, WithoutStrings, WithoutPlaceholders, NoWord, HasLiteral;
    LeftoversDecide(sql);
    TemplateLiteral('\'', sql);
    TemplateLiteral('"', sql);
    TemplateHex(sql);
  }

  /** For a query without a line feed behind a backslash: if and only if it has such a hexadecimal number. */
  lemma SecondRunIffCapitalHex(sql: string)
    requires !LineFeedEscaped(sql)
    ensures Normalize(Normalize(sql)) == Normalize(sql) <==> NoWord(CapitalHex, false, WithoutPlaceholders(sql))
  {
    hide Normalize, WithoutStrings, WithoutPlaceholders, NoWord, HasLiteral, LineFeedEscaped;
    SecondRunIff(sql);
    NoneLeft('\'', sql);
    NoneLeft('"', sql);
  }

  /** So normalizing is idempotent on queries without a line feed behind a backslash and without a capital X. */
  lemma NormalizeIsIdempotent(sql: string)
    requires !LineFeedEscaped(sql) && 'X' !in sql
    ensures Normalize(Normalize(sql)) == Normalize(sql)
  {
    hide Normalize, WithoutPlaceholders, NoWord, LineFeedEscaped;
    NoWordOfAbsentLetter(sql);
    SecondRunIffCapitalHex(sql);
  }

  // ---------- a backslash before a line feed ----------

  /** A text that only the quote passes and the last one could find something in. */
  predicate Bare(s: string) {
    forall i :: 0 <= i < |s| ==> s[i] == '\'' || s[i] == '\\' || s[i] == '\n'
  }

  lemma BareIsIdle(pass: Pass, s: string)
    requires Bare(s) && !pass.SingleQuoted? && !pass.Blanks?
    ensures Apply(pass, s) == s
  {
    hide MatchLen, ReplaceAll, IsWord;
    assert !IsWord('\'') && !IsWord('\\') && !IsWord('\n') by { MarksAreNoWords(); }
    forall i | 0 <= i < |s| ensures MatchLen(pass, FlagAt(false, s, i), s[i..]) == 0 {
      NoMatchAtMark(pass, FlagAt(false, s, i), s[i..]);
    }
    IdleCopies(pass, false, s);
  }

  lemma MarksAreNoWords()
    ensures !IsWord('\'') && !IsWord('\\') && !IsWord('\n')
  {
  }

  lemma NoMatchAtMark(pass: Pass, f: bool, s: string)
    requires s != "" && (s[0] == '\'' || s[0] == '\\' || s[0] == '\n') && !pass.SingleQuoted? && !pass.Blanks?
    ensures MatchLen(pass, f, s) == 0
  {
    if MatchLen(pass, f, s) > 0 { MatchEdges(pass, f, s); }
  }

  lemma BareIsSquashed(s: string)
    requires Bare(s) && Idle(SingleQuoted, false, s)
    ensures Squashed(s) == Apply(Blanks, s)
  {
    StrippedIs(s);
    CollapsedIs(s);
    hide Apply, Stripped, Collapsed, Bare, Idle;
    SingleIdle(s);
    BareIsIdle(DoubleQuoted, s);
    BareIsIdle(Named, s);
    BareIsIdle(Numbered, s);
    BareIsIdle(Hex, s);
    BareIsIdle(Decimal, s);
    BareIsIdle(Int, s);
    BareIsIdle(InList, s);
    BareIsIdle(TuplesMany, s);
    BareIsIdle(TupleMulti, s);
  }

  lemma BlanksThere(s: string)
    requires s == "'\\\n'"
    ensures Apply(Blanks, s) == "'\\ '"
  {
    hide ReplaceAll, BlankRun;
    assert s == ['\''] + "\\\n'" && "\\\n'" == ['\\'] + "\n'";
    MarkScanned('\'', "\\\n'");
    MarkScanned('\\', "\n'");
    LineFeedScanned();
  }

  lemma MarkScanned(c: char, z: string)
    requires !IsBlank(c) && !IsWord(c)
    ensures ReplaceAll(Blanks, false, [c] + z) == [c] + ReplaceAll(Blanks, false, z)
  {
    assert ([c] + z)[1..] == z;
    assert BlankRun([c] + z) == 0;
    hide ReplaceAll, BlankRun;
    ScanStep(Blanks, false, [c] + z);
  }

  lemma LineFeedScanned()
    ensures ReplaceAll(Blanks, false, "\n'") == " '"
  {
    var s := "\n'";
    assert s[1..] == "'" && "'" == ['\''] + "";
    assert BlankRun("'") == 0 && BlankRun(s) == 1;
    MarkScanned('\'', "");
    EmptyScan(Blanks, false);
    hide ReplaceAll, BlankRun;
    ScanStep(Blanks, false, s);
  }

  lemma NotClosed(s: string)
    requires s == "'\\\n'"
    ensures Idle(SingleQuoted, false, s)
  {
    assert s[1..][0] == '\\' && s[1..][1] == '\n';
  }

  lemma ClosedThere(t: string)
    requires t == "'\\ '"
    ensures WithoutStrings(t) == "?"
  {
    assert t[1..][0] == '\\' && t[1..][1] == ' ' && t[1..][2..] == "'";
    assert Literal('\'', "'") == Some(1);
    assert Literal('\'', t[1..]) == Some(3);
    assert QuotedLen('\'', t) == 4 && t[4..] == "";
    hide Apply;
    ReadStep('\'', t);
    ReadNothing('\'');
    CopyAll('"', "?");
  }

  /** The smallest such text: in its template the literal is closed, because the line feed became a space. */
  lemma LineFeedInLiteral()
    ensures Normalize("'\\\n'") == "'\\ '" && Normalize("'\\ '") == "?"
  {
    var s, t := "'\\\n'", "'\\ '";
    assert Bare(s);
    hide Normalize, Squashed, Apply, Idle, Bare, WithoutStrings;
    NotClosed(s);
    BareIsSquashed(s);
    BlanksThere(s);
    LastSteps(s);
    LastStepsThere(t);
    ClosedThere(t);
    HoleWithoutStrings();
    SameWithoutStrings(t, "?");
    HoleTemplate();
  }

  lemma LastStepsThere(t: string)
    requires t == "'\\ '"
    ensures ToLower(TrimSpace(t)) == t
  {
    NothingToTrim(t);
    hide ToLower, TrimSpace;
  }

  lemma HoleWithoutStrings()
    ensures WithoutStrings("?") == "?"
  {
    hide Apply;
    CopyAll('\'', "?");
    CopyAll('"', "?");
  }
}
