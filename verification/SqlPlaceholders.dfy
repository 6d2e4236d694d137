/** Named and numbered placeholders are read as the plain one. */
module SqlPlaceholders {
  import opened Ascii
  import opened Sql
  import opened SqlTemplate
  import opened SqlBlocks
  import opened SqlGrouping

  /** :name, $1 or ?1 */
  datatype Placeholder = Name(mark: char, word: string) | Numbering(digits: string)

  predicate IsPlaceholder(h: Placeholder) {
    match h
    case Name(mark, word) =>
      (mark == ':' || mark == '$') && word != "" && forall i :: 0 <= i < |word| ==> IsWord(word[i])
    case Numbering(digits) => IsNumber(digits)
  }

  function Text(h: Placeholder): string {
    match h
    case Name(mark, word) => [mark] + word
    case Numbering(digits) => "?" + digits
  }

  /** The pass that reads the placeholder, and the passes before it. */
  predicate Reader(pass: Pass, h: Placeholder) {
    match h
    case Name(_, _) => pass.Named?
    case Numbering(_) => pass.Numbered?
  }

  predicate Earlier(pass: Pass, h: Placeholder) {
    pass.SingleQuoted? || pass.DoubleQuoted? || (h.Numbering? && pass.Named?)
  }

  predicate StartsAside(z: string) {
    z != "" && !IsWord(z[0])
  }

  /** A placeholder's first character ends every other. */
  lemma MatchStaysAside(pass: Pass, inWord: bool, p: string, z: string)
    requires (pass.Named? || pass.Numbered?) && p != "" && StartsAside(z)
    ensures MatchLen(pass, inWord, p + z) == MatchLen(pass, inWord, p)
  {
    WordRunOver(p[1..], z);
    DigitRunOver(p[1..], z);
    assert (p + z)[1..] == p[1..] + z;
    hide WordRun, DigitRun;
  }

  lemma TextIsToken(h: Placeholder)
    requires IsPlaceholder(h)
    ensures var b := Text(h); b != "" && b[0] != '\n' && Unquoted(b) && StartsAside(b) && IsWord(b[|b| - 1])
    ensures forall i :: 0 < i < |Text(h)| ==> IsWord(Text(h)[i])
  {
  }

  predicate Token(b: string) {
    b != "" && b[0] != '\n' && Unquoted(b) && StartsAside(b)
  }

  lemma TokenAgnostic(pass: Pass, inWord: bool, p: string, b: string, c: string, q: string)
    requires pass.SingleQuoted? || pass.DoubleQuoted? || pass.Named? || pass.Numbered?
    requires p != "" && Token(b) && Token(c)
    ensures Agnostic(pass, inWord, p, b, c, q)
  {
    hide QuotedLen, NamedLen, NumberedLen, Unquoted;
    if pass.Named? || pass.Numbered? {
      MatchStaysAside(pass, inWord, p, b + q);
      MatchStaysAside(pass, inWord, p, c + q);
    } else {
      QuotedAgnostic(if pass.SingleQuoted? then '\'' else '"', p, b, c, q);
    }
  }

  lemma TokenAgnosticAlong(pass: Pass, p: string, b: string, c: string, q: string)
    requires pass.SingleQuoted? || pass.DoubleQuoted? || pass.Named? || pass.Numbered?
    requires Token(b) && Token(c)
    ensures AgnosticAlong(pass, p, b, c, q)
  {
    hide Agnostic, Token;
    forall i: nat, f: bool | i < |p| ensures Agnostic(pass, f, p[i..], b, c, q) {
      TokenAgnostic(pass, f, p[i..], b, c, q);
    }
  }

  // ---------- the scan at the placeholder ----------

  lemma ReaderMatches(pass: Pass, inWord: bool, h: Placeholder, q: string)
    requires IsPlaceholder(h) && Reader(pass, h) && Ends(q)
    ensures MatchLen(pass, inWord, Text(h) + q) == |Text(h)|
  {
    hide WordRun, DigitRun, Ends;
    var s := Text(h) + q;
    match h
    case Name(mark, word) =>
      assert s[1..] == word + q;
      WordThen(Digits, true, word, q);
    case Numbering(digits) =>
      assert s[1..] == digits + q;
      NumberRuns(digits, q);
  }

  lemma Reads(pass: Pass, inWord: bool, h: Placeholder, q: string)
    requires IsPlaceholder(h) && Reader(pass, h) && Ends(q)
    ensures ReplaceAll(pass, inWord, Text(h) + q) == "?" + ReplaceAll(pass, true, q)
  {
    hide MatchLen, ReplaceAll, Text, IsPlaceholder, Ends;
    TextIsToken(h);
    ReaderMatches(pass, inWord, h, q);
    var s := Text(h) + q;
    ScanStep(pass, inWord, s);
    assert s[|Text(h)|..] == q && s[|Text(h)| - 1] == Text(h)[|Text(h)| - 1];
  }

  /** The passes before neither know `?` nor a word behind it. */
  lemma {:induction false} Copies(pass: Pass, inWord: bool, b: string, q: string)
    requires pass.SingleQuoted? || pass.DoubleQuoted? || pass.Named?
    requires forall i :: 0 <= i < |b| ==> IsWord(b[i]) || b[i] == '?' || (!pass.Named? && (b[i] == ':' || b[i] == '$'))
    ensures ReplaceAll(pass, inWord, b + q) == b + ReplaceAll(pass, EndsInWord(inWord, b), q)
    decreases |b|
  {
    hide ReplaceAll, WordRun, Literal;
    if b == "" {
      assert b + q == q;
    } else {
      var t := b[1..];
      assert MatchLen(pass, inWord, b + q) == 0;
      hide IsWord;
      ScanStep(pass, inWord, b + q);
      Copies(pass, IsWord(b[0]), t, q);
      assert (b + q)[1..] == t + q && [b[0]] + t == b;
      assert EndsInWord(IsWord(b[0]), t) == EndsInWord(inWord, b);
      PrefixedText([b[0]], t, ReplaceAll(pass, EndsInWord(inWord, b), q));
    }
  }

  lemma HoleCopied(pass: Pass, inWord: bool, q: string)
    requires pass.SingleQuoted? || pass.DoubleQuoted? || pass.Named? || pass.Numbered?
    requires Ends(q)
    ensures ReplaceAll(pass, inWord, "?" + q) == "?" + ReplaceAll(pass, false, q)
  {
    assert ("?" + q)[1..] == q && (q != "" ==> !IsDigit(q[0]));
    assert MatchLen(pass, inWord, "?" + q) == 0;
    hide MatchLen, ReplaceAll;
    ScanStep(pass, inWord, "?" + q);
  }

  /** x has the placeholder where y has the plain one. */
  predicate Differ(x: string, y: string, p: string, h: Placeholder, q: string) {
    x == p + (Text(h) + q) && y == p + ("?" + q) && Ends(q)
  }

  ghost predicate SoRead(x: string, y: string, h: Placeholder) {
    x == y || exists p, q :: Differ(x, y, p, h, q)
  }

  lemma SameIsSoRead(x: string, h: Placeholder)
    ensures SoRead(x, x, h)
  {
  }

  lemma PlaceholderLeft(pass: Pass, inWord: bool, w: string, h: Placeholder, q: string)
    requires IsPlaceholder(h) && (Earlier(pass, h) || Reader(pass, h)) && Ends(q)
    ensures SoRead(w + ReplaceAll(pass, inWord, Text(h) + q), w + ReplaceAll(pass, inWord, "?" + q), h)
    ensures Reader(pass, h) ==> ReplaceAll(pass, inWord, Text(h) + q) == ReplaceAll(pass, inWord, "?" + q)
  {
    hide ReplaceAll;
    TextIsToken(h);
    FlagIrrelevant(pass, true, false, q);
    HoleCopied(pass, inWord, q);
    EdgeKept(pass, false, q);
    var r := ReplaceAll(pass, false, q);
    if Reader(pass, h) {
      Reads(pass, inWord, h, q);
      SameIsSoRead(w + ("?" + r), h);
    } else {
      CopiesPlaceholder(pass, inWord, h, q);
      assert Differ(w + (Text(h) + r), w + ("?" + r), w, h, r);
    }
  }

  lemma CopiesPlaceholder(pass: Pass, inWord: bool, h: Placeholder, q: string)
    requires IsPlaceholder(h) && Earlier(pass, h)
    ensures ReplaceAll(pass, inWord, Text(h) + q) == Text(h) + ReplaceAll(pass, true, q)
  {
    hide ReplaceAll;
    TextIsToken(h);
    Copies(pass, inWord, Text(h), q);
  }

  lemma PassKeepsReading(pass: Pass, x: string, y: string, h: Placeholder)
    requires IsPlaceholder(h) && (Earlier(pass, h) || Reader(pass, h)) && SoRead(x, y, h)
    ensures SoRead(Apply(pass, x), Apply(pass, y), h)
    ensures Reader(pass, h) ==> Apply(pass, x) == Apply(pass, y)
  {
    if x == y {
      SameIsSoRead(Apply(pass, x), h);
    } else {
      var p, q :| Differ(x, y, p, h, q);
      TextIsToken(h);
      assert Token("?") && Token(Text(h));
      hide ReplaceAll, MatchLen, AgnosticAlong, SoRead, Text, IsPlaceholder, Token;
      TokenAgnosticAlong(pass, p, Text(h), "?", q);
      var r := BlockScan(pass, false, p, Text(h), "?", q);
      match r
      case None => SameIsSoRead(Apply(pass, x), h);
      case Some(w) => PlaceholderLeft(pass, EndsInWord(false, p), w, h, q);
    }
  }

  lemma StrippedReadsPlaceholder(x: string, y: string, h: Placeholder)
    requires IsPlaceholder(h) && SoRead(x, y, h)
    ensures Stripped(x) == Stripped(y)
  {
    StrippedIs(x);
    StrippedIs(y);
    hide Apply, SoRead, IsPlaceholder;
    var x1, y1 := Apply(SingleQuoted, x), Apply(SingleQuoted, y);
    PassKeepsReading(SingleQuoted, x, y, h);
    var x2, y2 := Apply(DoubleQuoted, x1), Apply(DoubleQuoted, y1);
    PassKeepsReading(DoubleQuoted, x1, y1, h);
    PassKeepsReading(Named, x2, y2, h);
    if h.Numbering? { PassKeepsReading(Numbered, Apply(Named, x2), Apply(Named, y2), h); }
  }

  /** A named or numbered placeholder, anywhere in a query, is read as the plain one. */
  lemma PlaceholdersAreHoles(p: string, h: Placeholder, q: string)
    requires IsPlaceholder(h) && (q == "" || !IsWord(q[0]))
    ensures Normalize(p + Text(h) + q) == Normalize(p + "?" + q)
  {
    assert p + Text(h) + q == p + (Text(h) + q) && p + "?" + q == p + ("?" + q);
    assert Differ(p + Text(h) + q, p + "?" + q, p, h, q);
    StrippedReadsPlaceholder(p + Text(h) + q, p + "?" + q, h);
    hide Stripped, Collapsed, Apply, ToLower, TrimSpace;
  }
}
