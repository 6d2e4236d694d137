/** A numeral of any kind is read as a placeholder: integers, hexadecimal numbers, decimals with or without
    an exponent. */
module SqlNumerals {
  import opened Prelude
  import opened Ascii
  import opened Sql
  import opened SqlTemplate
  import opened SqlBlocks
  import opened SqlGrouping

  datatype Exponent = NoPower | Power(mark: char, sign: string, digits: string)

  datatype Numeral =
    | Integer(digits: string)
    | HexNumber(hexDigits: string)
    | Fractional(whole: string, part: string, exponent: Exponent)

  predicate IsExponent(e: Exponent) {
    match e
    case NoPower => true
    case Power(mark, sign, digits) =>
      (mark == 'e' || mark == 'E') && (sign == "" || sign == "+" || sign == "-") && IsNumber(digits)
  }

  predicate IsNumeral(n: Numeral) {
    match n
    case Integer(d) => IsNumber(d)
    case HexNumber(d) => d != "" && forall i :: 0 <= i < |d| ==> IsHexChar(d[i])
    case Fractional(w, f, e) => IsNumber(w) && IsNumber(f) && IsExponent(e)
  }

  function ExponentText(e: Exponent): string {
    match e
    case NoPower => ""
    case Power(mark, sign, digits) => [mark] + (sign + digits)
  }

  function Text(n: Numeral): string {
    match n
    case Integer(d) => d
    case HexNumber(d) => "0x" + d
    case Fractional(w, f, e) => w + ("." + (f + ExponentText(e)))
  }

  /** A numeral can begin after this text: not inside a word, a placeholder or another numeral, nor straight
      after a quote. */
  predicate MayPrecede(inWord: bool, p: string) {
    p == "" || (NeutralEnd(p) && forall i :: 0 < i < |p| && PointAt(inWord, p, i) ==> !GoesOn(p[i + 1..]))
  }

  predicate NeutralEnd(p: string) {
    p != "" && Neutral(p[|p| - 1])
  }

  predicate Neutral(c: char) {
    !IsWord(c) && c != ':' && c != '$' && c != '?' && c != '\'' && c != '"'
  }

  /** A point behind digits that are a word. */
  predicate PointAt(inWord: bool, p: string, i: nat)
    requires 0 < i < |p|
  {
    p[i] == '.' && exists j: nat :: j < i && NumberUpTo(inWord, p, j, i)
  }

  predicate NumberUpTo(inWord: bool, p: string, j: nat, i: nat)
    requires j <= i <= |p|
  {
    !FlagAt(inWord, p, j) && IsNumber(p[j..i])
  }

  /** Behind such a point a decimal goes on: nothing has come yet, or its digits and an exponent up to the sign. */
  predicate GoesOn(t: string) {
    t == "" || (|t| > 2 && IsNumber(t[..|t| - 2]) && IsSignedMark(t[|t| - 2..]))
  }

  predicate IsSignedMark(u: string) {
    |u| == 2 && IsMark(u[0]) && IsSign(u[1])
  }

  /** And end before this one. */
  predicate MayFollow(n: Numeral, q: string) {
    Ends(q) && (n.Integer? ==> !PointAndDigit(q))
  }

  predicate PointAndDigit(q: string) {
    |q| > 1 && q[0] == '.' && IsDigit(q[1])
  }

  // ---------- matches that start before the numeral ----------

  lemma Outside(p: string)
    requires NeutralEnd(p)
    ensures EndsOutsideWord(p)
  {
  }

  lemma NamedStays(p: string, z: string)
    requires NeutralEnd(p)
    ensures NamedLen(p + z) == NamedLen(p) && NumberedLen(p + z) == NumberedLen(p)
  {
    hide WordRun, DigitRun;
    Outside(p);
    FrontOff(p, z);
    if p[1..] != "" { RunsBeforeNumber(p[1..], z); }
  }

  lemma ExponentStays(u: string, z: string)
    requires NeutralEnd(u) && !IsSignedMark(u)
    ensures ExponentLen(u + z) == ExponentLen(u)
  {
    Outside(u);
    assert u + "" == u;
    if IsMark(u[0]) {
      MarkStays(u, z);
    } else {
      NoExponent(u, z);
      NoExponent(u, "");
    }
  }

  lemma DigitsFollowMark(u: string)
    requires NeutralEnd(u) && IsMark(u[0]) && !IsSignedMark(u)
    ensures 1 + SignLen(u) < |u| && EndsOutsideWord(u[1 + SignLen(u)..])
  {
  }

  lemma LastDigitsStay(v: string, z: string)
    requires EndsOutsideWord(v)
    ensures LastDigits(v + z) == LastDigits(v)
  {
    hide DigitRun, Ends;
    RunsBeforeNumber(v, z);
    EndsAfterRun(v, z, DigitRun(v));
  }

  lemma MarkStays(u: string, z: string)
    requires NeutralEnd(u) && IsMark(u[0]) && !IsSignedMark(u)
    ensures ExponentLen(u + z) == ExponentLen(u)
  {
    DigitsFollowMark(u);
    hide ExponentLen, LastDigits, NeutralEnd, EndsOutsideWord;
    var v := u[1 + SignLen(u)..];
    assert u + "" == u && v + "" == v;
    ExponentAt(u, z);
    ExponentAt(u, "");
    LastDigitsStay(v, z);
  }

  lemma EndsAfterRun(v: string, z: string, n: nat)
    requires n < |v|
    ensures Ends((v + z)[n..]) == Ends(v[n..])
  {
    assert (v + z)[n..][0] == v[n] == v[n..][0];
  }

  lemma TailMayPrecede(inWord: bool, p: string, k: nat)
    requires MayPrecede(inWord, p) && k < |p|
    ensures MayPrecede(FlagAt(inWord, p, k), p[k..]) && NeutralEnd(p[k..])
  {
    hide GoesOn, IsNumber, IsWord;
    var f, t := FlagAt(inWord, p, k), p[k..];
    forall i | 0 < i < |t| && PointAt(f, t, i) ensures !GoesOn(t[i + 1..]) {
      var j: nat :| j < i && NumberUpTo(f, t, j, i);
      assert t[j..i] == p[k + j..k + i];
      assert NumberUpTo(inWord, p, k + j, k + i);
      assert PointAt(inWord, p, k + i) && t[i + 1..] == p[k + i + 1..];
    }
  }

  lemma NoSignedMark(t: string)
    requires !GoesOn(t) && DigitRun(t) > 0
    ensures !IsSignedMark(t[DigitRun(t)..])
  {
    var u := t[DigitRun(t)..];
    if |u| == 2 { assert u == t[|t| - 2..]; }
  }

  lemma FractionStays(t: string, z: string)
    requires NeutralEnd(t) && !GoesOn(t)
    ensures FractionLen(t + z) == FractionLen(t)
  {
    hide *;
    Outside(t);
    FractionStep(t, z);
    FractionUnfolds(t);
    RunsBeforeNumber(t, "");
    if DigitRun(t) > 0 {
      NoSignedMark(t);
      TailIsNeutral(t, DigitRun(t));
      ExponentStays(t[DigitRun(t)..], z);
    }
  }

  lemma FractionUnfolds(t: string)
    ensures FractionLen(t) == if DigitRun(t) == 0 then None else Longer(DigitRun(t), ExponentLen(t[DigitRun(t)..]))
  {
    hide DigitRun, ExponentLen;
  }

  lemma TailIsNeutral(t: string, k: nat)
    requires NeutralEnd(t) && k < |t|
    ensures NeutralEnd(t[k..])
  {
  }

  lemma PointThere(p: string, k: nat)
    requires MayPrecede(false, p) && k == DigitRun(p) && 0 < k < |p| && p[k] == '.'
    ensures NeutralEnd(p[k + 1..]) && !GoesOn(p[k + 1..])
  {
    assert p[0..k] == p[..k];
    assert NumberUpTo(false, p, 0, k);
    assert PointAt(false, p, k);
  }

  lemma DecimalStays(inWord: bool, p: string, z: string)
    requires p != "" && MayPrecede(inWord, p)
    ensures DecimalLen(inWord, p + z) == DecimalLen(inWord, p)
  {
    Outside(p);
    assert p + "" == p;
    hide DigitRun, FractionLen, DecimalLen;
    DecimalStep(inWord, p, z);
    DecimalStep(inWord, p, "");
    var k := DigitRun(p);
    if !inWord && k > 0 && p[k] == '.' {
      PointThere(p, k);
      var t := p[k + 1..];
      assert t + "" == t;
      FractionStays(t, z);
    }
  }

  lemma LexicalStays(pass: Pass, inWord: bool, p: string, z: string)
    requires Lexical(pass) && p != "" && MayPrecede(inWord, p)
    ensures MatchLen(pass, inWord, p + z) == MatchLen(pass, inWord, p)
  {
    hide NamedLen, NumberedLen, HexLen, DecimalLen, IntLen;
    match pass
    case Named | Numbered => NamedStays(p, z);
    case Hex => Outside(p); HexUnmoved(inWord, p, z);
    case Decimal => DecimalStays(inWord, p, z);
    case Int => Outside(p); IntUnmoved(inWord, p, z);
  }

  predicate IsToken(b: string) {
    b != "" && b[0] != '\n' && Unquoted(b)
  }

  lemma TokensAgnostic(pass: Pass, inWord: bool, p: string, b: string, c: string, q: string)
    requires Literally(pass) && p != "" && MayPrecede(inWord, p) && IsToken(b) && IsToken(c)
    ensures Agnostic(pass, inWord, p, b, c, q)
  {
    hide QuotedLen, NamedLen, NumberedLen, HexLen, DecimalLen, IntLen, Unquoted, MayPrecede;
    if Lexical(pass) {
      LexicalStays(pass, inWord, p, b + q);
      LexicalStays(pass, inWord, p, c + q);
    } else {
      QuotedAgnostic(if pass.SingleQuoted? then '\'' else '"', p, b, c, q);
    }
  }

  lemma TokensAgnosticFrom(pass: Pass, inWord: bool, p: string, b: string, c: string, q: string)
    requires Literally(pass) && MayPrecede(inWord, p) && IsToken(b) && IsToken(c)
    ensures AgnosticFrom(pass, inWord, p, b, c, q)
  {
    hide Agnostic, IsToken, Literally, MayPrecede;
    forall i: nat | i < |p| ensures Agnostic(pass, FlagAt(inWord, p, i), p[i..], b, c, q) {
      TailMayPrecede(inWord, p, i);
      TokensAgnostic(pass, FlagAt(inWord, p, i), p[i..], b, c, q);
    }
  }

  // ---------- where a match can end ----------

  lemma FractionLast(s: string)
    requires FractionLen(s).Some?
    ensures FractionLen(s).value > 0 && IsWord(s[FractionLen(s).value - 1])
  {
    var n := DigitRun(s);
    var e := s[n..];
    if ExponentLen(e).value > 0 {
      var k := 1 + SignLen(e);
      var d := DigitRun(e[k..]);
      assert e[k..][d - 1] == e[k + d - 1] == s[n + k + d - 1];
    }
  }

  lemma DecimalLast(inWord: bool, s: string)
    requires DecimalLen(inWord, s) > 0
    ensures IsWord(s[DecimalLen(inWord, s) - 1])
  {
    hide FractionLen;
    var k := DigitRun(s) + 1;
    FractionLast(s[k..]);
    assert s[k..][FractionLen(s[k..]).value - 1] == s[DecimalLen(inWord, s) - 1];
  }

  /** A literal ends with a word character or a quote. */
  lemma MatchLast(pass: Pass, inWord: bool, s: string)
    requires Literally(pass) && MatchLen(pass, inWord, s) > 0
    ensures var c := s[MatchLen(pass, inWord, s) - 1]; IsWord(c) || c == '\'' || c == '"'
  {
    hide Literal, FractionLen;
    match pass
    case SingleQuoted => LiteralLast('\'', s[1..]);
    case DoubleQuoted => LiteralLast('"', s[1..]);
    case Decimal => hide DecimalLen; DecimalLast(inWord, s);
    case Named => assert s[1..][WordRun(s[1..]) - 1] == s[WordRun(s[1..])];
    case Numbered => assert s[1..][DigitRun(s[1..]) - 1] == s[DigitRun(s[1..])];
    case Hex => assert s[2..][HexRun(s[2..]) - 1] == s[1 + HexRun(s[2..])];
    case Int =>
  }

  // ---------- what the scan leaves in front of the numeral ----------

  /** What is left in front still lets a numeral follow, and ends as before. */
  predicate FrontKept(inWord: bool, p: string, w: string) {
    && MayPrecede(inWord, w) && (w == p || '?' in w)
    && (p != "" ==> w != "" && w[|w| - 1] == p[|p| - 1] && (w[0] == p[0] || w[0] == '?'))
  }

  lemma MatchEndsBefore(pass: Pass, inWord: bool, p: string, z: string)
    requires Literally(pass) && NeutralEnd(p) && MatchLen(pass, inWord, p + z) <= |p|
    ensures var n := MatchLen(pass, inWord, p + z);
      n < |p| && (n > 0 && IsWord(p[n - 1]) ==> !IsDigit(p[n]))
  {
    hide MatchLen;
    var n := MatchLen(pass, inWord, p + z);
    if n > 0 {
      MatchLast(pass, inWord, p + z);
      MatchStops(pass, inWord, p + z);
      assert (p + z)[n - 1] == p[n - 1];
      assert n < |p| ==> (p + z)[n..][0] == p[n];
      if pass.SingleQuoted? || pass.DoubleQuoted? { QuotedLast(pass, inWord, p + z); }
    }
  }

  lemma QuotedLast(pass: Pass, inWord: bool, s: string)
    requires (pass.SingleQuoted? || pass.DoubleQuoted?) && MatchLen(pass, inWord, s) > 0
    ensures !IsWord(s[MatchLen(pass, inWord, s) - 1])
  {
    LiteralLast(s[0], s[1..]);
    hide Literal;
  }

  lemma FrontIsNeutral(inWord: bool, p: string)
    requires p != "" && MayPrecede(inWord, p)
    ensures NeutralEnd(p)
  {
  }

  lemma NothingKept(inWord: bool)
    ensures FrontKept(inWord, "", "")
  {
  }

  lemma {:induction false} BeforeMayPrecede(pass: Pass, inWord: bool, p: string, z: string)
    requires Literally(pass) && MayPrecede(inWord, p) && Before(pass, inWord, p, z).Some?
    ensures FrontKept(inWord, p, Before(pass, inWord, p, z).value)
    decreases |p|
  {
    hide MatchLen, Written, MayPrecede, FrontKept;
    if p == "" {
      NothingKept(inWord);
    } else {
      var n := MatchLen(pass, inWord, p + z);
      FrontIsNeutral(inWord, p);
      MatchEndsBefore(pass, inWord, p, z);
      var k := Width(n);
      var rest := Before(pass, IsWord(p[k - 1]), p[k..], z);
      assert rest.Some?;
      if k < |p| {
        TailMayPrecede(inWord, p, k);
        BeforeMayPrecede(pass, IsWord(p[k - 1]), p[k..], z);
      }
      JoinedMayPrecede(pass, inWord, n, p, rest.value);
    }
  }

  lemma HoleEndsDecimal(t: string)
    requires '?' in t
    ensures !GoesOn(t)
  {
    var j :| 0 <= j < |t| && t[j] == '?';
    if |t| > 2 {
      if j < |t| - 2 { assert t[..|t| - 2][j] == '?'; }
      assert t[|t| - 2..][0] == t[|t| - 2] && t[|t| - 2..][1] == t[|t| - 1];
    }
  }

  /** The front with one step more. */
  lemma JoinedMayPrecede(pass: Pass, inWord: bool, n: nat, p: string, w: string)
    requires p != "" && MayPrecede(inWord, p) && Literally(pass) && n < |p|
    requires n > 0 && IsWord(p[n - 1]) ==> !IsDigit(p[n])
    requires if Width(n) < |p| then FrontKept(IsWord(p[Width(n) - 1]), p[Width(n)..], w) else w == "" && n == 0
    ensures FrontKept(inWord, p, Written(pass, n, p) + w)
  {
    var u := Written(pass, n, p);
    if n > 0 { assert u == "?"; } else { assert u == [p[0]]; }
    hide Written, GoesOn, IsWord, PointAt;
    var x := u + w;
    if w == "" {
      assert x == p;
    } else {
      assert x[|x| - 1] == w[|w| - 1] && (n == 0 && w == p[1..] ==> x == p) && (n > 0 ==> x[0] == '?');
      if '?' in w { HoleBehind(u, w); }
      forall i | 0 < i < |x| && PointAt(inWord, x, i) ensures !GoesOn(x[i + 1..]) {
        if x != p { PointInJoined(inWord, IsWord(p[Width(n) - 1]), n == 0, p, x[0], w, i); }
      }
    }
  }

  lemma HoleBehind(u: string, w: string)
    requires '?' in w
    ensures '?' in u + w
  {
    var j :| 0 <= j < |w| && w[j] == '?';
    assert (u + w)[|u| + j] == '?';
  }

  /** A point in the text `[c] + w` stands in `w`, or a placeholder stands behind it. */
  lemma PointInJoined(inWord: bool, f: bool, copied: bool, p: string, c: char, w: string, i: nat)
    requires w != "" && MayPrecede(f, w) && 0 < i < |[c] + w| && PointAt(inWord, [c] + w, i)
    requires if copied then f == IsWord(c) && '?' in w else c == '?' && (IsDigit(w[0]) ==> !f)
    ensures !GoesOn(([c] + w)[i + 1..])
  {
    var x := [c] + w;
    var j: nat :| j < i && NumberUpTo(inWord, x, j, i);
    assert x[i + 1..] == w[i..];
    if j == 0 {
      PointAtFront(inWord, c, w, i);
      HoleEndsDecimal(w[i..]);
    } else {
      PointBehindFront(inWord, f, c, w, j, i);
      hide NumberUpTo, GoesOn;
      assert PointAt(f, w, i - 1);
    }
  }

  lemma PointAtFront(inWord: bool, c: char, w: string, i: nat)
    requires 0 < i <= |w| && w[i - 1] == '.' && NumberUpTo(inWord, [c] + w, 0, i) && (c != '?' ==> '?' in w)
    ensures '?' in w[i..]
  {
    var x := [c] + w;
    assert forall k :: 0 <= k < i ==> x[k] == x[0..i][k];
    assert IsDigit(x[0..i][0]) && x[0] == c;
    var h :| 0 <= h < |w| && w[h] == '?';
    assert x[h + 1] == '?';
    assert w[i..][h - i] == '?';
  }

  lemma PointBehindFront(inWord: bool, f: bool, c: char, w: string, j: nat, i: nat)
    requires 0 < j < i <= |w| && NumberUpTo(inWord, [c] + w, j, i)
    requires !IsWord(c) && IsDigit(w[0]) ==> !f
    ensures NumberUpTo(f, w, j - 1, i - 1)
  {
    SliceBehind(c, w, j, i);
    NumberStarts(w[j - 1..i - 1]);
    hide IsWord, IsNumber;
  }

  lemma SliceBehind(c: char, w: string, j: nat, i: nat)
    requires 0 < j < i <= |w|
    ensures ([c] + w)[j..i] == w[j - 1..i - 1] && w[j - 1..i - 1][0] == w[j - 1]
    ensures ([c] + w)[j - 1] == if j == 1 then c else w[j - 2]
  {
  }

  lemma NumberStarts(d: string)
    requires IsNumber(d)
    ensures IsDigit(d[0])
  {
  }

  // ---------- the scan at the numeral ----------

  /** The pass that reads the numeral, and the passes before it. */
  predicate Reader(pass: Pass, n: Numeral) {
    match n
    case Integer(_) => pass.Int?
    case HexNumber(_) => pass.Hex?
    case Fractional(_, _, _) => pass.Decimal?
  }

  predicate Earlier(pass: Pass, n: Numeral) {
    match n
    case Integer(_) => Literally(pass) && !pass.Int?
    case HexNumber(_) => Literally(pass) && !pass.Hex? && !pass.Decimal? && !pass.Int?
    case Fractional(_, _, _) => Literally(pass) && !pass.Decimal? && !pass.Int?
  }

  /** No literal or placeholder starts with such a character, but a hexadecimal or decimal number may. */
  predicate Inert(s: string) {
    forall i :: 0 <= i < |s| ==> s[i] != '\'' && s[i] != '"' && s[i] != ':' && s[i] != '$' && s[i] != '?'
  }

  predicate Simple(pass: Pass) {
    pass.SingleQuoted? || pass.DoubleQuoted? || pass.Named? || pass.Numbered?
  }

  lemma {:induction false} CopyInert(pass: Pass, inWord: bool, s: string, q: string)
    requires Simple(pass) && Inert(s)
    ensures ReplaceAll(pass, inWord, s + q) == s + ReplaceAll(pass, EndsInWord(inWord, s), q)
    decreases |s|
  {
    hide ReplaceAll, IsWord, Literal, WordRun, DigitRun;
    if s == "" {
      assert s + q == q;
    } else {
      var t := s[1..];
      assert MatchLen(pass, inWord, s + q) == 0;
      ScanStep(pass, inWord, s + q);
      CopyInert(pass, IsWord(s[0]), t, q);
      CopiedOne(pass, inWord, s, q);
    }
  }

  lemma CopiedOne(pass: Pass, inWord: bool, s: string, q: string)
    requires s != ""
    ensures (s + q)[1..] == s[1..] + q && (s + q)[0] == s[0]
    ensures EndsInWord(IsWord(s[0]), s[1..]) == EndsInWord(inWord, s)
    ensures var r := ReplaceAll(pass, EndsInWord(inWord, s), q); [s[0]] + (s[1..] + r) == s + r
  {
    hide ReplaceAll, IsWord;
  }

  /** The characters of integers and decimals. */
  predicate NumeralChars(s: string) {
    forall i :: 0 <= i < |s| ==> IsDigit(s[i]) || IsSign(s[i]) || IsMark(s[i]) || s[i] == '.'
  }

  /** There is no 0x in them. */
  lemma {:induction false} CopyUnderHex(inWord: bool, s: string, q: string)
    requires NumeralChars(s) && Ends(q)
    ensures ReplaceAll(Hex, inWord, s + q) == s + ReplaceAll(Hex, EndsInWord(inWord, s), q)
    decreases |s|
  {
    hide ReplaceAll, HexRun;
    if s == "" {
      assert s + q == q;
    } else {
      var t := s[1..];
      assert |s + q| > 1 ==> (s + q)[1] == if |s| > 1 then s[1] else q[0];
      assert MatchLen(Hex, inWord, s + q) == 0;
      hide IsWord;
      ScanStep(Hex, inWord, s + q);
      CopyUnderHex(IsWord(s[0]), t, q);
      CopiedOne(Hex, inWord, s, q);
    }
  }

  lemma TextChars(n: Numeral)
    requires IsNumeral(n)
    ensures Text(n) != "" && Inert(Text(n)) && IsToken(Text(n))
    ensures !n.HexNumber? ==> NumeralChars(Text(n))
    ensures IsWord(Text(n)[|Text(n)| - 1])
  {
    match n
    case Integer(d) => IntegerChars(d);
    case HexNumber(d) => HexChars(d);
    case Fractional(w, f, e) =>
      hide ExponentText;
      FractionChars(w, f, e);
      NumeralsAreTokens(Text(n));
  }

  lemma IntegerChars(d: string)
    requires IsNumber(d)
    ensures d != "" && NumeralChars(d) && Inert(d) && IsToken(d) && IsWord(d[|d| - 1])
  {
  }

  lemma HexChars(d: string)
    requires IsNumeral(HexNumber(d))
    ensures Inert("0x" + d) && IsToken("0x" + d) && IsWord(("0x" + d)[|d| + 1])
  {
    var s := "0x" + d;
    forall i | 0 <= i < |s| ensures IsWord(s[i]) {
      if i >= 2 { assert s[i] == d[i - 2] && IsHexChar(d[i - 2]); }
    }
    WordsAreTokens(s);
  }

  lemma WordsAreTokens(s: string)
    requires s != "" && forall i :: 0 <= i < |s| ==> IsWord(s[i])
    ensures Inert(s) && IsToken(s)
  {
  }

  lemma FractionChars(w: string, f: string, e: Exponent)
    requires IsNumber(w) && IsNumber(f) && IsExponent(e)
    ensures var s := w + ("." + (f + ExponentText(e)));
      s != "" && NumeralChars(s) && IsDigit(s[0]) && IsDigit(s[|s| - 1])
  {
    ExponentChars(e);
    hide ExponentText;
    var x := ExponentText(e);
    assert NumeralChars(f + x);
  }

  lemma NumeralsAreTokens(s: string)
    requires s != "" && NumeralChars(s) && IsDigit(s[0])
    ensures Inert(s) && IsToken(s)
  {
  }

  lemma ExponentChars(e: Exponent)
    requires IsExponent(e)
    ensures NumeralChars(ExponentText(e))
    ensures ExponentText(e) != "" ==> IsDigit(ExponentText(e)[|ExponentText(e)| - 1])
  {
  }

  lemma CopyNumeral(pass: Pass, n: Numeral, q: string)
    requires IsNumeral(n) && Earlier(pass, n) && MayFollow(n, q)
    ensures ReplaceAll(pass, false, Text(n) + q) == Text(n) + ReplaceAll(pass, true, q)
  {
    TextChars(n);
    var s := Text(n);
    hide ReplaceAll, Text, Inert, NumeralChars, IsToken;
    if Simple(pass) {
      CopyInert(pass, false, s, q);
    } else if pass.Hex? {
      CopyUnderHex(false, s, q);
    } else {
      IntegerUnderDecimal(n.digits, q);
      assert Text(n) == n.digits by { IntegerText(n); }
      CopyNumber(Decimal, n.digits, q);
    }
  }

  lemma IntegerText(n: Numeral)
    requires n.Integer?
    ensures Text(n) == n.digits
  {
  }

  lemma IntegerUnderDecimal(d: string, q: string)
    requires IsNumber(d) && Ends(q) && !PointAndDigit(q)
    ensures MatchLen(Decimal, false, d + q) == 0
  {
    NumberRuns(d, q);
    if q != "" { assert (d + q)[|d|] == q[0]; }
    hide DigitRun, FractionLen;
  }

  // ---------- the pass that reads it ----------

  lemma HexReads(d: string, q: string)
    requires IsNumeral(HexNumber(d)) && Ends(q)
    ensures HexLen(false, "0x" + d + q) == 2 + |d|
  {
    var s := "0x" + d + q;
    HexRunOver(d, q);
    assert HexRun(d) == |d| && HexRun(q) == 0;
    assert s[2..] == d + q && (d + q)[|d|..] == q;
    hide HexRun;
  }

  lemma SignReads(mark: char, sign: string, digits: string, q: string)
    requires IsNumber(digits) && (sign == "" || sign == "+" || sign == "-")
    ensures SignLen([mark] + (sign + (digits + q))) == |sign|
  {
    var s := [mark] + (sign + (digits + q));
    assert s[1] == if sign == "" then digits[0] else sign[0];
  }

  lemma ExponentReads(e: Exponent, q: string)
    requires IsExponent(e) && Ends(q)
    ensures ExponentLen(ExponentText(e) + q) == Some(|ExponentText(e)|)
  {
    match e
    case NoPower => assert ExponentText(e) + q == q;
    case Power(mark, sign, digits) =>
      var s, k := [mark] + (sign + (digits + q)), 1 + |sign|;
      assert ExponentText(e) + q == s;
      NumberRuns(digits, q);
      SignReads(mark, sign, digits, q);
      hide DigitRun, SignLen, Ends;
      assert s[k..] == digits + q && (digits + q)[|digits|..] == q;
  }

  lemma NoDigitsAhead(e: Exponent, q: string)
    requires IsExponent(e) && Ends(q)
    ensures DigitRun(ExponentText(e) + q) == 0
  {
  }

  lemma NumberRunsTo(f: string, r: string)
    requires IsNumber(f) && DigitRun(r) == 0
    ensures DigitRun(f + r) == |f|
  {
    DigitRunOver(f, r);
    assert DigitRun(f) == |f|;
  }

  lemma FractionReads(f: string, e: Exponent, q: string)
    requires IsNumber(f) && IsExponent(e) && Ends(q)
    ensures FractionLen(f + (ExponentText(e) + q)) == Some(|f| + |ExponentText(e)|)
  {
    hide DigitRun, ExponentLen, ExponentText, IsNumber, IsExponent, Ends;
    var r := ExponentText(e) + q;
    ExponentReads(e, q);
    NoDigitsAhead(e, q);
    NumberRunsTo(f, r);
    assert (f + r)[|f|..] == r;
    assert |f| > 0 by { NumberUnquoted(f); }
  }

  lemma DecimalUpToPoint(w: string, r: string)
    requires IsNumber(w)
    ensures DecimalLen(false, w + ("." + r)) == Reach(|w| + 1, FractionLen(r))
  {
    var s := w + ("." + r);
    NumberRuns(w, "." + r);
    hide DigitRun, FractionLen, DecimalLen;
    assert s[|w|] == '.' && s[|w| + 1..] == r;
    DecimalUnfolds(false, s, |w|);
  }

  lemma DecimalReads(w: string, f: string, e: Exponent, q: string)
    requires IsNumber(w) && IsNumber(f) && IsExponent(e) && Ends(q)
    ensures DecimalLen(false, w + ("." + (f + (ExponentText(e) + q)))) == |w| + 1 + |f| + |ExponentText(e)|
  {
    hide FractionLen, ExponentText, DecimalLen, IsExponent, Ends;
    FractionReads(f, e, q);
    DecimalUpToPoint(w, f + (ExponentText(e) + q));
  }

  lemma FractionalText(n: Numeral, q: string)
    requires n.Fractional?
    ensures Text(n) + q == n.whole + ("." + (n.part + (ExponentText(n.exponent) + q)))
    ensures |Text(n)| == |n.whole| + 1 + |n.part| + |ExponentText(n.exponent)|
  {
    hide ExponentText;
  }

  lemma ReaderMatches(pass: Pass, n: Numeral, q: string)
    requires IsNumeral(n) && Reader(pass, n) && MayFollow(n, q)
    ensures MatchLen(pass, false, Text(n) + q) == |Text(n)|
  {
    hide HexLen, DecimalLen, IntLen, ExponentText, Ends;
    match n
    case Integer(d) => AtNumber(Int, d, d, q);
    case HexNumber(d) => HexReads(d, q);
    case Fractional(w, f, e) =>
      DecimalReads(w, f, e, q);
      FractionalText(n, q);
  }

  lemma ReadNumeral(pass: Pass, n: Numeral, q: string)
    requires IsNumeral(n) && Reader(pass, n) && MayFollow(n, q)
    ensures ReplaceAll(pass, false, Text(n) + q) == "?" + ReplaceAll(pass, true, q)
  {
    hide ReplaceAll, MatchLen, Text;
    TextChars(n);
    ReaderMatches(pass, n, q);
    var s := Text(n);
    ScanStep(pass, false, s + q);
    assert (s + q)[|s|..] == q && (s + q)[|s| - 1] == s[|s| - 1];
  }

  lemma CopyHole(pass: Pass, q: string)
    requires Literally(pass) && Ends(q)
    ensures ReplaceAll(pass, false, "?" + q) == "?" + ReplaceAll(pass, false, q)
  {
    assert ("?" + q)[1..] == q;
    assert q != "" ==> !IsDigit(q[0]);
    assert MatchLen(pass, false, "?" + q) == 0;
    hide MatchLen, ReplaceAll;
    ScanStep(pass, false, "?" + q);
  }

  // ---------- every literal pass ----------

  /** x has the numeral where y has a placeholder. */
  predicate Reads(x: string, y: string, p: string, n: Numeral, q: string) {
    x == p + (Text(n) + q) && y == p + ("?" + q) && MayPrecede(false, p) && MayFollow(n, q)
  }

  ghost predicate SoRead(x: string, y: string, n: Numeral) {
    x == y || exists p, q :: Reads(x, y, p, n, q)
  }

  lemma SameIsSoRead(x: string, n: Numeral)
    ensures SoRead(x, x, n)
  {
  }

  lemma FollowKept(pass: Pass, n: Numeral, q: string)
    requires Literally(pass) && MayFollow(n, q)
    ensures MayFollow(n, ReplaceAll(pass, false, q))
  {
    hide ReplaceAll;
    EdgeKept(pass, false, q);
    if q == "" {
      EmptyScan(pass, false);
    } else {
      ScanStep(pass, false, q);
      LiteralHole(pass);
      if |q| > 1 { HeadKept(pass, IsWord(q[0]), q[1..]); } else { EmptyScan(pass, IsWord(q[0])); }
    }
  }

  lemma LiteralHole(pass: Pass)
    requires Literally(pass)
    ensures Replacement(pass) == "?"
  {
  }

  lemma NumeralLeft(pass: Pass, w: string, n: Numeral, q: string)
    requires IsNumeral(n) && (Earlier(pass, n) || Reader(pass, n)) && MayPrecede(false, w) && MayFollow(n, q)
    ensures SoRead(w + ReplaceAll(pass, false, Text(n) + q), w + ReplaceAll(pass, false, "?" + q), n)
    ensures Reader(pass, n) ==> ReplaceAll(pass, false, Text(n) + q) == ReplaceAll(pass, false, "?" + q)
  {
    assert Literally(pass);
    hide ReplaceAll, Text, MayPrecede;
    FlagIrrelevant(pass, true, false, q);
    CopyHole(pass, q);
    var r := ReplaceAll(pass, false, q);
    if Reader(pass, n) {
      ReadNumeral(pass, n, q);
      SameIsSoRead(w + ("?" + r), n);
    } else {
      CopyNumeral(pass, n, q);
      FollowKept(pass, n, q);
      assert Reads(w + (Text(n) + r), w + ("?" + r), w, n, r);
    }
  }

  lemma PrecedingEndsOutside(p: string)
    requires MayPrecede(false, p)
    ensures !EndsInWord(false, p)
  {
  }

  lemma PassKeepsReading(pass: Pass, x: string, y: string, n: Numeral)
    requires IsNumeral(n) && (Earlier(pass, n) || Reader(pass, n)) && SoRead(x, y, n)
    ensures SoRead(Apply(pass, x), Apply(pass, y), n)
    ensures Reader(pass, n) ==> Apply(pass, x) == Apply(pass, y)
  {
    if x == y {
      SameIsSoRead(Apply(pass, x), n);
    } else {
      var p, q :| Reads(x, y, p, n, q);
      assert Literally(pass);
      TextChars(n);
      NumeralScanned(pass, p, n, q);
    }
  }

  lemma NumeralScanned(pass: Pass, p: string, n: Numeral, q: string)
    requires IsNumeral(n) && (Earlier(pass, n) || Reader(pass, n)) && Literally(pass)
    requires MayPrecede(false, p) && MayFollow(n, q) && IsToken(Text(n))
    ensures SoRead(Apply(pass, p + (Text(n) + q)), Apply(pass, p + ("?" + q)), n)
    ensures Reader(pass, n) ==> Apply(pass, p + (Text(n) + q)) == Apply(pass, p + ("?" + q))
  {
    hide MatchLen, ReplaceAll, AgnosticFrom, SoRead, Text, MayPrecede, IsNumeral, Earlier, Reader, Literally;
    assert IsToken("?");
    TokensAgnosticFrom(pass, false, p, Text(n), "?", q);
    PrecedingEndsOutside(p);
    var r := ScanFrom(pass, false, p, Text(n), "?", q);
    match r
    case None => SameIsSoRead(Apply(pass, p + (Text(n) + q)), n);
    case Some(w) =>
      BeforeMayPrecede(pass, false, p, Text(n) + q);
      NumeralLeft(pass, w, n, q);
  }

  lemma StrippedReadsNumeral(x: string, y: string, n: Numeral)
    requires IsNumeral(n) && SoRead(x, y, n)
    ensures Stripped(x) == Stripped(y)
  {
    StrippedIs(x);
    StrippedIs(y);
    hide Apply, SoRead, IsNumeral;
    var x1, y1 := Apply(SingleQuoted, x), Apply(SingleQuoted, y);
    PassKeepsReading(SingleQuoted, x, y, n);
    var x2, y2 := Apply(DoubleQuoted, x1), Apply(DoubleQuoted, y1);
    PassKeepsReading(DoubleQuoted, x1, y1, n);
    var x3, y3 := Apply(Named, x2), Apply(Named, y2);
    PassKeepsReading(Named, x2, y2, n);
    var x4, y4 := Apply(Numbered, x3), Apply(Numbered, y3);
    PassKeepsReading(Numbered, x3, y3, n);
    PassKeepsReading(Hex, x4, y4, n);
    if !n.HexNumber? {
      var x5, y5 := Apply(Hex, x4), Apply(Hex, y4);
      PassKeepsReading(Decimal, x5, y5, n);
      if n.Integer? { PassKeepsReading(Int, Apply(Decimal, x5), Apply(Decimal, y5), n); }
    }
  }

  /** A numeral in a query is read as a placeholder, whatever its kind and value. */
  lemma NumeralsAreHoles(p: string, n: Numeral, q: string)
    requires IsNumeral(n) && MayPrecede(false, p) && MayFollow(n, q)
    ensures Normalize(p + Text(n) + q) == Normalize(p + "?" + q)
  {
    assert p + Text(n) + q == p + (Text(n) + q) && p + "?" + q == p + ("?" + q);
    assert Reads(p + Text(n) + q, p + "?" + q, p, n, q);
    StrippedReadsNumeral(p + Text(n) + q, p + "?" + q, n);
    hide Stripped, Collapsed, Apply, ToLower, TrimSpace;
  }
}
