/** The SQL normalizer of sql.go: ten regular-expression passes in a fixed order, over ASCII text. Each
    pattern is a matcher that says how long its match at the start of a text is. */
module Sql {
  import opened Prelude
  import opened Ascii

  // ---------- runs of a character class ----------

  function WordRun(s: string): (n: nat)
    ensures n <= |s| && (n < |s| ==> !IsWord(s[n]))
    ensures forall i :: 0 <= i < n ==> IsWord(s[i])
  {
    if s != "" && IsWord(s[0]) then 1 + WordRun(s[1..]) else 0
  }

  function DigitRun(s: string): (n: nat)
    ensures n <= |s| && (n < |s| ==> !IsDigit(s[n]))
    ensures forall i :: 0 <= i < n ==> IsDigit(s[i])
  {
    if s != "" && IsDigit(s[0]) then 1 + DigitRun(s[1..]) else 0
  }

  predicate IsHexChar(c: char) {
    IsDigit(c) || 'a' <= c <= 'f' || 'A' <= c <= 'F'
  }

  function HexRun(s: string): (n: nat)
    ensures n <= |s| && (n < |s| ==> !IsHexChar(s[n]))
    ensures forall i :: 0 <= i < n ==> IsHexChar(s[i])
  {
    if s != "" && IsHexChar(s[0]) then 1 + HexRun(s[1..]) else 0
  }

  function BlankRun(s: string): (n: nat)
    ensures n <= |s| && (n < |s| ==> !IsBlank(s[n]))
    ensures forall i :: 0 <= i < n ==> IsBlank(s[i])
  {
    if s != "" && IsBlank(s[0]) then 1 + BlankRun(s[1..]) else 0
  }

  /** A word boundary after a word character. */
  predicate Ends(s: string) {
    s == "" || !IsWord(s[0])
  }

  // ---------- the patterns ----------
  // Each function gives the length of the match at the start of `s`, or 0. `inWord` says whether the
  // character before `s` is a word character, which is what \b needs to know.

  predicate IsQuote(c: char) { c == '\'' || c == '"' }

  /** After an opening quote: the length up to and with the closing one. A doubled quote goes on when that
      leads to a closing quote, and closes the literal otherwise. */
  function Literal(quote: char, s: string): (r: Option<nat>)
    ensures r.Some? ==> 0 < r.value <= |s|
  {
    if s == "" then None
    else if s[0] == quote then
      if |s| > 1 && s[1] == quote then
        match Literal(quote, s[2..])
        case Some(n) => Some(n + 2)
        case None => Some(1)
      else Some(1)
    else if s[0] == '\\' then
      if |s| > 1 && s[1] != '\n' then Longer(2, Literal(quote, s[2..])) else None
    else Longer(1, Literal(quote, s[1..]))
  }

  function Longer(k: nat, r: Option<nat>): Option<nat> {
    match r
    case Some(n) => Some(n + k)
    case None => None
  }

  /** '(?:[^'\\]|\\.|'')*' and the same with double quotes. */
  function QuotedLen(quote: char, s: string): (n: nat)
    ensures n <= |s|
  {
    if s != "" && s[0] == quote then
      match Literal(quote, s[1..])
      case Some(n) => n + 1
      case None => 0
    else 0
  }

  /** [:$]\w+ */
  function NamedLen(s: string): (n: nat)
    ensures n <= |s|
  {
    if s != "" && (s[0] == ':' || s[0] == '$') && WordRun(s[1..]) > 0 then 1 + WordRun(s[1..]) else 0
  }

  /** \?\d+ */
  function NumberedLen(s: string): (n: nat)
    ensures n <= |s|
  {
    if s != "" && s[0] == '?' && DigitRun(s[1..]) > 0 then 1 + DigitRun(s[1..]) else 0
  }

  /** \b0x[0-9a-fA-F]+\b */
  function HexLen(inWord: bool, s: string): (n: nat)
    ensures n <= |s|
  {
    if !inWord && |s| > 2 && s[0] == '0' && s[1] == 'x' && HexRun(s[2..]) > 0 && Ends(s[2..][HexRun(s[2..])..])
    then 2 + HexRun(s[2..]) else 0
  }

  predicate IsSign(c: char) { c == '+' || c == '-' }

  /** [+-]? after the first character */
  function SignLen(s: string): (n: nat)
    requires s != ""
    ensures 1 + n <= |s|
  {
    if |s| > 1 && IsSign(s[1]) then 1 else 0
  }

  /** (?:[eE][+-]?\d+)?\b : the length of the rest of a decimal, or nothing. */
  function ExponentLen(s: string): (r: Option<nat>)
    ensures r.Some? ==> r.value <= |s|
  {
    if s == "" || !IsWord(s[0]) then Some(0)
    else if s[0] != 'e' && s[0] != 'E' then None
    else
      var digits := s[1 + SignLen(s)..];
      var n := DigitRun(digits);
      if n > 0 && Ends(digits[n..]) then Some(1 + SignLen(s) + n) else None
  }

  /** The part of a decimal after its point. */
  function FractionLen(s: string): (r: Option<nat>)
    ensures r.Some? ==> r.value <= |s|
  {
    var digits := DigitRun(s);
    if digits == 0 then None else Longer(digits, ExponentLen(s[digits..]))
  }

  /** \b\d+\.\d+(?:[eE][+-]?\d+)?\b */
  function DecimalLen(inWord: bool, s: string): (n: nat)
    ensures n <= |s|
  {
    var whole := DigitRun(s);
    if inWord || whole == 0 || whole == |s| || s[whole] != '.' then 0
    else
      match FractionLen(s[whole + 1..])
      case Some(n) => whole + 1 + n
      case None => 0
  }

  /** \b\d+\b */
  function IntLen(inWord: bool, s: string): (n: nat)
    ensures n <= |s|
  {
    if !inWord && DigitRun(s) > 0 && Ends(s[DigitRun(s)..]) then DigitRun(s) else 0
  }

  /** \s*,\s* */
  function SeparatorLen(s: string): (n: nat)
    ensures n <= |s|
  {
    var b := BlankRun(s);
    if b < |s| && s[b] == ',' then b + 1 + BlankRun(s[b + 1..]) else 0
  }

  /** \s*\) */
  function CloseLen(s: string): (n: nat)
    ensures n <= |s| && (n > 0 ==> s[n - 1] == ')')
  {
    var b := BlankRun(s);
    if b < |s| && s[b] == ')' then b + 1 else 0
  }

  /** (?:\s*,\s*\?)*\s*\) : what follows the first placeholder of a tuple, or 0. */
  function TupleTail(s: string): (n: nat)
    ensures n <= |s| && (n > 0 ==> s[n - 1] == ')')
    decreases |s|
  {
    var c := SeparatorLen(s);
    if c == 0 then CloseLen(s)
    else if c < |s| && s[c] == '?' then
      var n := TupleTail(s[c + 1..]);
      if n > 0 then c + 1 + n else 0
    else 0
  }

  /** \(\s*\? : how far the first placeholder of a tuple reaches, or 0. */
  function TupleHead(s: string): (n: nat)
    ensures n <= |s|
  {
    if s != "" && s[0] == '(' && 1 + BlankRun(s[1..]) < |s| && s[1 + BlankRun(s[1..])] == '?'
    then 2 + BlankRun(s[1..]) else 0
  }

  /** \(\s*\?(?:\s*,\s*\?)*\s*\) */
  function TupleLen(s: string): (n: nat)
    ensures n <= |s| && (n > 0 ==> s[n - 1] == ')')
  {
    var h := TupleHead(s);
    if h == 0 || TupleTail(s[h..]) == 0 then 0 else h + TupleTail(s[h..])
  }

  /** \bin\s*, in any case */
  function InHead(inWord: bool, s: string): (n: nat)
    ensures n <= |s|
  {
    if !inWord && |s| > 1 && Lower(s[0]) == 'i' && Lower(s[1]) == 'n' then 2 + BlankRun(s[2..]) else 0
  }

  /** \bin\s*\(\s*\?(?:\s*,\s*\?)*\s*\), in any case */
  function InListLen(inWord: bool, s: string): (n: nat)
    ensures n <= |s| && (n > 0 ==> s[n - 1] == ')')
  {
    var h := InHead(inWord, s);
    if h == 0 || TupleLen(s[h..]) == 0 then 0 else h + TupleLen(s[h..])
  }

  /** (?:\s*,\s*TUPLE)* */
  function MoreTuples(s: string): (n: nat)
    ensures n <= |s|
    decreases |s|
  {
    var c := SeparatorLen(s);
    var n := TupleLen(s[c..]);
    if c == 0 || n == 0 then 0 else c + n + MoreTuples(s[c + n..])
  }

  /** TUPLE(?:\s*,\s*TUPLE)+ */
  function TuplesManyLen(s: string): (n: nat)
    ensures n <= |s|
  {
    var n := TupleLen(s);
    if n == 0 || MoreTuples(s[n..]) == 0 then 0 else n + MoreTuples(s[n..])
  }

  /** \(\s*\?(?:\s*,\s*\?)+\s*\) */
  function TupleMultiLen(s: string): (n: nat)
    ensures n <= |s| && (n > 0 ==> s[n - 1] == ')')
  {
    if SeparatorLen(s[TupleHead(s)..]) > 0 then TupleLen(s) else 0
  }

  // ---------- the passes ----------

  datatype Pass =
    | SingleQuoted | DoubleQuoted | Named | Numbered | Hex | Decimal | Int | InList | TuplesMany | TupleMulti | Blanks

  function MatchLen(pass: Pass, inWord: bool, s: string): (n: nat)
    ensures n <= |s|
  {
    match pass
    case SingleQuoted => QuotedLen('\'', s)
    case DoubleQuoted => QuotedLen('"', s)
    case Named => NamedLen(s)
    case Numbered => NumberedLen(s)
    case Hex => HexLen(inWord, s)
    case Decimal => DecimalLen(inWord, s)
    case Int => IntLen(inWord, s)
    case InList => InListLen(inWord, s)
    case TuplesMany => TuplesManyLen(s)
    case TupleMulti => TupleMultiLen(s)
    case Blanks => BlankRun(s)
  }

  function Replacement(pass: Pass): string {
    match pass
    case InList => "IN (?)"
    case TuplesMany => "(?)"
    case TupleMulti => "(?)"
    case Blanks => " "
    case _ => "?"
  }

  /** ReplaceAllString: leftmost matches, none overlapping. */
  function ReplaceAll(pass: Pass, inWord: bool, s: string): string
    decreases |s|
  {
    if s == "" then ""
    else
      var n := MatchLen(pass, inWord, s);
      if n > 0 then Replacement(pass) + ReplaceAll(pass, IsWord(s[n - 1]), s[n..])
      else [s[0]] + ReplaceAll(pass, IsWord(s[0]), s[1..])
  }

  function Apply(pass: Pass, s: string): string {
    ReplaceAll(pass, false, s)
  }

  /** The passes that read literals and placeholders, in their order. */
  const LITERAL_PASSES := [SingleQuoted, DoubleQuoted, Named, Numbered, Hex, Decimal, Int]

  /** The passes that collapse lists, in theirs. */
  const LIST_PASSES := [InList, TuplesMany, TupleMulti]

  function Through(passes: seq<Pass>, s: string): string {
    if passes == [] then s else Through(passes[1..], Apply(passes[0], s))
  }

  function Stripped(sql: string): string {
    Through(LITERAL_PASSES, sql)
  }

  function Collapsed(s: string): string {
    Through(LIST_PASSES, s)
  }

  /** Normalize */
  function Normalize(sql: string): string {
    ToLower(TrimSpace(Apply(Blanks, Collapsed(Stripped(sql)))))
  }

  /** Whether a word character stands before position `i`. */
  predicate FlagAt(inWord: bool, s: string, i: nat)
    requires i <= |s|
  {
    if i == 0 then inWord else IsWord(s[i - 1])
  }

  // ---------- unfolding ----------

  predicate HoleAt(s: string, k: nat) {
    k < |s| && s[k] == '?'
  }

  lemma TailGoes(s: string, k: nat)
    requires k == SeparatorLen(s) && k > 0
    ensures TupleTail(s) == if HoleAt(s, k) && TupleTail(s[k + 1..]) > 0 then k + 1 + TupleTail(s[k + 1..]) else 0
  {
    hide SeparatorLen, CloseLen;
  }

  lemma TailCloses(s: string)
    requires SeparatorLen(s) == 0
    ensures TupleTail(s) == CloseLen(s)
  {
    hide SeparatorLen, CloseLen;
  }

  lemma PassThen(pass: Pass, rest: seq<Pass>, s: string)
    ensures Through([pass] + rest, s) == Through(rest, Apply(pass, s))
  {
    hide Apply;
    assert ([pass] + rest)[1..] == rest;
  }

  lemma LastPass(pass: Pass, s: string)
    ensures Through([pass], s) == Apply(pass, s)
  {
    hide Apply;
    assert [pass][1..] == [];
  }

  lemma CollapsedIs(s: string)
    ensures Collapsed(s) == Apply(TupleMulti, Apply(TuplesMany, Apply(InList, s)))
  {
    hide Apply, Through;
    assert LIST_PASSES == [InList] + ([TuplesMany] + [TupleMulti]);
    PassThen(InList, [TuplesMany] + [TupleMulti], s);
    PassThen(TuplesMany, [TupleMulti], Apply(InList, s));
    LastPass(TupleMulti, Apply(TuplesMany, Apply(InList, s)));
  }

  lemma StrippedIs(s: string)
    ensures Stripped(s)
         == Apply(Int, Apply(Decimal, Apply(Hex, Apply(Numbered, Apply(Named, Apply(DoubleQuoted,
              Apply(SingleQuoted, s)))))))
  {
    hide Apply, Through;
    var p6 := [Decimal] + [Int];
    var p5 := [Hex] + p6;
    var p4 := [Numbered] + p5;
    var p3 := [Named] + p4;
    var p2 := [DoubleQuoted] + p3;
    assert LITERAL_PASSES == [SingleQuoted] + p2;
    var s1 := Apply(SingleQuoted, s);
    var s2 := Apply(DoubleQuoted, s1);
    var s3 := Apply(Named, s2);
    var s4 := Apply(Numbered, s3);
    var s5 := Apply(Hex, s4);
    PassThen(SingleQuoted, p2, s);
    PassThen(DoubleQuoted, p3, s1);
    PassThen(Named, p4, s2);
    PassThen(Numbered, p5, s3);
    PassThen(Hex, p6, s4);
    PassThen(Decimal, [Int], s5);
    LastPass(Int, Apply(Decimal, s5));
  }
}
