/** The regular expressions of sql.go, and the backtracking search that gives them their meaning. */
module SqlPatterns {
  import opened Prelude
  import opened Ascii
  import opened Sql

  datatype Class =
    | Digit | Word | HexDigit | Blank
    | Any                    // `.`: everything but a line feed
    | OneOf(chars: string)
    | NoneOf(chars: string)

  predicate InClass(cls: Class, c: char) {
    match cls
    case Digit => IsDigit(c)
    case Word => IsWord(c)
    case HexDigit => IsHexChar(c)
    case Blank => IsBlank(c)
    case Any => c != '\n'
    case OneOf(chars) => c in chars
    case NoneOf(chars) => c !in chars
  }

  datatype Regex =
    | Empty
    | One(cls: Class)
    | Edge                        // \b
    | Then(first: Regex, rest: Regex)
    | Or(left: Regex, right: Regex)
    | Many(body: Regex)           // r*

  /** r+ */
  function Plus(r: Regex): Regex { Then(r, Many(r)) }

  /** r? */
  function Opt(r: Regex): Regex { Or(r, Empty) }

  function Char(c: char): Regex { One(OneOf([c])) }

  function Blanks0(): Regex { Many(One(Blank)) }

  // ---------- the search ----------

  /** What has to be found behind a match: how long the rest of it is, given whether the character before
      is a word character. */
  type Rest = (bool, string) -> Option<nat>

  function Done(): Rest {
    (f: bool, s: string) => Some(0)
  }

  /** The preferred match of `r` at the front of `s` that `k` can complete: the left of two alternatives
      before the right, one more repetition before none. */
  function Search(r: Regex, inWord: bool, s: string, k: Rest): Option<nat>
    decreases r, 0, |s|, 1
  {
    match r
    case Empty => k(inWord, s)
    case One(cls) => if s != "" && InClass(cls, s[0]) then Longer(1, k(IsWord(s[0]), s[1..])) else None
    case Edge => if inWord != !Ends(s) then k(inWord, s) else None
    case Then(a, b) => Search(a, inWord, s, Next(b, k))
    case Or(a, b) =>
      var x := Search(a, inWord, s, k);
      if x.Some? then x else Search(b, inWord, s, k)
    case Many(a) =>
      var x := Search(a, inWord, s, Again(a, k, |s|));
      if x.Some? then x else k(inWord, s)
  }

  function Next(b: Regex, k: Rest): Rest
    decreases b, 1
  {
    (f: bool, s: string) => Search(b, f, s, k)
  }

  /** One more repetition, if the last one was not empty. */
  function Again(a: Regex, k: Rest, before: nat): Rest
    decreases Many(a), 0, before, 0
  {
    (f: bool, s: string) => if |s| < before then Search(Many(a), f, s, k) else None
  }

  // ---------- the patterns ----------

  /** '(?:[^'\\]|\\.|'')*' */
  function QuotedPart(quote: char): Regex {
    Or(One(NoneOf([quote, '\\'])), Or(Then(Char('\\'), One(Any)), Then(Char(quote), Char(quote))))
  }

  function Quoted(quote: char): Regex {
    Then(Char(quote), Then(Many(QuotedPart(quote)), Char(quote)))
  }

  /** (?:[eE][+-]?\d+)? */
  function Exponent(): Regex {
    Then(One(OneOf("eE")), Then(Opt(One(OneOf("+-"))), Plus(One(Digit))))
  }

  /** \s*,\s* and what follows it */
  function AfterComma(r: Regex): Regex {
    Then(Blanks0(), Then(Char(','), Then(Blanks0(), r)))
  }

  function Hole(): Regex { Char('?') }

  /** \s*\) */
  function Closing(): Regex { Then(Blanks0(), Char(')')) }

  /** \(\s*\? , then `more`, then \s*\) */
  function TupleWith(more: Regex): Regex {
    Then(Char('('), Then(Blanks0(), Then(Hole(), Then(more, Closing()))))
  }

  function Tuple(): Regex { TupleWith(Many(AfterComma(Hole()))) }

  function Pattern(pass: Pass): Regex {
    match pass
    case SingleQuoted => Quoted('\'')
    case DoubleQuoted => Quoted('"')
    case Named => Then(One(OneOf(":$")), Plus(One(Word)))
    case Numbered => Then(Char('?'), Plus(One(Digit)))
    case Hex => Then(Edge, Then(Char('0'), Then(Char('x'), Then(Plus(One(HexDigit)), Edge))))
    case Decimal =>
      Then(Edge, Then(Plus(One(Digit)), Then(Char('.'), Then(Plus(One(Digit)), Then(Opt(Exponent()), Edge)))))
    case Int => Then(Edge, Then(Plus(One(Digit)), Edge))
    case InList => Then(Edge, Then(One(OneOf("iI")), Then(One(OneOf("nN")), Then(Blanks0(), Tuple()))))
    case TuplesMany => Then(Tuple(), Plus(AfterComma(Tuple())))
    case TupleMulti => TupleWith(Plus(AfterComma(Hole())))
    case Blanks => Plus(One(Blank))
  }

  /** The length of the preferred match, or 0. */
  function Found(pass: Pass, inWord: bool, s: string): nat {
    match Search(Pattern(pass), inWord, s, Done())
    case Some(n) => n
    case None => 0
  }
}
