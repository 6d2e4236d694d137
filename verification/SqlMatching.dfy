/** Each matcher of the normalizer finds what the backtracking search finds for its pattern. */
module SqlMatching {
  import opened Prelude
  import opened Ascii
  import opened Sql
  import opened SqlBlocks
  import opened SqlPatterns

  /** `n` is the length of the run of the class at the front of `s`. */
  predicate IsRun(cls: Class, s: string, n: nat) {
    && n <= |s|
    && (forall i :: 0 <= i < n ==> InClass(cls, s[i]))
    && (n < |s| ==> !InClass(cls, s[n]))
  }

  /** Nothing can follow at a place inside the run. */
  predicate NoStop(k: Rest, inWord: bool, s: string, n: nat)
    requires n <= |s|
  {
    forall i: nat :: i < n ==> k(FlagAt(inWord, s, i), s[i..]).None?
  }

  function AtEnd(k: Rest, inWord: bool, s: string, n: nat): Option<nat>
    requires n <= |s|
  {
    k(FlagAt(inWord, s, n), s[n..])
  }

  lemma RunTail(cls: Class, k: Rest, inWord: bool, s: string, n: nat)
    requires IsRun(cls, s, n) && n > 0
    ensures IsRun(cls, s[1..], n - 1)
    ensures AtEnd(k, IsWord(s[0]), s[1..], n - 1) == AtEnd(k, inWord, s, n)
    ensures NoStop(k, inWord, s, n) ==> NoStop(k, IsWord(s[0]), s[1..], n - 1)
  {
    var t := s[1..];
    assert t[n - 1..] == s[n..];
    if NoStop(k, inWord, s, n) {
      forall i: nat | i < n - 1 ensures k(FlagAt(IsWord(s[0]), t, i), t[i..]).None? {
        assert t[i..] == s[i + 1..];
        assert k(FlagAt(inWord, s, i + 1), s[i + 1..]).None?;
      }
    }
  }

  /** A greedy repetition of a class takes the whole run when the rest can follow there, or nowhere earlier. */
  lemma {:induction false} ManyTakesRun(cls: Class, inWord: bool, s: string, k: Rest, n: nat)
    requires IsRun(cls, s, n)
    requires AtEnd(k, inWord, s, n).Some? || NoStop(k, inWord, s, n)
    ensures Search(Many(One(cls)), inWord, s, k) == Longer(n, AtEnd(k, inWord, s, n))
    decreases |s|
  {
    if n > 0 {
      RunTail(cls, k, inWord, s, n);
      ManyTakesRun(cls, IsWord(s[0]), s[1..], k, n - 1);
      ManyStep(cls, inWord, s, k);
      assert s[0..] == s;
    } else {
      assert s[0..] == s;
      ManyStops(cls, inWord, s, k);
    }
  }

  lemma ManyStep(cls: Class, inWord: bool, s: string, k: Rest)
    requires s != "" && InClass(cls, s[0])
    ensures var x := Longer(1, Search(Many(One(cls)), IsWord(s[0]), s[1..], k));
      Search(Many(One(cls)), inWord, s, k) == if x.Some? then x else k(inWord, s)
  {
    hide InClass;
  }

  lemma ManyStops(cls: Class, inWord: bool, s: string, k: Rest)
    requires s == "" || !InClass(cls, s[0])
    ensures Search(Many(One(cls)), inWord, s, k) == k(inWord, s)
  {
    hide InClass;
  }

  /** r+ over a class: at least one, then the run. */
  lemma PlusTakesRun(cls: Class, inWord: bool, s: string, k: Rest, n: nat)
    requires IsRun(cls, s, n) && n > 0
    requires var t, f := s[1..], IsWord(s[0]); AtEnd(k, f, t, n - 1).Some? || NoStop(k, f, t, n - 1)
    ensures Search(Plus(One(cls)), inWord, s, k) == Longer(n, AtEnd(k, inWord, s, n))
  {
    hide InClass;
    RunTail(cls, k, inWord, s, n);
    ManyTakesRun(cls, IsWord(s[0]), s[1..], k, n - 1);
  }

  lemma PlusNeedsOne(cls: Class, inWord: bool, s: string, k: Rest)
    requires s == "" || !InClass(cls, s[0])
    ensures Search(Plus(One(cls)), inWord, s, k) == None
  {
    hide InClass;
  }

  // ---------- runs that stop at a word boundary ----------

  lemma WordIsRun(s: string)
    ensures IsRun(Word, s, WordRun(s))
  {
  }

  lemma DigitIsRun(s: string)
    ensures IsRun(Digit, s, DigitRun(s))
  {
  }

  lemma HexIsRun(s: string)
    ensures IsRun(HexDigit, s, HexRun(s))
  {
  }

  lemma BlankIsRun(s: string)
    ensures IsRun(Blank, s, BlankRun(s))
  {
  }

  predicate Wordlike(cls: Class) {
    cls.Digit? || cls.HexDigit? || cls.Word?
  }

  /** Inside a run of word characters there is no boundary. */
  lemma NoEdgeInside(cls: Class, k: Rest, inWord: bool, s: string, n: nat)
    requires Wordlike(cls) && IsRun(cls, s, n) && inWord
    ensures NoStop(Next(Edge, k), inWord, s, n)
  {
    forall i: nat | i < n ensures Next(Edge, k)(FlagAt(inWord, s, i), s[i..]).None? {
      assert InClass(cls, s[i]) && s[i..][0] == s[i];
    }
  }

  lemma NextIs(r: Regex, k: Rest, inWord: bool, s: string)
    ensures Next(r, k)(inWord, s) == Search(r, inWord, s, k)
  {
  }

  lemma WordRunFlag(cls: Class, inWord: bool, s: string, n: nat)
    requires Wordlike(cls) && IsRun(cls, s, n) && n > 0
    ensures FlagAt(inWord, s, n) && IsWord(s[0])
  {
    assert InClass(cls, s[n - 1]) && InClass(cls, s[0]);
  }

  /** r+\b over a class of word characters */
  lemma PlusEdge(cls: Class, inWord: bool, s: string, k: Rest, n: nat)
    requires Wordlike(cls) && IsRun(cls, s, n)
    ensures Search(Plus(One(cls)), inWord, s, Next(Edge, k))
         == if n > 0 && Ends(s[n..]) then Longer(n, k(true, s[n..])) else None
  {
    hide InClass, Search, IsRun;
    if n == 0 {
      RunNone(cls, s);
      PlusNeedsOne(cls, inWord, s, Next(Edge, k));
    } else {
      PlusEdgeSome(cls, inWord, s, k, n);
    }
  }

  lemma RunNone(cls: Class, s: string)
    requires IsRun(cls, s, 0)
    ensures s == "" || !InClass(cls, s[0])
  {
  }

  lemma PlusEdgeSome(cls: Class, inWord: bool, s: string, k: Rest, n: nat)
    requires Wordlike(cls) && IsRun(cls, s, n) && n > 0
    ensures Search(Plus(One(cls)), inWord, s, Next(Edge, k))
         == if Ends(s[n..]) then Longer(n, k(true, s[n..])) else None
  {
    hide InClass, Search, Next, NoStop;
    WordRunFlag(cls, inWord, s, n);
    RunTail(cls, k, inWord, s, n);
    NoEdgeInside(cls, k, true, s[1..], n - 1);
    PlusTakesRun(cls, inWord, s, Next(Edge, k), n);
    NextIs(Edge, k, true, s[n..]);
    EdgeIs(true, s[n..], k);
  }

  lemma EdgeIs(inWord: bool, s: string, k: Rest)
    ensures Search(Edge, inWord, s, k) == if inWord != !Ends(s) then k(inWord, s) else None
  {
  }

  // ---------- one part after the other ----------

  lemma OneThen(cls: Class, r: Regex, inWord: bool, s: string, k: Rest)
    ensures Search(Then(One(cls), r), inWord, s, k)
         == if s != "" && InClass(cls, s[0]) then Longer(1, Search(r, IsWord(s[0]), s[1..], k)) else None
  {
    hide InClass, IsWord;
    if s != "" { NextIs(r, k, IsWord(s[0]), s[1..]); }
  }

  lemma EdgeThen(r: Regex, inWord: bool, s: string, k: Rest)
    ensures Search(Then(Edge, r), inWord, s, k) == if inWord != !Ends(s) then Search(r, inWord, s, k) else None
  {
    hide Ends;
    NextIs(r, k, inWord, s);
  }

  lemma ThenIs(a: Regex, b: Regex, inWord: bool, s: string, k: Rest)
    ensures Search(Then(a, b), inWord, s, k) == Search(a, inWord, s, Next(b, k))
  {
  }

  function Length(r: Option<nat>): nat {
    match r
    case Some(n) => n
    case None => 0
  }

  // ---------- the word patterns ----------

  /** r+ at the end of a pattern */
  lemma PlusLast(cls: Class, inWord: bool, s: string, n: nat)
    requires IsRun(cls, s, n)
    ensures Search(Plus(One(cls)), inWord, s, Done()) == if n > 0 then Some(n) else None
  {
    hide InClass, Search;
    if n > 0 { PlusTakesRun(cls, inWord, s, Done(), n); }
    else { PlusNeedsOne(cls, inWord, s, Done()); }
  }

  lemma NamedFound(inWord: bool, s: string)
    ensures Found(Named, inWord, s) == NamedLen(s)
  {
    hide Search, WordRun;
    OneThen(OneOf(":$"), Plus(One(Word)), inWord, s, Done());
    if s != "" {
      WordIsRun(s[1..]);
      PlusLast(Word, IsWord(s[0]), s[1..], WordRun(s[1..]));
    }
  }

  lemma NumberedFound(inWord: bool, s: string)
    ensures Found(Numbered, inWord, s) == NumberedLen(s)
  {
    hide Search, DigitRun;
    OneThen(OneOf("?"), Plus(One(Digit)), inWord, s, Done());
    if s != "" {
      DigitIsRun(s[1..]);
      PlusLast(Digit, IsWord(s[0]), s[1..], DigitRun(s[1..]));
    }
  }

  lemma BlanksFound(inWord: bool, s: string)
    ensures Found(Blanks, inWord, s) == BlankRun(s)
  {
    hide Search, BlankRun;
    BlankIsRun(s);
    PlusLast(Blank, inWord, s, BlankRun(s));
  }

  /** r+\b at the end of a pattern */
  lemma PlusEdgeLast(cls: Class, inWord: bool, s: string, n: nat)
    requires Wordlike(cls) && IsRun(cls, s, n)
    ensures Search(Then(Plus(One(cls)), Edge), inWord, s, Done())
         == if n > 0 && Ends(s[n..]) then Some(n) else None
  {
    hide InClass, Search, Ends;
    ThenIs(Plus(One(cls)), Edge, inWord, s, Done());
    PlusEdge(cls, inWord, s, Done(), n);
  }

  lemma IntFound(inWord: bool, s: string)
    ensures Found(Int, inWord, s) == IntLen(inWord, s)
  {
    hide Search, DigitRun;
    EdgeThen(Then(Plus(One(Digit)), Edge), inWord, s, Done());
    DigitIsRun(s);
    PlusEdgeLast(Digit, inWord, s, DigitRun(s));
  }

  lemma HexFound(inWord: bool, s: string)
    ensures Found(Hex, inWord, s) == HexLen(inWord, s)
  {
    hide Search, HexRun;
    var last := Then(Plus(One(HexDigit)), Edge);
    EdgeThen(Then(Char('0'), Then(Char('x'), last)), inWord, s, Done());
    OneThen(OneOf("0"), Then(Char('x'), last), inWord, s, Done());
    if s != "" {
      OneThen(OneOf("x"), last, IsWord(s[0]), s[1..], Done());
      if |s| > 1 {
        assert s[1..][1..] == s[2..] && s[1..][0] == s[1];
        HexIsRun(s[2..]);
        PlusEdgeLast(HexDigit, IsWord(s[1]), s[2..], HexRun(s[2..]));
      }
    }
  }

  // ---------- decimals ----------

  /** The pattern starts with this character. */
  predicate StartsWith(r: Regex, c: char) {
    r == Char(c) || (r.Then? && r.first == Char(c))
  }

  lemma MissesStart(r: Regex, c: char, inWord: bool, s: string, k: Rest)
    requires StartsWith(r, c) && (s == "" || s[0] != c)
    ensures Search(r, inWord, s, k) == None
  {
  }

  lemma NoStartInside(cls: Class, r: Regex, c: char, k: Rest, inWord: bool, s: string, n: nat)
    requires StartsWith(r, c) && !InClass(cls, c) && IsRun(cls, s, n)
    ensures NoStop(Next(r, k), inWord, s, n)
  {
    hide Search;
    forall i: nat | i < n ensures Next(r, k)(FlagAt(inWord, s, i), s[i..]).None? {
      assert InClass(cls, s[i]) && s[i..][0] == s[i];
      MissesStart(r, c, FlagAt(inWord, s, i), s[i..], k);
      NextIs(r, k, FlagAt(inWord, s, i), s[i..]);
    }
  }

  /** r+ and something that cannot follow inside the run */
  lemma PlusThen(cls: Class, r: Regex, inWord: bool, s: string, k: Rest, n: nat)
    requires IsRun(cls, s, n)
    requires n > 0 ==> NoStop(Next(r, k), IsWord(s[0]), s[1..], n - 1)
    ensures Search(Then(Plus(One(cls)), r), inWord, s, k)
         == if n == 0 then None else Longer(n, Search(r, FlagAt(inWord, s, n), s[n..], k))
  {
    hide InClass, Search, NoStop;
    ThenIs(Plus(One(cls)), r, inWord, s, k);
    if n == 0 {
      RunNone(cls, s);
      PlusNeedsOne(cls, inWord, s, Next(r, k));
    } else {
      PlusTakesRun(cls, inWord, s, Next(r, k), n);
      NextIs(r, k, FlagAt(inWord, s, n), s[n..]);
    }
  }

  lemma OptIs(r: Regex, inWord: bool, s: string, k: Rest)
    ensures var x := Search(r, inWord, s, k); Search(Opt(r), inWord, s, k) == if x.Some? then x else k(inWord, s)
  {
  }

  const SIGN := One(OneOf("+-"))

  lemma Unsigned(t: string, k: Rest)
    requires t == "" || !IsSign(t[0])
    ensures Search(Then(Opt(SIGN), Plus(One(Digit))), true, t, k) == Search(Plus(One(Digit)), true, t, k)
  {
    hide Search, Plus, Opt;
    var digits := Plus(One(Digit));
    ThenIs(Opt(SIGN), digits, true, t, k);
    OptIs(SIGN, true, t, Next(digits, k));
    OneIs(OneOf("+-"), true, t, Next(digits, k));
    NextIs(digits, k, true, t);
  }

  /** The sign is taken when it is there; without it no digit could follow. */
  lemma Signed(t: string, k: Rest)
    requires t != "" && IsSign(t[0])
    ensures Search(Then(Opt(SIGN), Plus(One(Digit))), true, t, k)
         == Longer(1, Search(Plus(One(Digit)), false, t[1..], k))
  {
    hide Search, Opt;
    var digits := Plus(One(Digit));
    ThenIs(Opt(SIGN), digits, true, t, k);
    OptIs(SIGN, true, t, Next(digits, k));
    OneIs(OneOf("+-"), true, t, Next(digits, k));
    NextIs(digits, k, true, t);
    NextIs(digits, k, false, t[1..]);
    PlusNeedsOne(Digit, true, t, k);
  }

  /** [+-]?\d+\b */
  lemma SignedFound(t: string)
    ensures var k := if t != "" && IsSign(t[0]) then 1 else 0;
      var n := DigitRun(t[k..]);
      Search(Then(Opt(SIGN), Plus(One(Digit))), true, t, Next(Edge, Done()))
      == if n > 0 && Ends(t[k..][n..]) then Some(k + n) else None
  {
    hide Search, DigitRun, Ends, Plus, Opt, Next, Done;
    var edge := Next(Edge, Done());
    if t != "" && IsSign(t[0]) {
      Signed(t, edge);
      DigitsFound(false, t[1..]);
    } else {
      Unsigned(t, edge);
      DigitsFound(true, t);
      assert t[0..] == t;
    }
  }

  /** \d+\b */
  lemma DigitsFound(inWord: bool, t: string)
    ensures var n := DigitRun(t);
      Search(Plus(One(Digit)), inWord, t, Next(Edge, Done())) == if n > 0 && Ends(t[n..]) then Some(n) else None
    ensures t == "" || !IsDigit(t[0]) ==> DigitRun(t) == 0
  {
    hide Search, Ends;
    DigitIsRun(t);
    PlusEdge(Digit, inWord, t, Done(), DigitRun(t));
  }

  lemma OneIs(cls: Class, inWord: bool, s: string, k: Rest)
    ensures Search(One(cls), inWord, s, k)
         == if s != "" && InClass(cls, s[0]) then Longer(1, k(IsWord(s[0]), s[1..])) else None
  {
  }

  lemma ExponentFound(s: string)
    ensures Search(Then(Opt(Exponent()), Edge), true, s, Done()) == ExponentLen(s)
  {
    hide Search, DigitRun;
    var edge := Next(Edge, Done());
    ThenIs(Opt(Exponent()), Edge, true, s, Done());
    OptIs(Exponent(), true, s, edge);
    OneThen(OneOf("eE"), Then(Opt(One(OneOf("+-"))), Plus(One(Digit))), true, s, edge);
    NextIs(Edge, Done(), true, s);
    EdgeIs(true, s, Done());
    if s != "" && (s[0] == 'e' || s[0] == 'E') {
      SignedFound(s[1..]);
      assert s[1..][SignLen(s)..] == s[1 + SignLen(s)..];
    }
  }

  lemma NoFractionEndInside(s: string, n: nat)
    requires IsRun(Digit, s, n)
    ensures NoStop(Next(Then(Opt(Exponent()), Edge), Done()), true, s, n)
  {
    hide Search, Exponent;
    var r := Then(Opt(Exponent()), Edge);
    forall i: nat | i < n ensures Next(r, Done())(FlagAt(true, s, i), s[i..]).None? {
      assert InClass(Digit, s[i]) && s[i..][0] == s[i];
      assert FlagAt(true, s, i) by { if i > 0 { assert InClass(Digit, s[i - 1]); } }
      NextIs(r, Done(), true, s[i..]);
      ExponentFound(s[i..]);
    }
  }

  lemma FractionFound(inWord: bool, s: string)
    ensures Search(Then(Plus(One(Digit)), Then(Opt(Exponent()), Edge)), inWord, s, Done()) == FractionLen(s)
  {
    hide Search, Exponent, ExponentLen, DigitRun;
    var n := DigitRun(s);
    DigitIsRun(s);
    if n > 0 {
      WordRunFlag(Digit, inWord, s, n);
      RunTail(Digit, Done(), inWord, s, n);
      NoFractionEndInside(s[1..], n - 1);
    }
    PlusThen(Digit, Then(Opt(Exponent()), Edge), inWord, s, Done(), n);
    ExponentFound(s[n..]);
  }

  lemma DecimalFound(inWord: bool, s: string)
    ensures Found(Decimal, inWord, s) == DecimalLen(inWord, s)
  {
    hide Search, Exponent, FractionLen, DigitRun;
    var fraction := Then(Plus(One(Digit)), Then(Opt(Exponent()), Edge));
    var r := Then(Char('.'), fraction);
    EdgeThen(Then(Plus(One(Digit)), r), inWord, s, Done());
    var n := DigitRun(s);
    DigitIsRun(s);
    if n > 0 {
      WordRunFlag(Digit, inWord, s, n);
      RunTail(Digit, Done(), inWord, s, n);
      NoStartInside(Digit, r, '.', Done(), IsWord(s[0]), s[1..], n - 1);
    }
    PlusThen(Digit, r, inWord, s, Done(), n);
    if n > 0 {
      OneThen(OneOf("."), fraction, true, s[n..], Done());
      if n < |s| {
        FractionFound(IsWord(s[n]), s[n + 1..]);
        assert s[n..][1..] == s[n + 1..];
      }
    } else {
      RunNone(Digit, s);
    }
  }

  // ---------- quoted literals ----------

  /** One part of a literal, and what follows. */
  lemma PartIs(quote: char, inWord: bool, s: string, k: Rest)
    requires quote != '\\'
    ensures Search(QuotedPart(quote), inWord, s, k)
         == if s == "" then None
            else if s[0] != quote && s[0] != '\\' then Longer(1, k(IsWord(s[0]), s[1..]))
            else if |s| > 1 && (if s[0] == quote then s[1] == quote else s[1] != '\n')
            then Longer(2, k(IsWord(s[1]), s[2..]))
            else None
  {
    hide Search;
    var plain, escape, double := One(NoneOf([quote, '\\'])), Then(Char('\\'), One(Any)), Then(Char(quote), Char(quote));
    OrIs(plain, Or(escape, double), inWord, s, k);
    OrIs(escape, double, inWord, s, k);
    OneIs(NoneOf([quote, '\\']), inWord, s, k);
    OneThen(OneOf(['\\']), One(Any), inWord, s, k);
    OneThen(OneOf([quote]), Char(quote), inWord, s, k);
    if s != "" {
      OneIs(Any, IsWord(s[0]), s[1..], k);
      OneIs(OneOf([quote]), IsWord(s[0]), s[1..], k);
      if |s| > 1 { assert s[1..][0] == s[1] && s[1..][1..] == s[2..]; }
    }
  }

  lemma OrIs(a: Regex, b: Regex, inWord: bool, s: string, k: Rest)
    ensures var x := Search(a, inWord, s, k);
      Search(Or(a, b), inWord, s, k) == if x.Some? then x else Search(b, inWord, s, k)
  {
  }

  lemma ManyIs(a: Regex, inWord: bool, s: string, k: Rest)
    ensures var x := Search(a, inWord, s, Again(a, k, |s|));
      Search(Many(a), inWord, s, k) == if x.Some? then x else k(inWord, s)
  {
  }

  lemma AgainIs(a: Regex, k: Rest, before: nat, inWord: bool, s: string)
    requires |s| < before
    ensures Again(a, k, before)(inWord, s) == Search(Many(a), inWord, s, k)
  {
  }

  lemma {:induction false} LiteralFound(quote: char, inWord: bool, s: string)
    requires quote != '\\'
    ensures Search(Many(QuotedPart(quote)), inWord, s, Next(Char(quote), Done())) == Literal(quote, s)
    decreases |s|
  {
    hide Search, QuotedPart;
    var part, k := QuotedPart(quote), Next(Char(quote), Done());
    ManyIs(part, inWord, s, k);
    PartIs(quote, inWord, s, Again(part, k, |s|));
    NextIs(Char(quote), Done(), inWord, s);
    OneIs(OneOf([quote]), inWord, s, Done());
    if s == "" {
    } else {
      AgainIs(part, k, |s|, IsWord(s[0]), s[1..]);
      LiteralFound(quote, IsWord(s[0]), s[1..]);
      if |s| > 1 {
        AgainIs(part, k, |s|, IsWord(s[1]), s[2..]);
        LiteralFound(quote, IsWord(s[1]), s[2..]);
      }
    }
  }

  lemma QuotedFound(quote: char, inWord: bool, s: string)
    requires quote != '\\'
    ensures Length(Search(Quoted(quote), inWord, s, Done())) == QuotedLen(quote, s)
  {
    hide Search, Literal, QuotedPart;
    OneThen(OneOf([quote]), Then(Many(QuotedPart(quote)), Char(quote)), inWord, s, Done());
    if s != "" {
      ThenIs(Many(QuotedPart(quote)), Char(quote), IsWord(s[0]), s[1..], Done());
      LiteralFound(quote, IsWord(s[0]), s[1..]);
    }
  }

  // ---------- lists ----------

  /** \s* and something that does not start with a blank */
  lemma BlanksThen(r: Regex, c: char, inWord: bool, s: string, k: Rest)
    requires StartsWith(r, c) && !IsBlank(c)
    ensures var b := BlankRun(s);
      Search(Then(Blanks0(), r), inWord, s, k) == Longer(b, Search(r, FlagAt(inWord, s, b), s[b..], k))
  {
    hide Search, BlankRun, StartsWith, NoStop;
    var b := BlankRun(s);
    ThenIs(Blanks0(), r, inWord, s, k);
    BlankIsRun(s);
    NoStartInside(Blank, r, c, k, inWord, s, b);
    ManyTakesRun(Blank, inWord, s, Next(r, k), b);
    NextIs(r, k, FlagAt(inWord, s, b), s[b..]);
  }

  /** \s*,\s* and something that does not start with a blank */
  lemma CommaThen(r: Regex, c: char, inWord: bool, s: string, k: Rest) returns (f: bool)
    requires StartsWith(r, c) && !IsBlank(c)
    ensures var n := SeparatorLen(s);
      Search(AfterComma(r), inWord, s, k) == if n == 0 then None else Longer(n, Search(r, f, s[n..], k))
  {
    hide Search, BlankRun, StartsWith, IsWord;
    var b := BlankRun(s);
    var more := Then(Blanks0(), r);
    CommaStarts(more);
    BlanksThen(Then(Char(','), more), ',', inWord, s, k);
    OneThen(OneOf([',']), more, FlagAt(inWord, s, b), s[b..], k);
    if b < |s| && s[b] == ',' {
      f := CommaRest(r, c, s, b, k);
    } else {
      f := false;
    }
  }

  lemma CommaRest(r: Regex, c: char, s: string, b: nat, k: Rest) returns (f: bool)
    requires StartsWith(r, c) && !IsBlank(c) && b < |s|
    ensures var n := b + 1 + BlankRun(s[b + 1..]);
      Longer(b, Longer(1, Search(Then(Blanks0(), r), IsWord(s[b]), s[b..][1..], k)))
      == Longer(n, Search(r, f, s[n..], k))
  {
    hide Search, BlankRun, StartsWith, IsWord, Longer;
    var t := s[b + 1..];
    var d := BlankRun(t);
    assert s[b..][1..] == t && t[d..] == s[b + 1 + d..];
    BlanksThen(r, c, IsWord(s[b]), t, k);
    f := FlagAt(IsWord(s[b]), t, d);
    var x := Search(r, f, t[d..], k);
    LongerTwice(1, d, x);
    LongerTwice(b, 1 + d, x);
  }

  lemma CommaStarts(more: Regex)
    ensures StartsWith(Then(Char(','), more), ',')
  {
  }

  /** A match of a part of a list ends outside words. */
  function After(n: nat, s: string, k: Rest): Option<nat>
    requires n <= |s|
  {
    if n == 0 then None else Longer(n, k(false, s[n..]))
  }

  lemma ClosingFound(inWord: bool, s: string, k: Rest)
    ensures Search(Closing(), inWord, s, k) == After(CloseLen(s), s, k)
  {
    hide Search, BlankRun;
    BlanksThen(Char(')'), ')', inWord, s, k);
    var b := BlankRun(s);
    OneIs(OneOf([')']), FlagAt(inWord, s, b), s[b..], k);
    if b < |s| { assert s[b..][1..] == s[b + 1..]; }
  }

  /** `\s*,\s*\?` once */
  lemma OneMoreHole(inWord: bool, s: string, k: Rest)
    ensures var n := SeparatorLen(s);
      Search(AfterComma(Hole()), inWord, s, k) == if 0 < n < |s| && s[n] == '?' then After(n + 1, s, k) else None
  {
    hide Search, SeparatorLen;
    var f := CommaThen(Hole(), '?', inWord, s, k);
    var n := SeparatorLen(s);
    OneIs(OneOf(['?']), f, s[n..], k);
    if n < |s| { assert s[n..][1..] == s[n + 1..]; }
  }

  lemma AfterTwice(m: nat, n: nat, s: string, k: Rest)
    requires 0 < m && m + n <= |s|
    ensures Longer(m, After(n, s[m..], k)) == After(if n == 0 then 0 else m + n, s, k)
  {
    assert s[m..][n..] == s[m + n..];
  }

  /** No further placeholder, so the tuple has to close here. */
  lemma TailEndsHere(inWord: bool, s: string, k: Rest)
    requires var n := SeparatorLen(s); n == 0 || n == |s| || s[n] != '?'
    ensures Search(Many(AfterComma(Hole())), inWord, s, Next(Closing(), k)) == After(TupleTail(s), s, k)
  {
    hide Search, SeparatorLen, AfterComma, CloseLen, Closing, Hole, After;
    var part, close := AfterComma(Hole()), Next(Closing(), k);
    ManyIs(part, inWord, s, close);
    OneMoreHole(inWord, s, Again(part, close, |s|));
    NextIs(Closing(), k, inWord, s);
    ClosingFound(inWord, s, k);
    if SeparatorLen(s) > 0 { NoCloseAtComma(s); }
  }

  /** (?:\s*,\s*\?)*\s*\) */
  lemma {:induction false} TailFound(inWord: bool, s: string, k: Rest)
    ensures Search(Many(AfterComma(Hole())), inWord, s, Next(Closing(), k)) == After(TupleTail(s), s, k)
    decreases |s|
  {
    hide Search, SeparatorLen, AfterComma, CloseLen, Closing, Hole, Next, Again, TupleTail;
    var n := SeparatorLen(s);
    if n == 0 || n == |s| || s[n] != '?' {
      TailEndsHere(inWord, s, k);
    } else {
      var part, close, t := AfterComma(Hole()), Next(Closing(), k), s[n + 1..];
      ManyIs(part, inWord, s, close);
      OneMoreHole(inWord, s, Again(part, close, |s|));
      AgainIs(part, close, |s|, false, t);
      TailFound(false, t, k);
      AfterTwice(n + 1, TupleTail(t), s, k);
      TailGoes(s, n);
      NextIs(Closing(), k, inWord, s);
      ClosingFound(inWord, s, k);
      NoCloseAtComma(s);
    }
  }

  lemma NoCloseAtComma(s: string)
    requires SeparatorLen(s) > 0
    ensures CloseLen(s) == 0
  {
    hide BlankRun;
  }

  /** The front of a tuple up to its first placeholder. */
  lemma TupleWithFound(more: Regex, inWord: bool, s: string, k: Rest)
    ensures var h := TupleHead(s);
      Search(TupleWith(more), inWord, s, k)
      == if h == 0 then None else Longer(h, Search(Then(more, Closing()), false, s[h..], k))
  {
    hide Search, BlankRun, Closing;
    var r1 := Then(more, Closing());
    var r2 := Then(Hole(), r1);
    OneThen(OneOf(['(']), Then(Blanks0(), r2), inWord, s, k);
    if s != "" && s[0] == '(' {
      var t := s[1..];
      BlanksThen(r2, '?', IsWord('('), t, k);
      var b := BlankRun(t);
      var f := FlagAt(IsWord('('), t, b);
      OneThen(OneOf(['?']), r1, f, t[b..], k);
      if b < |t| { assert t[b..][1..] == s[2 + b..] && t[b] == s[1 + b]; }
    }
  }

  lemma TupleFound(inWord: bool, s: string, k: Rest)
    ensures Search(Tuple(), inWord, s, k) == After(TupleLen(s), s, k)
  {
    hide Search, TupleHead, TupleTail, AfterComma, Closing;
    var more := Many(AfterComma(Hole()));
    TupleWithFound(more, inWord, s, k);
    var h := TupleHead(s);
    var t := s[h..];
    ThenIs(more, Closing(), false, t, k);
    TailFound(false, t, k);
    assert t[TupleTail(t)..] == s[h + TupleTail(t)..];
  }

  lemma BlanksTupleFound(inWord: bool, t: string)
    ensures var b := BlankRun(t);
      Search(Then(Blanks0(), Tuple()), inWord, t, Done()) == Longer(b, After(TupleLen(t[b..]), t[b..], Done()))
  {
    hide Search, BlankRun, TupleLen, Tuple, After;
    var b := BlankRun(t);
    TupleStarts();
    BlanksThen(Tuple(), '(', inWord, t, Done());
    TupleFound(FlagAt(inWord, t, b), t[b..], Done());
  }

  lemma AfterLetterI(s: string)
    requires s != ""
    ensures Search(Then(One(OneOf("nN")), Then(Blanks0(), Tuple())), IsWord(s[0]), s[1..], Done())
         == if |s| == 1 || Lower(s[1]) != 'n' then None
            else var b := 2 + BlankRun(s[2..]); Longer(b - 1, After(TupleLen(s[b..]), s[b..], Done()))
  {
    hide Search, BlankRun, TupleLen, Tuple, IsWord, After;
    OneThen(OneOf("nN"), Then(Blanks0(), Tuple()), IsWord(s[0]), s[1..], Done());
    if |s| > 1 {
      var t := s[2..];
      assert s[1..][1..] == t && s[1..][0] == s[1];
      BlanksTupleFound(IsWord(s[1]), t);
      assert t[BlankRun(t)..] == s[2 + BlankRun(t)..];
    }
  }

  lemma InListFound(inWord: bool, s: string)
    ensures Found(InList, inWord, s) == InListLen(inWord, s)
  {
    hide Search, BlankRun, TupleLen, Tuple;
    var r := Then(One(OneOf("nN")), Then(Blanks0(), Tuple()));
    EdgeThen(Then(One(OneOf("iI")), r), inWord, s, Done());
    OneThen(OneOf("iI"), r, inWord, s, Done());
    if s != "" { AfterLetterI(s); }
  }

  lemma TupleStarts()
    ensures StartsWith(Tuple(), '(')
  {
  }

  /** `\s*,\s*` and a tuple, once */
  lemma OneMoreTuple(inWord: bool, s: string, k: Rest)
    ensures var c := SeparatorLen(s); var n := TupleLen(s[c..]);
      Search(AfterComma(Tuple()), inWord, s, k) == if c == 0 || n == 0 then None else After(c + n, s, k)
  {
    hide Search, SeparatorLen, TupleLen, Tuple, AfterComma;
    TupleStarts();
    var f := CommaThen(Tuple(), '(', inWord, s, k);
    var c := SeparatorLen(s);
    var n := TupleLen(s[c..]);
    TupleFound(f, s[c..], k);
    assert s[c..][n..] == s[c + n..];
  }

  /** (?:\s*,\s*TUPLE)* at the end of a pattern */
  lemma {:induction false} MoreTuplesFound(inWord: bool, s: string)
    ensures Search(Many(AfterComma(Tuple())), inWord, s, Done()) == Some(MoreTuples(s))
    decreases |s|
  {
    hide Search, SeparatorLen, TupleLen, Tuple, AfterComma;
    var part := AfterComma(Tuple());
    ManyIs(part, inWord, s, Done());
    OneMoreTuple(inWord, s, Again(part, Done(), |s|));
    var c := SeparatorLen(s);
    var n := TupleLen(s[c..]);
    if c == 0 || n == 0 {
    } else {
      AgainIs(part, Done(), |s|, false, s[c + n..]);
      MoreTuplesFound(false, s[c + n..]);
    }
  }

  /** (?:\s*,\s*TUPLE)+ at the end of a pattern */
  lemma PlusTuplesFound(inWord: bool, t: string)
    ensures Search(Plus(AfterComma(Tuple())), inWord, t, Done())
         == if MoreTuples(t) == 0 then None else Some(MoreTuples(t))
  {
    hide Search, SeparatorLen, TupleLen, Tuple, AfterComma, Done;
    var part := AfterComma(Tuple());
    ThenIs(part, Many(part), inWord, t, Done());
    OneMoreTuple(inWord, t, Next(Many(part), Done()));
    var c := SeparatorLen(t);
    var m := TupleLen(t[c..]);
    if c > 0 && m > 0 {
      NextIs(Many(part), Done(), false, t[c + m..]);
      MoreTuplesFound(false, t[c + m..]);
    }
  }

  lemma TuplesManyFound(inWord: bool, s: string)
    ensures Found(TuplesMany, inWord, s) == TuplesManyLen(s)
  {
    hide Search, MoreTuples, TupleLen, Tuple, AfterComma, Plus;
    var more := Plus(AfterComma(Tuple()));
    ThenIs(Tuple(), more, inWord, s, Done());
    TupleFound(inWord, s, Next(more, Done()));
    var t := s[TupleLen(s)..];
    NextIs(more, Done(), false, t);
    PlusTuplesFound(false, t);
  }

  lemma TupleMultiFound(inWord: bool, s: string)
    ensures Found(TupleMulti, inWord, s) == TupleMultiLen(s)
  {
    hide Search, SeparatorLen, TupleHead, AfterComma, Closing, CloseLen;
    var part := AfterComma(Hole());
    TupleWithFound(Plus(part), inWord, s, Done());
    var t := s[TupleHead(s)..];
    var close := Next(Closing(), Done());
    ThenIs(Plus(part), Closing(), false, t, Done());
    ThenIs(part, Many(part), false, t, close);
    OneMoreHole(false, t, Next(Many(part), close));
    var c := SeparatorLen(t);
    if 0 < c < |t| && t[c] == '?' {
      NextIs(Many(part), close, false, t[c + 1..]);
      TailFound(false, t[c + 1..], Done());
    }
  }

  // ---------- all of them ----------

  /** The matcher of every pass finds the match that the backtracking search prefers for its pattern. */
  lemma MatchersFollowPatterns(pass: Pass, inWord: bool, s: string)
    ensures MatchLen(pass, inWord, s) == Found(pass, inWord, s)
  {
    hide Search, NamedLen, NumberedLen, HexLen, DecimalLen, IntLen, InListLen, TuplesManyLen, TupleMultiLen, QuotedLen;
    match pass
    case SingleQuoted => QuotedFound('\'', inWord, s);
    case DoubleQuoted => QuotedFound('"', inWord, s);
    case Named => NamedFound(inWord, s);
    case Numbered => NumberedFound(inWord, s);
    case Hex => HexFound(inWord, s);
    case Decimal => DecimalFound(inWord, s);
    case Int => IntFound(inWord, s);
    case InList => InListFound(inWord, s);
    case TuplesMany => TuplesManyFound(inWord, s);
    case TupleMulti => TupleMultiFound(inWord, s);
    case Blanks => BlanksFound(inWord, s);
  }
}
