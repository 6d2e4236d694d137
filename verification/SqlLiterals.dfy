/** String literals under the quote passes: each pass reads its own, whatever their bodies, and leaves the rest. */
module SqlLiterals {
  import opened Prelude
  import opened Ascii
  import opened Sql
  import opened SqlTemplate
  import opened SqlBlocks
  import opened SqlChars

  // ---------- queries with literals ----------

  /** What may stand between two quotes: plain characters, escaped characters and doubled quotes. */
  predicate IsBody(quote: char, b: string)
    decreases |b|
  {
    || b == ""
    || (b[0] != quote && b[0] != '\\' && IsBody(quote, b[1..]))
    || (|b| > 1 && b[0] == '\\' && b[1] != '\n' && IsBody(quote, b[2..]))
    || (|b| > 1 && b[0] == quote && b[1] == quote && IsBody(quote, b[2..]))
  }

  datatype StringLiteral = StringLiteral(quote: char, body: string)

  /** A literal in a text where those between the quotes `read` have been read. */
  function Shown(read: string, l: StringLiteral): string {
    if l.quote in read then "?" else [l.quote] + (l.body + [l.quote])
  }

  /** A query with literals between its other parts. */
  function Reading(read: string, parts: seq<string>, literals: seq<StringLiteral>): string
    requires |parts| == |literals| + 1
    decreases |literals|
  {
    if literals == [] then parts[0]
    else parts[0] + (Shown(read, literals[0]) + Reading(read, parts[1..], literals[1..]))
  }

  function Query(parts: seq<string>, literals: seq<StringLiteral>): string
    requires |parts| == |literals| + 1
  {
    Reading("", parts, literals)
  }

  /** Two literals between the same quotes do not touch: they would read as one. */
  predicate Apart(parts: seq<string>, literals: seq<StringLiteral>) {
    |parts| == |literals| + 1 &&
    forall i :: 0 < i < |literals| && literals[i].quote == literals[i - 1].quote ==> parts[i] != ""
  }

  predicate Without(quote: char, parts: seq<string>) {
    forall i :: 0 <= i < |parts| ==> quote !in parts[i]
  }

  /** Where the literals between `quote` are read, the others have no such character, unless they have been
      read before. */
  predicate ReadableBy(quote: char, read: string, l: StringLiteral) {
    if l.quote == quote then IsBody(quote, l.body) else l.quote in read || quote !in l.body
  }

  predicate AllReadableBy(quote: char, read: string, literals: seq<StringLiteral>) {
    forall i :: 0 <= i < |literals| ==> ReadableBy(quote, read, literals[i])
  }

  function Reader(quote: char): Pass
    requires IsQuote(quote)
  {
    if quote == '\'' then SingleQuoted else DoubleQuoted
  }

  // ---------- the scan of a quote pass ----------

  /** A quote pass does not ask what came before. */
  lemma ReadStep(quote: char, s: string)
    requires IsQuote(quote) && s != ""
    ensures var n := QuotedLen(quote, s);
      Apply(Reader(quote), s)
      == if n > 0 then "?" + Apply(Reader(quote), s[n..]) else [s[0]] + Apply(Reader(quote), s[1..])
  {
    var pass, n := Reader(quote), QuotedLen(quote, s);
    assert MatchLen(pass, false, s) == n && Replacement(pass) == "?";
    hide MatchLen, ReplaceAll, Replacement, IsWord, QuotedLen;
    ScanStep(pass, false, s);
    if n > 0 { FlagIdle(quote, IsWord(s[n - 1]), s[n..]); } else { FlagIdle(quote, IsWord(s[0]), s[1..]); }
  }

  lemma FlagIdle(quote: char, inWord: bool, s: string)
    requires IsQuote(quote)
    ensures ReplaceAll(Reader(quote), inWord, s) == Apply(Reader(quote), s)
  {
    hide QuotedLen, Replacement, IsWord;
  }

  lemma ReadNothing(quote: char)
    requires IsQuote(quote)
    ensures Apply(Reader(quote), "") == ""
  {
  }

  lemma {:induction false} CopyUnquoted(quote: char, s: string, z: string)
    requires IsQuote(quote) && quote !in s
    ensures Apply(Reader(quote), s + z) == s + Apply(Reader(quote), z)
    decreases |s|
  {
    hide Apply, Literal;
    if s == "" {
      assert s + z == z;
    } else {
      ReadStep(quote, s + z);
      CopyUnquoted(quote, s[1..], z);
      assert (s + z)[1..] == s[1..] + z && [s[0]] + s[1..] == s;
      PrefixedText([s[0]], s[1..], Apply(Reader(quote), z));
    }
  }

  lemma CopyAll(quote: char, s: string)
    requires IsQuote(quote) && quote !in s
    ensures Apply(Reader(quote), s) == s
  {
    hide Apply;
    CopyUnquoted(quote, s, "");
    ReadNothing(quote);
    assert s + "" == s;
  }

  /** The literal ends where its body does. */
  lemma {:induction false} BodyEnds(quote: char, b: string, rest: string)
    requires IsBody(quote, b) && quote != '\\' && (rest == "" || rest[0] != quote)
    ensures Literal(quote, b + ([quote] + rest)) == Some(|b| + 1)
    decreases |b|
  {
    var s := b + ([quote] + rest);
    if b == "" {
      assert s == [quote] + rest;
    } else if b[0] != quote && b[0] != '\\' {
      assert s[1..] == b[1..] + ([quote] + rest);
      BodyEnds(quote, b[1..], rest);
    } else {
      assert s[2..] == b[2..] + ([quote] + rest);
      BodyEnds(quote, b[2..], rest);
    }
  }

  lemma SwallowLiteral(quote: char, b: string, rest: string)
    requires IsQuote(quote) && IsBody(quote, b) && (rest == "" || rest[0] != quote)
    ensures Apply(Reader(quote), [quote] + (b + ([quote] + rest))) == "?" + Apply(Reader(quote), rest)
  {
    hide Literal, Apply, IsBody;
    var s := [quote] + (b + ([quote] + rest));
    assert s[1..] == b + ([quote] + rest);
    BodyEnds(quote, b, rest);
    ReadStep(quote, s);
    assert QuotedLen(quote, s) == |b| + 2;
    assert s[|b| + 2..] == rest;
  }

  /** One literal, or what is shown of it. */
  lemma OneLiteral(quote: char, read: string, l: StringLiteral, rest: string)
    requires IsQuote(quote) && IsQuote(l.quote) && quote !in read && ReadableBy(quote, read, l)
    requires l.quote == quote ==> rest == "" || rest[0] != quote
    ensures Apply(Reader(quote), Shown(read, l) + rest) == Shown(read + [quote], l) + Apply(Reader(quote), rest)
  {
    hide Apply, IsBody;
    if l.quote == quote {
      SwallowLiteral(quote, l.body, rest);
      assert Shown(read, l) + rest == [quote] + (l.body + ([quote] + rest));
    } else {
      assert l.quote in read + [quote] <==> l.quote in read;
      CopyUnquoted(quote, Shown(read, l), rest);
    }
  }

  /** A literal that `z` starts with does not touch the last one of the query before it. */
  predicate MayFollow(quote: char, parts: seq<string>, literals: seq<StringLiteral>, z: string)
    requires |parts| == |literals| + 1
  {
    z == "" || z[0] != quote || parts[|literals|] != "" || literals == [] || literals[|literals| - 1].quote != quote
  }

  /** Behind a literal between `quote` no such character follows. */
  lemma NoQuoteBehind(quote: char, read: string, parts: seq<string>, literals: seq<StringLiteral>, z: string)
    requires IsQuote(quote) && |parts| == |literals| + 1 && Without(quote, parts)
    requires literals == [] ==> z == "" || z[0] != quote || parts[0] != ""
    requires literals != [] && literals[0].quote == quote ==> parts[0] != ""
    ensures var s := Reading(read, parts, literals) + z; s == "" || s[0] != quote
  {
    assert parts[0] != "" ==> parts[0][0] in parts[0];
  }

  lemma ApartTail(parts: seq<string>, literals: seq<StringLiteral>)
    requires Apart(parts, literals) && literals != []
    ensures Apart(parts[1..], literals[1..])
  {
  }

  /** A quote pass writes a placeholder for each of its literals and touches nothing else. */
  lemma {:induction false} QuotePassReads(quote: char, read: string, parts: seq<string>,
      literals: seq<StringLiteral>, z: string)
    requires IsQuote(quote) && quote !in read && Apart(parts, literals) && Without(quote, parts)
    requires AllReadableBy(quote, read, literals) && forall i :: 0 <= i < |literals| ==> IsQuote(literals[i].quote)
    requires MayFollow(quote, parts, literals, z)
    ensures Apply(Reader(quote), Reading(read, parts, literals) + z)
         == Reading(read + [quote], parts, literals) + Apply(Reader(quote), z)
    decreases |literals|
  {
    hide Apply, Shown, ReadableBy;
    var r := Apply(Reader(quote), z);
    if literals == [] {
      CopyUnquoted(quote, parts[0], z);
    } else {
      var l, rest := literals[0], Reading(read, parts[1..], literals[1..]);
      ApartTail(parts, literals);
      QuotePassReads(quote, read, parts[1..], literals[1..], z);
      if l.quote == quote { NoQuoteBehind(quote, read, parts[1..], literals[1..], z); }
      CopyUnquoted(quote, parts[0], Shown(read, l) + (rest + z));
      OneLiteral(quote, read, l, rest + z);
      ThreeJoined(parts[0], Shown(read, l), rest, z);
      ThreeJoined(parts[0], Shown(read + [quote], l), Reading(read + [quote], parts[1..], literals[1..]), r);
    }
  }

  lemma ThreeJoined(a: string, b: string, c: string, z: string)
    ensures (a + (b + c)) + z == a + (b + (c + z))
  {
  }

  // ---------- the template ----------

  /** All literals read. */
  lemma {:induction false} AllRead(parts: seq<string>, literals: seq<StringLiteral>)
    requires |parts| == |literals| + 1 && forall i :: 0 <= i < |literals| ==> IsQuote(literals[i].quote)
    ensures Reading("'\"", parts, literals) == Join(parts, "?")
    decreases |literals|
  {
    if literals == [] {
    } else {
      AllRead(parts[1..], literals[1..]);
      assert parts[0] + ("?" + Join(parts[1..], "?")) == parts[0] + "?" + Join(parts[1..], "?");
    }
  }

  lemma {:induction false} JoinHasNo(quote: char, parts: seq<string>)
    requires quote != '?' && Without(quote, parts)
    ensures quote !in Join(parts, "?")
  {
    if |parts| <= 1 {
    } else {
      JoinHasNo(quote, parts[1..]);
    }
  }

  /** The template depends on what the quote passes leave. */
  lemma SameWithoutStrings(x: string, y: string)
    requires WithoutStrings(x) == WithoutStrings(y)
    ensures Normalize(x) == Normalize(y)
  {
    StrippedIs(x);
    StrippedIs(y);
    hide Apply, Collapsed, ToLower, TrimSpace;
  }

  lemma NoQuotesLeft(parts: seq<string>)
    requires Without('\'', parts) && Without('"', parts)
    ensures WithoutStrings(Join(parts, "?")) == Join(parts, "?")
  {
    hide Apply, Join;
    JoinHasNo('\'', parts);
    JoinHasNo('"', parts);
    CopyAll('\'', Join(parts, "?"));
    CopyAll('"', Join(parts, "?"));
  }

  /** Single-quoted literals alone are read first: double quotes may stand anywhere else. */
  lemma SingleQuotedAreHoles(parts: seq<string>, literals: seq<StringLiteral>)
    requires Apart(parts, literals) && Without('\'', parts)
    requires forall i :: 0 <= i < |literals| ==> literals[i].quote == '\'' && IsBody('\'', literals[i].body)
    ensures Normalize(Query(parts, literals)) == Normalize(Join(parts, "?"))
  {
    var q, h := Query(parts, literals), Join(parts, "?");
    SinglesAre(parts, literals);
    JoinHasNo('\'', parts);
    hide Apply, Normalize, Join, Query;
    CopyAll('\'', h);
    SameWithoutStrings(q, h);
  }

  lemma SinglesAre(parts: seq<string>, literals: seq<StringLiteral>)
    requires Apart(parts, literals) && Without('\'', parts)
    requires forall i :: 0 <= i < |literals| ==> literals[i].quote == '\'' && IsBody('\'', literals[i].body)
    ensures Apply(SingleQuoted, Query(parts, literals)) == Join(parts, "?")
  {
    assert AllReadableBy('\'', "", literals);
    hide Apply, Reading, Join, IsBody;
    QuotePassReads('\'', "", parts, literals, "");
    ReadNothing('\'');
    SinglesRead(parts, literals);
    AllRead(parts, literals);
    assert "" + "'" == "'";
    assert Query(parts, literals) + "" == Query(parts, literals);
    assert Reading("'", parts, literals) + "" == Reading("'", parts, literals);
  }

  lemma {:induction false} SinglesRead(parts: seq<string>, literals: seq<StringLiteral>)
    requires |parts| == |literals| + 1 && forall i :: 0 <= i < |literals| ==> literals[i].quote == '\''
    ensures Reading("'", parts, literals) == Reading("'\"", parts, literals)
    decreases |literals|
  {
    if literals == [] {
    } else {
      SinglesRead(parts[1..], literals[1..]);
    }
  }
}
