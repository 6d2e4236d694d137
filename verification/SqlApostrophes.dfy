/** String literals leave no trace, and what an apostrophe in a double-quoted one does: exactly when a query with
    one keeps its promise, and what reaches the template when it does not. */
module SqlApostrophes {
  import opened Prelude
  import opened Ascii
  import opened Sql
  import opened SqlTemplate
  import opened SqlBlocks
  import opened SqlChars
  import opened SqlLiterals

  // ---------- apostrophes that pair up ----------

  /** A text without backslashes whose apostrophes are even in number. */
  predicate Even(s: string) {
    '\\' !in s && Count('\'', s) % 2 == 0
  }

  predicate Odd(s: string) {
    '\\' !in s && Count('\'', s) % 2 == 1
  }

  lemma ParityStep(s: string)
    requires s != ""
    ensures s[0] == '\'' ==> (Even(s) <==> s[0] != '\\' && Odd(s[1..])) && (Odd(s) <==> s[0] != '\\' && Even(s[1..]))
    ensures s[0] != '\'' ==> (Even(s) <==> s[0] != '\\' && Even(s[1..])) && (Odd(s) <==> s[0] != '\\' && Odd(s[1..]))
  {
    assert s == [s[0]] + s[1..];
  }

  /** A literal that is opened before an odd number of apostrophes closes among them. */
  lemma {:induction false} OddCloses(t: string, z: string)
    requires Odd(t) && z != "" && z[0] != '\''
    ensures var r := Literal('\'', t + z); r.Some? && r.value <= |t| && Even(t[r.value..])
    decreases |t|
  {
    hide Even, Odd;
    if t == "" { assert false by { EmptyIsEven(); } }
    else {
      ParityStep(t);
      assert (t + z)[1..] == t[1..] + z;
      if t[0] != '\'' {
        OddCloses(t[1..], z);
        var n := Literal('\'', t[1..] + z).value;
        assert t[1..][n..] == t[n + 1..];
      } else if |t| > 1 && t[1] == '\'' {
        ParityStep(t[1..]);
        OddCloses(t[2..], z);
        var n := Literal('\'', t[2..] + z).value;
        assert (t + z)[2..] == t[2..] + z && t[1..][1..] == t[2..] && t[2..][n..] == t[n + 2..];
      } else {
        assert |t| == 1 ==> (t + z)[1] == z[0];
      }
    }
  }

  lemma EmptyIsEven()
    ensures Even("") && !Odd("")
  {
  }

  lemma NoBackslash(t: string)
    ensures Even(t) || Odd(t) ==> t == "" || t[0] != '\\'
  {
  }

  /** After an even number it closes among them before an odd rest, or goes on behind the text. */
  lemma {:induction false} EvenClosesOrGoesOn(t: string, z: string)
    requires Even(t) && z != "" && z[0] != '\'' && Literal('\'', z).Some?
    ensures var r := Literal('\'', t + z);
      && r.Some?
      && (r.value == |t| + Literal('\'', z).value || (r.value <= |t| && Odd(t[r.value..])))
    decreases |t|
  {
    hide Even, Odd;
    if t == "" {
      assert t + z == z;
    } else {
      ParityStep(t);
      NoBackslash(t);
      assert (t + z)[1..] == t[1..] + z;
      if t[0] != '\'' {
        EvenClosesOrGoesOn(t[1..], z);
        var n := Literal('\'', t[1..] + z).value;
        if n <= |t| - 1 { assert t[1..][n..] == t[n + 1..]; }
      } else if |t| > 1 && t[1] == '\'' {
        ParityStep(t[1..]);
        assert (t + z)[2..] == t[2..] + z && t[1..][1..] == t[2..];
        EvenClosesOrGoesOn(t[2..], z);
        var n := Literal('\'', t[2..] + z).value;
        if n <= |t| - 2 { assert t[2..][n..] == t[n + 2..]; }
      } else {
        assert |t| == 1 ==> (t + z)[1] == z[0];
      }
    }
  }

  // ---------- the apostrophes of a literal that find each other ----------

  /** What a single-quoted literal leaves of the body it ends in is a body. */
  lemma {:induction false} BodyFrom(b: string, w: string)
    requires IsBody('"', b) && w != "" && w[0] == '"' && Literal('\'', b + w).Some?
    requires Literal('\'', b + w).value <= |b|
    ensures IsBody('"', b[Literal('\'', b + w).value..])
    decreases |b|
  {
    var s, n := b + w, Literal('\'', b + w).value;
    if b[0] == '\\' || b[0] == '"' {
      assert s[2..] == b[2..] + w && s[1..][1..] == s[2..];
      BodyFrom(b[2..], w);
      assert b[2..][n - 2..] == b[n..];
    } else if b[0] != '\'' {
      assert s[1..] == b[1..] + w;
      BodyFrom(b[1..], w);
      assert b[1..][n - 1..] == b[n..];
    } else if n > 1 {
      assert |b| > 1 by { assert s[|b|] == w[0]; }
      assert s[2..] == b[2..] + w && b[1..][1..] == b[2..];
      BodyFrom(b[2..], w);
      assert b[2..][n - 2..] == b[n..];
    }
  }

  /** A body, or what is left of one behind a backslash. */
  predicate BodyOn(escaped: bool, b: string) {
    if escaped then b != "" && b[0] != '\n' && IsBody('"', b[1..]) else IsBody('"', b)
  }

  /** No apostrophe of the body finds one behind the literal. */
  predicate Settled(b: string, w: string) {
    Even(b) || '\'' !in w
  }

  /** An apostrophe in a body closes in it, or not at all. */
  lemma ApostropheInBody(escaped: bool, b: string, w: string)
    requires BodyOn(escaped, b) && b != "" && b[0] == '\'' && w != "" && w[0] == '"' && Settled(b, w)
    ensures var n := QuotedLen('\'', b + w);
      n <= |b| && var t := b[if n > 0 then n else 1..]; BodyOn(false, t) && Settled(t, w)
  {
    var t := b[1..];
    assert (b + w)[1..] == t + w && IsBody('"', t);
    hide IsBody, Even, Odd, Literal;
    if Even(b) {
      ParityStep(b);
      OddCloses(t, w);
    } else if Literal('\'', t + w).Some? {
      LiteralLast('\'', t + w);
    }
    if Literal('\'', t + w).Some? {
      var n := Literal('\'', t + w).value;
      BodyFrom(t, w);
      assert t[n..] == b[n + 1..];
    }
  }

  lemma BodyStep(escaped: bool, b: string, w: string)
    requires BodyOn(escaped, b) && b != "" && b[0] != '\'' && Settled(b, w)
    ensures !escaped && b[0] == '"' ==> |b| > 1 && b[1] == '"' && BodyOn(false, b[2..]) && Settled(b[2..], w)
    ensures escaped || b[0] != '"' ==> BodyOn(!escaped && b[0] == '\\', b[1..]) && Settled(b[1..], w)
  {
    ParityStep(b);
    if !escaped && b[0] == '"' { ParityStep(b[1..]); }
  }

  /** What goes in front of a body makes it a body again. */
  lemma BodyPut(escaped: bool, b: string, rest: string)
    requires BodyOn(escaped, b) && b != ""
    ensures b[0] == '\'' && BodyOn(false, rest) ==> BodyOn(escaped, "'" + rest) && BodyOn(escaped, "?" + rest)
    ensures !escaped && b[0] == '"' && BodyOn(false, rest) ==> BodyOn(escaped, b[..2] + rest)
    ensures (escaped || b[0] != '"') && BodyOn(!escaped && b[0] == '\\', rest) ==> BodyOn(escaped, b[..1] + rest)
  {
    assert ("'" + rest)[1..] == rest == ("?" + rest)[1..] && (b[..1] + rest)[1..] == rest;
    if !escaped && b[0] == '"' { assert (b[..2] + rest)[2..] == rest; }
    if !escaped && b[0] == '\\' && BodyOn(true, rest) { assert (b[..1] + rest)[2..] == rest[1..]; }
  }

  /** The single-quote pass makes a body of a body. */
  lemma {:induction false} BodyRead(escaped: bool, b: string, w: string) returns (c: string)
    requires BodyOn(escaped, b) && w != "" && w[0] == '"' && Settled(b, w)
    ensures Apply(SingleQuoted, b + w) == c + Apply(SingleQuoted, w)
    ensures BodyOn(escaped, c)
    decreases |b|
  {
    hide Settled, Apply, QuotedLen, BodyOn;
    var y := Apply(SingleQuoted, w);
    if b == "" {
      assert b + w == w;
      c := "";
    } else {
      var head, k, on := "'", 1, false;
      if b[0] == '\'' {
        ApostropheInBody(escaped, b, w);
        k := QuotedLen('\'', b + w);
        if k == 0 { k := 1; } else { head := "?"; }
        ReadStep('\'', b + w);
      } else {
        BodyStep(escaped, b, w);
        k, on := if !escaped && b[0] == '"' then 2 else 1, !escaped && b[0] == '\\';
        head := b[..k];
        assert b + w == head + (b[k..] + w);
        CopyUnquoted('\'', head, b[k..] + w);
      }
      var rest := BodyRead(on, b[k..], w);
      c := head + rest;
      BodyPut(escaped, b, rest);
      assert (b + w)[k..] == b[k..] + w;
      PrefixedText(head, rest, y);
    }
  }

  // ---------- literals leave no trace ----------

  /** The literal's own apostrophes pair up, or it has none; between single quotes it may have any. */
  predicate Harmless(l: StringLiteral) {
    l.quote == '\'' || '\'' !in l.body || Even(l.body)
  }

  /** No apostrophe stands behind literal `i`. */
  predicate NoneBehind(literals: seq<StringLiteral>, i: nat) {
    forall j :: i < j < |literals| ==> literals[j].quote == '"' && '\'' !in literals[j].body
  }

  predicate WellFormed(l: StringLiteral) {
    IsQuote(l.quote) && IsBody(l.quote, l.body)
  }

  predicate Readable(literals: seq<StringLiteral>, i: nat)
    requires i < |literals|
  {
    WellFormed(literals[i]) && (Harmless(literals[i]) || NoneBehind(literals, i))
  }

  predicate AllReadable(literals: seq<StringLiteral>) {
    forall i :: 0 <= i < |literals| ==> Readable(literals, i)
  }

  lemma DoubleCopied(z: string)
    ensures Apply(SingleQuoted, ['"'] + z) == ['"'] + Apply(SingleQuoted, z)
  {
    hide Apply;
    CopyUnquoted('\'', ['"'], z);
  }

  lemma DoubleShown(read: string, l: StringLiteral, rest: string)
    requires l.quote == '"' && '"' !in read
    ensures Shown(read, l) + rest == ['"'] + (l.body + (['"'] + rest))
  {
  }

  /** The single-quote pass reads a literal, or makes another between double quotes of it. */
  lemma LiteralRead(l: StringLiteral, w: string) returns (m: StringLiteral)
    requires WellFormed(l) && (Harmless(l) || '\'' !in w) && (l.quote == '\'' ==> w == "" || w[0] != '\'')
    ensures m.quote == l.quote && ReadableBy('"', "'", m)
    ensures Apply(SingleQuoted, Shown("", l) + w) == Shown("'", m) + Apply(SingleQuoted, w)
  {
    hide Apply, IsBody, Even;
    if l.quote == '\'' || '\'' !in l.body {
      m := l;
      OneLiteral('\'', "", l, w);
      assert "" + "'" == "'";
    } else {
      var z := ['"'] + w;
      var c := BodyRead(false, l.body, z);
      m := StringLiteral('"', c);
      DoubleShown("", l, w);
      DoubleCopied(l.body + z);
      DoubleCopied(w);
      DoubleShown("'", m, Apply(SingleQuoted, w));
    }
  }

  lemma {:induction false} ReadingHasNo(c: char, parts: seq<string>, literals: seq<StringLiteral>)
    requires |parts| == |literals| + 1 && Without(c, parts)
    requires forall i :: 0 <= i < |literals| ==> literals[i].quote != c && c !in literals[i].body
    ensures c !in Reading("", parts, literals)
    decreases |literals|
  {
    if literals == [] {
    } else {
      ReadingHasNo(c, parts[1..], literals[1..]);
    }
  }

  lemma FirstRead(parts: seq<string>, literals: seq<StringLiteral>, z: string)
    requires |parts| == |literals| + 1 && literals != [] && Without('\'', parts) && AllReadable(literals)
    requires '\'' in z ==> forall i :: 0 <= i < |literals| ==> Harmless(literals[i])
    ensures AllReadable(literals[1..])
    ensures Harmless(literals[0]) || '\'' !in Reading("", parts[1..], literals[1..]) + z
  {
    hide WellFormed, Harmless, Reading;
    forall i | 0 <= i < |literals[1..]| ensures Readable(literals[1..], i) {
      assert Readable(literals, i + 1);
      if NoneBehind(literals, i + 1) {
        forall j | i < j < |literals[1..]| ensures literals[1..][j] == literals[j + 1] {}
      }
    }
    assert Readable(literals, 0);
    if !Harmless(literals[0]) { ReadingHasNo('\'', parts[1..], literals[1..]); }
  }

  /** The same for a whole query. */
  lemma {:induction false} QueryRead(parts: seq<string>, literals: seq<StringLiteral>, z: string)
      returns (left: seq<StringLiteral>)
    requires Apart(parts, literals) && Without('\'', parts) && AllReadable(literals)
    requires MayFollow('\'', parts, literals, z)
    requires '\'' in z ==> forall i :: 0 <= i < |literals| ==> Harmless(literals[i])
    ensures |left| == |literals| && AllReadableBy('"', "'", left)
    ensures forall i :: 0 <= i < |left| ==> left[i].quote == literals[i].quote && IsQuote(left[i].quote)
    ensures Apply(SingleQuoted, Reading("", parts, literals) + z)
         == Reading("'", parts, left) + Apply(SingleQuoted, z)
    decreases |literals|
  {
    hide Apply, Shown, ReadableBy, AllReadable, Harmless;
    if literals == [] {
      left := [];
      CopyUnquoted('\'', parts[0], z);
    } else {
      var l, rest := literals[0], Reading("", parts[1..], literals[1..]);
      ApartTail(parts, literals);
      FirstRead(parts, literals, z);
      var tail := QueryRead(parts[1..], literals[1..], z);
      FirstWellFormed(literals);
      if l.quote == '\'' { NoQuoteBehind('\'', "", parts[1..], literals[1..], z); }
      var m := LiteralRead(l, rest + z);
      left := [m] + tail;
      CopyUnquoted('\'', parts[0], Shown("", l) + (rest + z));
      ThreeJoined(parts[0], Shown("", l), rest, z);
      ThreeJoined(parts[0], Shown("'", m), Reading("'", parts[1..], tail), Apply(SingleQuoted, z));
    }
  }

  lemma FirstWellFormed(literals: seq<StringLiteral>)
    requires literals != [] && AllReadable(literals)
    ensures WellFormed(literals[0])
  {
    assert Readable(literals, 0);
  }

  lemma DoublesAreHoles(parts: seq<string>, literals: seq<StringLiteral>)
    requires Apart(parts, literals) && Without('"', parts) && AllReadableBy('"', "'", literals)
    requires forall i :: 0 <= i < |literals| ==> IsQuote(literals[i].quote)
    ensures Apply(DoubleQuoted, Reading("'", parts, literals)) == Join(parts, "?")
  {
    hide Apply, Reading, IsBody, Join;
    QuotePassReads('"', "'", parts, literals, "");
    ReadNothing('"');
    AllRead(parts, literals);
    assert "'" + "\"" == "'\"";
    assert Reading("'", parts, literals) + "" == Reading("'", parts, literals);
    assert Reading("'\"", parts, literals) + "" == Reading("'\"", parts, literals);
  }

  /** No content of a literal reaches the template, whatever literals of both kinds the query has: it is the
      template of the query with placeholders in their places. A double-quoted literal may have apostrophes
      that pair up among themselves, or any where no apostrophe stands behind it. */
  lemma LiteralsAreHoles(parts: seq<string>, literals: seq<StringLiteral>)
    requires Apart(parts, literals) && Without('\'', parts) && Without('"', parts) && AllReadable(literals)
    ensures Normalize(Query(parts, literals)) == Normalize(Join(parts, "?"))
  {
    var q := Query(parts, literals);
    hide Normalize, Apply, Reading, Join, AllReadable, ReadableBy;
    var left := QueryRead(parts, literals, "");
    ReadNothing('\'');
    assert q + "" == q && Reading("'", parts, left) + "" == Reading("'", parts, left);
    DoublesAreHoles(parts, left);
    NoQuotesLeft(parts);
    SameWithoutStrings(q, Join(parts, "?"));
  }

  // ---------- an odd number of apostrophes ----------

  predicate NoDouble(s: string) {
    '"' !in s
  }

  /** Behind an odd apostrophe: the closing double quote, a part without quotes, the next apostrophe. */
  function Beyond(p: string, z: string): string {
    ['"'] + (p + (['\''] + z))
  }

  predicate Plain(p: string) {
    '\'' !in p && '"' !in p && '\\' !in p
  }

  lemma {:induction false} PartThrough(p: string, z: string)
    requires Plain(p)
    ensures Literal('\'', p + z) == Longer(|p|, Literal('\'', z))
  {
    LiteralThrough('\'', p, z);
  }

  /** The apostrophe behind closes the literal, or one of the next. */
  lemma BeyondCloses(p: string, z: string) returns (n: nat)
    requires Plain(p)
    ensures n <= |z| && (z == "" || z[0] != '\'' ==> n == 0)
    ensures Literal('\'', Beyond(p, z)) == Some(|p| + 2 + n)
  {
    var s := Beyond(p, z);
    var t := ['\''] + z;
    assert s[1..] == p + t;
    PartThrough(p, t);
    n := Literal('\'', t).value - 1;
    if z != "" && z[0] == '\'' { assert t[2..] == z[1..]; }
  }

  lemma {:induction false} OddRead(t: string, p: string, z: string) returns (c: string, n: nat)
    requires Odd(t) && NoDouble(t) && Plain(p)
    ensures n <= |z| && (z == "" || z[0] != '\'' ==> n == 0) && NoDouble(c)
    ensures Apply(SingleQuoted, t + Beyond(p, z)) == c + ("?" + Apply(SingleQuoted, z[n..]))
    decreases |t|
  {
    hide Even, Odd, Apply, Literal, Beyond, Plain;
    var y := Beyond(p, z);
    assert y[0] == '"' && |y| == |p| + 2 + |z| by { BeyondShape(p, z); }
    if t == "" {
      assert false by { EmptyIsEven(); }
    } else {
      ReadStep('\'', t + y);
      ParityStep(t);
      NoBackslash(t);
      assert (t + y)[1..] == t[1..] + y;
      if t[0] != '\'' {
        var rest, m := OddRead(t[1..], p, z);
        c, n := [t[0]] + rest, m;
        PrefixedText([t[0]], rest, "?" + Apply(SingleQuoted, z[n..]));
      } else {
        n := BeyondCloses(p, z);
        EvenClosesOrGoesOn(t[1..], y);
        var k := Literal('\'', t[1..] + y).value;
        if k == |t| - 1 + (|p| + 2 + n) {
          BeyondTail(t, p, z, n);
          c := "";
        } else {
          assert t[1..][k..] == t[k + 1..] && (t + y)[k + 1..] == t[k + 1..] + y;
          var rest, m := OddRead(t[k + 1..], p, z);
          c, n := "?" + rest, m;
          PrefixedText("?", rest, "?" + Apply(SingleQuoted, z[n..]));
        }
      }
    }
  }

  lemma BeyondShape(p: string, z: string)
    ensures Beyond(p, z) != "" && Beyond(p, z)[0] == '"' && |Beyond(p, z)| == |p| + 2 + |z|
  {
  }

  lemma BeyondTail(t: string, p: string, z: string, n: nat)
    requires n <= |z|
    ensures |t| + |p| + 2 + n <= |t + Beyond(p, z)| && (t + Beyond(p, z))[|t| + |p| + 2 + n..] == z[n..]
  {
  }

  // ---------- one such literal in a query ----------

  lemma {:induction false} QueryCut(read: string, parts: seq<string>, literals: seq<StringLiteral>, k: nat)
    requires |parts| == |literals| + 1 && k < |literals|
    ensures Reading(read, parts, literals)
         == Reading(read, parts[..k + 1], literals[..k])
            + (Shown(read, literals[k]) + Reading(read, parts[k + 1..], literals[k + 1..]))
    decreases k
  {
    hide Shown;
    if k == 0 {
    } else {
      var ps, ls := parts[1..], literals[1..];
      QueryCut(read, ps, ls, k - 1);
      assert ps[..k] == parts[..k + 1][1..] && ls[..k - 1] == literals[..k][1..];
      assert ps[k..] == parts[k + 1..] && ls[k..] == literals[k + 1..];
      ThreeJoined(parts[0], Shown(read, literals[0]), Reading(read, ps[..k], ls[..k - 1]),
        Shown(read, literals[k]) + Reading(read, parts[k + 1..], literals[k + 1..]));
    }
  }

  /** Literal `k` is the last between double quotes, and it may have apostrophes. Those before it are harmless. */
  predicate MayHoldApostrophes(parts: seq<string>, literals: seq<StringLiteral>, k: nat) {
    && k < |literals|
    && Apart(parts, literals) && Without('\'', parts) && Without('"', parts)
    && (forall i :: 0 <= i < k ==> WellFormed(literals[i]) && Harmless(literals[i]))
    && literals[k].quote == '"' && NoDouble(literals[k].body) && '\\' !in literals[k].body
    && (forall i :: k < i < |literals| ==> literals[i].quote == '\'' && IsPlainBody(literals[i].body))
    && (k + 1 < |literals| ==> '\\' !in parts[k + 1])
  }

  predicate IsPlainBody(b: string) {
    IsBody('\'', b) && NoDouble(b)
  }

  lemma {:induction false} PlainIsBody(quote: char, b: string)
    requires quote !in b && '\\' !in b
    ensures IsBody(quote, b)
  {
    if b == "" {
    } else {
      assert b == [b[0]] + b[1..];
      PlainIsBody(quote, b[1..]);
    }
  }

  lemma WithoutOnePasses(parts: seq<string>, literals: seq<StringLiteral>, k: nat)
    requires MayHoldApostrophes(parts, literals, k) && (Even(literals[k].body) || k + 1 == |literals|)
    ensures AllReadable(literals)
  {
    PlainIsBody('"', literals[k].body);
    hide IsBody, NoDouble, Even;
  }

  /** A query that the single-quote pass has read, where it stands in front of a double quote. */
  predicate Front(parts: seq<string>, left: seq<StringLiteral>) {
    && Apart(parts, left) && Without('"', parts) && AllReadableBy('"', "'", left)
    && MayFollow('"', parts, left, "\"")
    && forall i :: 0 <= i < |left| ==> IsQuote(left[i].quote)
  }

  lemma BeforeIsReadable(parts: seq<string>, literals: seq<StringLiteral>, k: nat)
    requires MayHoldApostrophes(parts, literals, k)
    ensures var ps, ls := parts[..k + 1], literals[..k];
      Apart(ps, ls) && Without('\'', ps) && Without('"', ps) && AllReadable(ls) && MayFollow('"', ps, ls, "\"")
      && forall i :: 0 <= i < |ls| ==> Harmless(ls[i])
  {
    hide WellFormed, Harmless;
  }

  /** The single-quote pass up to the literal. */
  lemma SinglesBefore(parts: seq<string>, literals: seq<StringLiteral>, k: nat) returns (left: seq<StringLiteral>)
    requires MayHoldApostrophes(parts, literals, k)
    ensures Front(parts[..k + 1], left)
    ensures var right := Reading("", parts[k + 1..], literals[k + 1..]);
      Apply(SingleQuoted, Query(parts, literals))
      == Reading("'", parts[..k + 1], left) + (['"'] + Apply(SingleQuoted, literals[k].body + (['"'] + right)))
  {
    BeforeIsReadable(parts, literals, k);
    QueryCut("", parts, literals, k);
    var l, right := literals[k], Reading("", parts[k + 1..], literals[k + 1..]);
    DoubleShown("", l, right);
    assert Query(parts, literals) == Reading("", parts, literals);
    hide Apply, Reading, Shown, Query, AllReadable, Harmless, ReadableBy, MayHoldApostrophes;
    left := QueryRead(parts[..k + 1], literals[..k], Shown("", l) + right);
    DoubleCopied(l.body + (['"'] + right));
  }

  // ---------- an odd one ----------

  /** The query behind the doubtful literal, read as an apostrophe in it reads on: over the closing double
      quote and the next part, up to the next apostrophe. */
  function Rest(parts: seq<string>, literals: seq<StringLiteral>, k: nat): string
    requires |parts| == |literals| + 1 && k + 1 < |literals|
  {
    literals[k + 1].body + (['\''] + Reading("", parts[k + 2..], literals[k + 2..]))
  }

  lemma BehindIsBeyond(parts: seq<string>, literals: seq<StringLiteral>, k: nat)
    requires MayHoldApostrophes(parts, literals, k) && k + 1 < |literals|
    ensures ['"'] + Reading("", parts[k + 1..], literals[k + 1..]) == Beyond(parts[k + 1], Rest(parts, literals, k))
  {
    hide WellFormed, Harmless, IsPlainBody, NoDouble, Without;
    var ps, ls := parts[k + 1..], literals[k + 1..];
    assert ls[0] == literals[k + 1] && ps[1..] == parts[k + 2..] && ls[1..] == literals[k + 2..];
    var r := Reading("", ps[1..], ls[1..]);
    assert Shown("", ls[0]) + r == ['\''] + (ls[0].body + (['\''] + r));
  }

  lemma RestHasNoDouble(parts: seq<string>, literals: seq<StringLiteral>, k: nat)
    requires MayHoldApostrophes(parts, literals, k) && k + 1 < |literals|
    ensures NoDouble(Rest(parts, literals, k)) && Plain(parts[k + 1])
  {
    hide IsBody, Reading, Harmless;
    ReadingHasNo('"', parts[k + 2..], literals[k + 2..]);
  }

  lemma AddsNoDouble(z: string)
    requires NoDouble(z)
    ensures NoDouble(Apply(SingleQuoted, z))
  {
    hide ReplaceAll, Count;
    PassAddsNone('"', SingleQuoted, false, z);
    CountNone('"', z);
    CountNone('"', Apply(SingleQuoted, z));
  }

  /** One double quote stays, and everything behind it: the closing one has gone with the apostrophe. */
  lemma OddLeavesDouble(parts: seq<string>, literals: seq<StringLiteral>, k: nat) returns (x: string, n: nat)
    requires MayHoldApostrophes(parts, literals, k) && Odd(literals[k].body) && k + 1 < |literals|
    ensures n <= |Rest(parts, literals, k)| && (Rest(parts, literals, k)[0] != '\'' ==> n == 0)
    ensures WithoutStrings(Query(parts, literals)) == x + ("?" + Apply(SingleQuoted, Rest(parts, literals, k)[n..]))
    ensures '"' in x
  {
    var z := Rest(parts, literals, k);
    var left := SinglesBefore(parts, literals, k);
    BehindIsBeyond(parts, literals, k);
    RestHasNoDouble(parts, literals, k);
    var c;
    c, n := OddRead(literals[k].body, parts[k + 1], z);
    var y := Apply(SingleQuoted, z[n..]);
    AddsNoDouble(z[n..]);
    x := OneDoubleLeft(parts[..k + 1], left, c, y);
    hide Apply, Reading, MayHoldApostrophes, Odd, Beyond, Rest;
  }

  lemma OneDoubleLeft(parts: seq<string>, literals: seq<StringLiteral>, c: string, y: string) returns (x: string)
    requires Front(parts, literals) && NoDouble(c) && NoDouble(y)
    ensures Apply(DoubleQuoted, Reading("'", parts, literals) + (['"'] + (c + ("?" + y)))) == x + ("?" + y)
    ensures '"' in x
  {
    var t := c + ("?" + y);
    var z := ['"'] + t;
    var f := Reading("'\"", parts, literals);
    NoSecondDouble(t);
    hide Apply, Reading, Literal, IsBody, ReadableBy, Apart, Without;
    QuotePassReads('"', "'", parts, literals, z);
    assert "'" + "\"" == "'\"";
    x := f + (['"'] + c);
    DoubleJoined(f, c, "?" + y);
  }

  lemma DoubleJoined(f: string, c: string, y: string)
    ensures f + (['"'] + (c + y)) == (f + (['"'] + c)) + y
    ensures '"' in f + (['"'] + c)
  {
    assert (f + (['"'] + c))[|f|] == '"';
  }

  lemma NoSecondDouble(t: string)
    requires NoDouble(t)
    ensures Apply(DoubleQuoted, ['"'] + t) == ['"'] + t
  {
    var s := ['"'] + t;
    assert s[1..] == t;
    hide Apply, Literal;
    if Literal('"', t).Some? { LiteralLast('"', t); }
    ReadStep('"', s);
    CopyAll('"', t);
  }

  // ---------- the condition ----------

  /** The template of such a query is that of the query with placeholders if and only if the apostrophes in
      the last double-quoted literal are even in number, or no single-quoted one follows. */
  lemma HolesIffApostrophesPair(parts: seq<string>, literals: seq<StringLiteral>, k: nat)
    requires MayHoldApostrophes(parts, literals, k)
    ensures Normalize(Query(parts, literals)) == Normalize(Join(parts, "?"))
       <==> Count('\'', literals[k].body) % 2 == 0 || k + 1 == |literals|
  {
    var q, h := Query(parts, literals), Join(parts, "?");
    if Even(literals[k].body) || k + 1 == |literals| {
      WithoutOnePasses(parts, literals, k);
      hide Normalize, Query, Join, Count;
      LiteralsAreHoles(parts, literals);
    } else {
      NoQuotesLeft(parts);
      var x, n := OddLeavesDouble(parts, literals, k);
      var u := WithoutStrings(q);
      JoinHasNo('"', parts);
      hide Normalize, WithoutStrings, Query, Join, Apply, Count;
      assert '"' in u;
      CountNone('"', u);
      CountNone('"', h);
      QuotesReachTemplate('"', q);
      QuotesReachTemplate('"', h);
    }
  }

  // ---------- what an odd one lets through ----------

  /** One word that does not start with a digit. */
  predicate IsShownWord(w: string) {
    w != "" && !IsDigit(w[0]) && forall i :: 0 <= i < |w| ==> IsWord(w[i])
  }

  /** `x` ends with a placeholder and `z` starts with one, or with an apostrophe. */
  predicate Between(x: string, z: string) {
    x != "" && x[|x| - 1] == '?' && z != "" && (z[0] == '?' || z[0] == '\'')
  }

  predicate Reads(pass: Pass) {
    !pass.SingleQuoted? && !pass.DoubleQuoted?
  }

  /** A match does not end with a placeholder. */
  lemma MatchEnd(pass: Pass, inWord: bool, s: string)
    requires Reads(pass) && MatchLen(pass, inWord, s) > 0
    ensures s[MatchLen(pass, inWord, s) - 1] != '?'
  {
    hide InListLen, TupleMultiLen, TuplesManyLen, DigitRun;
    match pass
    case TuplesMany => TuplesManyEnd(s);
    case InList | TupleMulti | Numbered =>
    case _ =>
      hide MatchLen;
      MatchHolds(pass, inWord, s);
  }

  /** Nor does one go from a placeholder into a word behind it. */
  lemma MatchStopsAtHole(pass: Pass, inWord: bool, s: string, i: nat)
    requires Reads(pass) && i + 1 < |s| && s[i] == '?' && IsWord(s[i + 1]) && !IsDigit(s[i + 1])
    ensures MatchLen(pass, inWord, s) <= i + 1
  {
    if pass.InList? {
      ListStopsAtHole(inWord, s, i);
    } else {
      hide MatchLen, MayHold, IsWord, IsDigit;
      MatchHolds(pass, inWord, s);
      HoleOrLetter(pass, s[i + 1]);
    }
  }

  lemma HoleOrLetter(pass: Pass, c: char)
    requires Reads(pass) && !pass.InList? && IsWord(c) && !IsDigit(c)
    ensures !MayHold(pass, '?') || !MayHold(pass, c)
  {
  }

  lemma ListStopsAtHole(inWord: bool, s: string, i: nat)
    requires i + 1 < |s| && s[i] == '?' && IsWord(s[i + 1])
    ensures InListLen(inWord, s) <= i + 1
  {
    hide TupleLen, InHead;
    var h := InHead(inWord, s);
    InHeadHasNoHole(inWord, s, i);
    TupleHolds(s[h..]);
    assert s[h..][i + 1 - h] == s[i + 1];
    assert !MayHold(TupleMulti, s[i + 1]);
  }

  lemma Seam(x: string, w: string, z: string)
    requires IsShownWord(w) && Between(x, z)
    ensures var s := x + (w + z);
      0 < |x| < |s| && s[|x| - 1] == '?' && IsWord(s[|x|]) && !IsDigit(s[|x|])
  {
    hide IsWord, IsDigit;
    assert IsWord(w[0]);
  }

  lemma MatchStopsBetween(pass: Pass, inWord: bool, x: string, w: string, z: string)
    requires Reads(pass) && IsShownWord(w) && Between(x, z)
    ensures MatchLen(pass, inWord, x + (w + z)) < |x|
  {
    hide *;
    Seam(x, w, z);
    MatchStopsBehindHole(pass, inWord, x + (w + z), |x|);
  }

  lemma MatchStopsBehindHole(pass: Pass, inWord: bool, s: string, k: nat)
    requires Reads(pass) && 0 < k < |s| && s[k - 1] == '?' && IsWord(s[k]) && !IsDigit(s[k])
    ensures MatchLen(pass, inWord, s) < k
  {
    hide MatchLen, IsWord, IsDigit, Reads;
    MatchStopsAtHole(pass, inWord, s, k - 1);
    if MatchLen(pass, inWord, s) > 0 { MatchEnd(pass, inWord, s); }
  }

  lemma InHeadHasNoHole(inWord: bool, s: string, i: nat)
    requires i < |s| && s[i] == '?'
    ensures i >= InHead(inWord, s)
  {
    if i >= 2 { assert s[2..][i - 2] == s[i]; }
  }

  /** A pass keeps such a word where it is. */
  lemma {:induction false} WordKept(pass: Pass, inWord: bool, x: string, w: string, z: string)
      returns (a: string, b: string)
    requires Reads(pass) && IsShownWord(w) && Between(x, z)
    ensures ReplaceAll(pass, inWord, x + (w + z)) == a + (w + b) && Between(a, b)
    decreases |x|
  {
    hide MatchLen, ReplaceAll, IsShownWord, Written, IsWord, Reads, Between;
    var n := MatchLen(pass, inWord, x + (w + z));
    MatchStopsBetween(pass, inWord, x, w, z);
    StepBefore(pass, inWord, x, w + z, n);
    if Width(n) == |x| {
      LastStep(pass, n, x, z);
      assert x[|x|..] + (w + z) == w + z;
      b := WordThere(pass, w, z);
      a := "?";
    } else {
      var t := x[Width(n)..];
      TailBetween(x, z, Width(n));
      var c;
      c, b := WordKept(pass, IsWord(x[Width(n) - 1]), t, w, z);
      a := Written(pass, n, x) + c;
      PrefixedText(Written(pass, n, x), c, w + b);
      BetweenAfter(Written(pass, n, x), c, b);
    }
  }

  lemma LastStep(pass: Pass, n: nat, x: string, z: string)
    requires Between(x, z) && n < |x| == Width(n)
    ensures Written(pass, n, x) == "?" && x == "?" && !IsWord(x[Width(n) - 1])
  {
  }

  lemma TailBetween(x: string, z: string, k: nat)
    requires Between(x, z) && k < |x|
    ensures Between(x[k..], z)
  {
  }

  lemma BetweenAfter(w: string, c: string, b: string)
    requires Between(c, b)
    ensures Between(w + c, b)
  {
  }

  lemma WordThere(pass: Pass, w: string, z: string) returns (b: string)
    requires Reads(pass) && IsShownWord(w) && Between("?", z)
    ensures ReplaceAll(pass, false, w + z) == w + b && Between("?", b)
  {
    var s := w + z;
    WordThen(Digits, false, w, z);
    NoMatchAtWord(pass, w, z);
    MarkStays(pass, z);
    b := ReplaceAll(pass, true, z);
    hide MatchLen, ReplaceAll;
    ScanStep(pass, false, s);
    CopyWholeWord(pass, s);
    assert s[..|w|] == w && s[|w|..] == z;
  }

  lemma MarkStays(pass: Pass, z: string)
    requires Reads(pass) && z != "" && (z[0] == '?' || z[0] == '\'')
    ensures var b := ReplaceAll(pass, true, z); b != "" && b[0] == z[0]
  {
    if MatchLen(pass, true, z) > 0 { MatchEdges(pass, true, z); }
  }

  lemma NoMatchAtWord(pass: Pass, w: string, z: string)
    requires Reads(pass) && IsShownWord(w) && Between("?", z)
    ensures MatchLen(pass, false, w + z) == 0
  {
    assert (w + z)[0] == w[0];
    assert IsWord(w[0]) && !IsDigit(w[0]);
    if pass.InList? {
      NoListAtWord(w, z);
    } else {
      NoMatchAtLetter(pass, w + z);
    }
  }

  lemma NoMatchAtLetter(pass: Pass, s: string)
    requires Reads(pass) && !pass.InList? && s != "" && IsWord(s[0]) && !IsDigit(s[0])
    ensures MatchLen(pass, false, s) == 0
  {
    hide TupleTail, MoreTuples, HexRun, ExponentLen, SeparatorLen;
  }

  lemma NoListAtWord(w: string, z: string)
    requires IsShownWord(w) && Between("?", z)
    ensures InListLen(false, w + z) == 0
  {
    hide TupleTail;
    var s := w + z;
    if |s| > 2 {
      var t := s[2..];
      assert t[0] == s[2] && (|w| > 2 ==> s[2] == w[2]) && (|w| == 2 ==> s[2] == z[0]) && (|w| == 1 ==> s[1] == z[0]);
    }
  }

  ghost predicate Carries(s: string, w: string) {
    exists x, z :: s == x + (w + z) && Between(x, z)
  }

  lemma PassCarries(pass: Pass, s: string, w: string)
    requires Reads(pass) && IsShownWord(w) && Carries(s, w)
    ensures Carries(Apply(pass, s), w)
  {
    hide ReplaceAll, Between, IsShownWord;
    var x, z :| s == x + (w + z) && Between(x, z);
    var a, b := WordKept(pass, false, x, w, z);
  }

  lemma TemplateCarries(sql: string, w: string) returns (a: string, b: string)
    requires IsShownWord(w) && Carries(WithoutStrings(sql), w)
    ensures Normalize(sql) == a + (ToLower(w) + b)
  {
    SquashedCarries(sql, w);
    LastSteps(sql);
    hide Normalize, Squashed, IsShownWord, ToLower, TrimLeft, TrimRight;
    var x, z :| Squashed(sql) == x + (w + z) && Between(x, z);
    a, b := ToLower(TrimLeft(x)), ToLower(TrimRight(z));
    TrimBetween(x, w, z);
    LowerOver(TrimLeft(x), w + TrimRight(z));
    LowerOver(w, TrimRight(z));
  }

  lemma TrimBetween(x: string, w: string, z: string)
    requires Between(x, z)
    ensures TrimSpace(x + (w + z)) == TrimLeft(x) + (w + TrimRight(z))
  {
    hide TrimLeft, TrimRight, IsSpace;
    TrimLeftBetween(x, w + z);
    TrimRightBetween(TrimLeft(x) + w, z);
    assert TrimLeft(x) + (w + z) == (TrimLeft(x) + w) + z;
    assert TrimLeft(x) + (w + TrimRight(z)) == (TrimLeft(x) + w) + TrimRight(z);
  }

  lemma TrimLeftBetween(x: string, y: string)
    requires x != "" && x[|x| - 1] == '?'
    ensures TrimLeft(x + y) == TrimLeft(x) + y
  {
    assert !IsSpace('?');
    hide TrimLeft, IsSpace;
    var front := x[..|x| - 1];
    assert x == front + "?" && x + y == front + ("?" + y);
    TrimLeftUpTo(front, "?" + y);
    TrimLeftUpTo(front, "?");
    assert TrimLeft(front) + ("?" + y) == (TrimLeft(front) + "?") + y;
  }

  lemma TrimRightBetween(y: string, z: string)
    requires z != "" && (z[0] == '?' || z[0] == '\'')
    ensures TrimRight(y + z) == y + TrimRight(z)
  {
    assert !IsSpace(z[0]);
    hide TrimRight, IsSpace;
    var back := z[1..];
    assert z == [z[0]] + back;
    PrefixedText(y, [z[0]], back);
    PrefixedText(y, [z[0]], TrimRight(back));
    TrimRightDownTo(y + [z[0]], back);
    TrimRightDownTo([z[0]], back);
  }

  lemma SquashedCarries(sql: string, w: string)
    requires IsShownWord(w) && Carries(WithoutStrings(sql), w)
    ensures Carries(Squashed(sql), w)
  {
    StrippedIs(sql);
    CollapsedIs(Stripped(sql));
    hide Apply, Carries, IsShownWord, Stripped, Collapsed;
    var s2 := WithoutStrings(sql);
    var s3 := Apply(Named, s2);
    var s4 := Apply(Numbered, s3);
    var s5 := Apply(Hex, s4);
    var s6 := Apply(Decimal, s5);
    var s7 := Apply(Int, s6);
    var s8 := Apply(InList, s7);
    var s9 := Apply(TuplesMany, s8);
    var s10 := Apply(TupleMulti, s9);
    PassCarries(Named, s2, w);
    PassCarries(Numbered, s3, w);
    PassCarries(Hex, s4, w);
    PassCarries(Decimal, s5, w);
    PassCarries(Int, s6, w);
    PassCarries(InList, s7, w);
    PassCarries(TuplesMany, s8, w);
    PassCarries(TupleMulti, s9, w);
    PassCarries(Blanks, s10, w);
  }

  /** Otherwise the next literal is read as text: a word in it is a word of the template. */
  lemma OddApostropheShowsNext(parts: seq<string>, literals: seq<StringLiteral>, k: nat) returns (a: string, b: string)
    requires MayHoldApostrophes(parts, literals, k) && Count('\'', literals[k].body) % 2 == 1
    requires k + 1 < |literals| && IsShownWord(literals[k + 1].body)
    ensures Normalize(Query(parts, literals)) == a + (ToLower(literals[k + 1].body) + b)
  {
    var w := literals[k + 1].body;
    var behind := ['\''] + Reading("", parts[k + 2..], literals[k + 2..]);
    var x, n := OddLeavesDouble(parts, literals, k);
    assert Rest(parts, literals, k)[0] == w[0] && Rest(parts, literals, k)[n..] == w + behind;
    QuoteFreeWord(w, behind);
    var z := Apply(SingleQuoted, behind);
    assert x + ("?" + (w + z)) == (x + "?") + (w + z);
    assert Between(x + "?", z) by { ApostropheRead(behind); }
    hide Normalize, WithoutStrings, Apply, Query, Reading, Rest;
    a, b := TemplateCarries(Query(parts, literals), w);
  }

  lemma QuoteFreeWord(w: string, z: string)
    requires IsShownWord(w)
    ensures Apply(SingleQuoted, w + z) == w + Apply(SingleQuoted, z)
    ensures w[0] != '\''
  {
    hide Apply;
    CopyUnquoted('\'', w, z);
  }

  lemma ApostropheRead(s: string)
    requires s != "" && s[0] == '\''
    ensures var z := Apply(SingleQuoted, s); z != "" && (z[0] == '?' || z[0] == '\'')
  {
    hide Apply;
    ReadStep('\'', s);
  }

  // ---------- the smallest query that shows it ----------

  lemma NameClosesLiteral(t: string)
    requires t == "'\"'x'"
    ensures QuotedLen('\'', t) == 3
  {
    var u := t[1..];
    assert u == "\"'x'" && u[1..] == "'x'";
    assert Literal('\'', u[1..]) == Some(1);
  }

  lemma NameRead(s: string)
    requires s == "\"'\"'x'"
    ensures WithoutStrings(s) == "\"?x'"
  {
    var t, u := s[1..], "x'";
    assert t == "'\"'x'" && t[3..] == u && u[1..] == "'";
    NameClosesLiteral(t);
    assert QuotedLen('\'', s) == 0 == QuotedLen('\'', u);
    assert ['"'] + ("?" + (['x'] + "'")) == "\"?x'" == ['"'] + "?x'";
    NoSecondDouble("?x'");
    hide *;
    ReadStep('\'', s);
    ReadStep('\'', t);
    ReadStep('\'', u);
    LoneApostrophe();
  }

  lemma LoneApostrophe()
    ensures Apply(SingleQuoted, "'") == "'"
  {
    assert "'"[1..] == "";
    assert MatchLen(SingleQuoted, false, "'") == 0;
  }

  lemma NoMatchAtMark(pass: Pass, f: bool, s: string)
    requires Reads(pass) && s != "" && (s[0] == '"' || s[0] == '\'')
    ensures MatchLen(pass, f, s) == 0
  {
    if MatchLen(pass, f, s) > 0 { MatchHolds(pass, f, s); MarksNotHeld(pass, s[0]); }
  }

  lemma MarksNotHeld(pass: Pass, c: char)
    requires Reads(pass) && IsQuote(c)
    ensures !MayHold(pass, c)
  {
  }

  lemma NoMatchAtHole(pass: Pass, f: bool, s: string)
    requires Reads(pass) && s == "?x'"
    ensures MatchLen(pass, f, s) == 0
  {
    assert s[0] == '?' && s[1] == 'x';
    MatchStopsAtHole(pass, f, s, 0);
    if MatchLen(pass, f, s) > 0 { MatchEnd(pass, f, s); }
  }

  lemma NothingMore(pass: Pass, s: string)
    requires s == "\"?x'" && Reads(pass)
    ensures Apply(pass, s) == s
  {
    assert s[1..] == "?x'" && s[2..] == "x" + "'" && s[3..] == "'" && s[0..] == s;
    assert !FlagAt(false, s, 2) && IsShownWord("x") && Between("?", "'");
    hide MatchLen, ReplaceAll, Reads, IsShownWord, Between, IsWord;
    NoMatchAtMark(pass, false, s);
    NoMatchAtHole(pass, FlagAt(false, s, 1), s[1..]);
    NoMatchAtWord(pass, "x", "'");
    NoMatchAtMark(pass, FlagAt(false, s, 3), s[3..]);
    IdleCopies(pass, false, s);
  }

  /** `x` was to be hidden. */
  lemma ApostropheInName()
    ensures Normalize("\"'\"'x'") == "\"?x'"
  {
    var q, s := "\"'\"'x'", "\"?x'";
    NameRead(q);
    StrippedIs(q);
    CollapsedIs(Stripped(q));
    LastSteps(q);
    hide Apply, Normalize, Stripped, Collapsed;
    NothingMore(Named, s);
    NothingMore(Numbered, s);
    NothingMore(Hex, s);
    NothingMore(Decimal, s);
    NothingMore(Int, s);
    NothingMore(InList, s);
    NothingMore(TuplesMany, s);
    NothingMore(TupleMulti, s);
    NothingMore(Blanks, s);
    LastStepsHere(s);
  }

  lemma LastStepsHere(s: string)
    requires s == "\"?x'"
    ensures ToLower(TrimSpace(s)) == s
  {
    NothingToTrim(s);
    hide ToLower, TrimSpace;
  }
}
