/** Small vocabulary shared by the modules of this project. */
module Prelude {

  datatype Option<+T> = None | Some(value: T)
}

/** The string functions of Go's standard library that the modelled code uses, on ASCII text. */
module Ascii {

  predicate IsDigit(c: char) { '0' <= c <= '9' }

  predicate IsUpper(c: char) { 'A' <= c <= 'Z' }

  /** `\w` of a regular expression. */
  predicate IsWord(c: char) {
    IsDigit(c) || IsUpper(c) || 'a' <= c <= 'z' || c == '_'
  }

  /** `\s` of a regular expression: it has no vertical tab. */
  predicate IsBlank(c: char) {
    c == ' ' || c == '\t' || c == '\n' || c == '\r' || c == 0xC as char
  }

  /** unicode.IsSpace, which has the vertical tab. */
  predicate IsSpace(c: char) {
    IsBlank(c) || c == 0xB as char
  }

  function Lower(c: char): (r: char)
    ensures !IsUpper(r)
  {
    if IsUpper(c) then (c as int + 32) as char else c
  }

  /** strings.ToLower */
  function ToLower(s: string): (r: string)
    ensures |r| == |s|
    ensures forall i :: 0 <= i < |s| ==> r[i] == Lower(s[i])
  {
    if s == [] then [] else [Lower(s[0])] + ToLower(s[1..])
  }

  lemma LowerOver(a: string, b: string)
    ensures ToLower(a + b) == ToLower(a) + ToLower(b)
  {
    hide ToLower;
  }

  function TrimLeft(s: string): (r: string)
    ensures |r| <= |s|
  {
    if s != [] && IsSpace(s[0]) then TrimLeft(s[1..]) else s
  }

  function TrimRight(s: string): (r: string)
    ensures |r| <= |s|
  {
    if s != [] && IsSpace(s[|s| - 1]) then TrimRight(s[..|s| - 1]) else s
  }

  /** strings.TrimSpace */
  function TrimSpace(s: string): string {
    TrimRight(TrimLeft(s))
  }

  /** Trimming cuts off blanks, and all of them. */
  lemma {:induction false} TrimLeftCuts(s: string)
    ensures TrimLeft(s) == s[|s| - |TrimLeft(s)|..]
    ensures TrimLeft(s) == "" || !IsSpace(TrimLeft(s)[0])
    ensures |TrimLeft(s)| < |s| ==> IsSpace(s[|s| - |TrimLeft(s)| - 1])
  {
    if s == [] || !IsSpace(s[0]) {
    } else {
      TrimLeftCuts(s[1..]);
    }
  }

  lemma {:induction false} TrimRightCuts(s: string)
    ensures TrimRight(s) == s[..|TrimRight(s)|]
    ensures TrimRight(s) == "" || !IsSpace(TrimRight(s)[|TrimRight(s)| - 1])
    ensures |TrimRight(s)| < |s| ==> IsSpace(s[|TrimRight(s)|])
  {
    if s == [] || !IsSpace(s[|s| - 1]) {
    } else {
      TrimRightCuts(s[..|s| - 1]);
    }
  }

  lemma TrimSpaceCuts(s: string) returns (a: nat, b: nat)
    ensures a <= b <= |s| && TrimSpace(s) == s[a..b]
    ensures (a == 0 || IsSpace(s[a - 1])) && (b == |s| || IsSpace(s[b]))
    ensures TrimSpace(s) == "" || (!IsSpace(s[a]) && !IsSpace(s[b - 1]))
  {
    hide TrimLeft, TrimRight, IsSpace;
    TrimLeftCuts(s);
    var t := TrimLeft(s);
    TrimRightCuts(t);
    a := |s| - |t|;
    b := a + |TrimRight(t)|;
  }

  lemma TrimLeftStep(c: char, t: string)
    ensures TrimLeft([c] + t) == if IsSpace(c) then TrimLeft(t) else [c] + t
  {
    assert ([c] + t)[1..] == t;
  }

  lemma TrimLeftNothing(x: string)
    requires x != "" && !IsSpace(x[0])
    ensures TrimLeft(x) == x && TrimLeft("") == ""
  {
  }

  lemma {:induction false} TrimLeftUpTo(a: string, x: string)
    requires x != "" && !IsSpace(x[0])
    ensures TrimLeft(a + x) == TrimLeft(a) + x
  {
    hide TrimLeft, IsSpace;
    if a == "" {
      TrimLeftNothing(x);
      assert a + x == x;
    } else {
      var t := a[1..];
      assert a + x == [a[0]] + (t + x) && a == [a[0]] + t;
      TrimLeftStep(a[0], t + x);
      TrimLeftStep(a[0], t);
      if IsSpace(a[0]) { TrimLeftUpTo(t, x); }
    }
  }

  lemma {:induction false} TrimRightDownTo(x: string, b: string)
    requires x != "" && !IsSpace(x[|x| - 1])
    ensures TrimRight(x + b) == x + TrimRight(b)
    decreases |b|
  {
    hide IsSpace;
    if b == "" {
      assert x + b == x;
    } else {
      TrimRightDownTo(x, b[..|b| - 1]);
      assert (x + b)[..|x + b| - 1] == x + b[..|b| - 1];
    }
  }

  lemma NothingToTrim(r: string)
    requires r == "" || (!IsSpace(r[0]) && !IsSpace(r[|r| - 1]))
    ensures TrimSpace(r) == r
  {
  }

  /** strings.Split by a one-character separator. */
  function Split(s: string, sep: char): (r: seq<string>)
    ensures r != []
  {
    if s == [] then [""]
    else
      var rest := Split(s[1..], sep);
      if s[0] == sep then [""] + rest
      else [[s[0]] + rest[0]] + rest[1..]
  }

  /** strings.Join by a separator. */
  function Join(parts: seq<string>, sep: string): string {
    if parts == [] then ""
    else if |parts| == 1 then parts[0]
    else parts[0] + sep + Join(parts[1..], sep)
  }

  lemma {:induction false} SplitWord(w: string, rest: string, sep: char)
    requires sep !in w
    ensures Split(w + [sep] + rest, sep) == [w] + Split(rest, sep)
    ensures Split(w, sep) == [w]
  {
    if w == [] {
      assert w + [sep] + rest == [sep] + rest;
    } else {
      SplitWord(w[1..], rest, sep);
      assert (w + [sep] + rest)[1..] == w[1..] + [sep] + rest;
      assert [w[0]] + w[1..] == w;
    }
  }

  /** Joining undoes splitting. */
  lemma {:induction false} JoinSplit(s: string, sep: char)
    ensures Join(Split(s, sep), [sep]) == s
    ensures forall i :: 0 <= i < |Split(s, sep)| ==> sep !in Split(s, sep)[i]
  {
    if s == [] {
    } else {
      JoinSplit(s[1..], sep);
      var rest := Split(s[1..], sep);
      assert s == [s[0]] + s[1..];
      if s[0] == sep {
        assert ([""] + rest)[1..] == rest;
      } else {
        var parts := [[s[0]] + rest[0]] + rest[1..];
        assert parts[1..] == rest[1..];
      }
    }
  }
}
