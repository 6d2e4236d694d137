/** What the texts that are let through uncut encode: sequences of Unicode scalar values, as section 3 of RFC 3629
    writes them in UTF-8. */
module LogScalars {
  import opened LogText

  /** A code point that is no surrogate. */
  predicate IsScalar(v: int) {
    0 <= v <= 0x10FFFF && !(0xD800 <= v <= 0xDFFF)
  }

  predicate AllScalars(vs: seq<int>) {
    forall i :: 0 <= i < |vs| ==> IsScalar(vs[i])
  }

  /** The last bits of a code point, in as many bytes of six bits each. */
  function Trail(v: nat, n: nat): string {
    if n == 0 then "" else Trail(v / 64, n - 1) + [(0x80 + v % 64) as char]
  }

  function Encoded(v: int): string
    requires IsScalar(v)
  {
    if v < 0x80 then [v as char]
    else if v < 0x800 then [(0xC0 + v / 0x40) as char] + Trail(v, 1)
    else if v < 0x1_0000 then [(0xE0 + v / 0x1000) as char] + Trail(v, 2)
    else [(0xF0 + v / 0x4_0000) as char] + Trail(v, 3)
  }

  function EncodedAll(vs: seq<int>): string
    requires AllScalars(vs)
  {
    if vs == [] then "" else Encoded(vs[0]) + EncodedAll(vs[1..])
  }

  lemma TrailIs(v: nat)
    ensures Trail(v, 1) == [(0x80 + v % 64) as char]
    ensures Trail(v, 2) == [(0x80 + v / 64 % 64) as char, (0x80 + v % 64) as char]
    ensures Trail(v, 3) == [(0x80 + v / 64 / 64 % 64) as char, (0x80 + v / 64 % 64) as char, (0x80 + v % 64) as char]
  {
    assert Trail(v / 64 / 64, 1) == [(0x80 + v / 64 / 64 % 64) as char];
    assert Trail(v / 64, 1) == [(0x80 + v / 64 % 64) as char];
    assert Trail(v / 64, 2) == Trail(v / 64 / 64, 1) + [(0x80 + v / 64 % 64) as char];
  }

  lemma EncodedIsChar(v: int)
    requires IsScalar(v)
    ensures IsUtf8Char(Encoded(v))
  {
    TrailIs(v);
    if v < 0x800 {
    } else if v < 0x1_0000 {
      ThreeBytes(v);
    } else {
      FourBytes(v);
    }
  }

  lemma ThreeBytes(v: int)
    requires IsScalar(v) && 0x800 <= v < 0x1_0000
    ensures IsUtf8Char(Encoded(v))
  {
    TrailIs(v);
    var s, q := Encoded(v), v / 64;
    assert 32 <= q < 0x400 && v / 0x1000 == q / 64;
    assert s[0] as int == 0xE0 + v / 0x1000 && s[1] as int == 0x80 + v / 64 % 64 && s[2] as int == 0x80 + v % 64;
  }

  lemma FourBytes(v: int)
    requires IsScalar(v) && 0x1_0000 <= v
    ensures IsUtf8Char(Encoded(v))
  {
    TrailIs(v);
    var s, q := Encoded(v), v / 64 / 64;
    assert 16 <= q <= 0x10F && v / 0x4_0000 == q / 64;
    assert s[0] as int == 0xF0 + v / 0x4_0000 && s[1] as int == 0x80 + v / 64 / 64 % 64;
    assert s[2] as int == 0x80 + v / 64 % 64 && s[3] as int == 0x80 + v % 64;
  }

  /** The number in the bits of a trailing byte. */
  function Low(c: char): int { c as int - 0x80 }

  lemma Shifted(q: nat, c: char)
    requires Tail(c)
    ensures var v := q * 64 + Low(c);
            v / 64 == q && (0x80 + v % 64) as char == c
  {
  }

  /** The code point of a character of three bytes: four bits and twice six. */
  lemma OfThree(s: string) returns (v: int)
    requires IsUtf8Char(s) && |s| == 3
    ensures IsScalar(v) && Encoded(v) == s
  {
    var a := s[0] as int - 0xE0;
    var b := a * 64 + Low(s[1]);
    v := b * 64 + Low(s[2]);
    Shifted(a, s[1]);
    Shifted(b, s[2]);
    TrailIs(v);
    assert 0x800 <= v < 0x1_0000 && v / 0x1000 == a && (0xE0 + a) as char == s[0];
    assert Encoded(v)[0] == s[0] && Encoded(v)[1..] == s[1..];
  }

  lemma OfFour(s: string) returns (v: int)
    requires IsUtf8Char(s) && |s| == 4
    ensures IsScalar(v) && Encoded(v) == s
  {
    var a := s[0] as int - 0xF0;
    var b := a * 64 + Low(s[1]);
    var c := b * 64 + Low(s[2]);
    v := c * 64 + Low(s[3]);
    Shifted(a, s[1]);
    Shifted(b, s[2]);
    Shifted(c, s[3]);
    TrailIs(v);
    assert 0x1_0000 <= v <= 0x10FFFF && v / 0x4_0000 == a && (0xF0 + a) as char == s[0];
    assert Encoded(v)[0] == s[0] && Encoded(v)[1..] == s[1..];
  }

  lemma OfTwo(s: string) returns (v: int)
    requires IsUtf8Char(s) && |s| == 2
    ensures IsScalar(v) && Encoded(v) == s
  {
    var a := s[0] as int - 0xC0;
    v := a * 64 + Low(s[1]);
    Shifted(a, s[1]);
    TrailIs(v);
  }

  lemma CharIsEncoded(s: string) returns (v: int)
    requires IsUtf8Char(s)
    ensures IsScalar(v) && Encoded(v) == s
  {
    match |s| {
      case 1 => v := s[0] as int;
      case 2 => v := OfTwo(s);
      case 3 => v := OfThree(s);
      case _ => v := OfFour(s);
    }
  }

  lemma {:induction false} EncodedIsFlattened(vs: seq<int>) returns (chars: seq<string>)
    requires AllScalars(vs)
    ensures forall i :: 0 <= i < |chars| ==> IsUtf8Char(chars[i])
    ensures Flatten(chars) == EncodedAll(vs)
  {
    if vs == [] {
      chars := [];
    } else {
      EncodedIsChar(vs[0]);
      var rest := EncodedIsFlattened(vs[1..]);
      chars := [Encoded(vs[0])] + rest;
      assert chars[1..] == rest;
    }
  }

  lemma {:induction false} FlattenedIsEncoded(chars: seq<string>) returns (vs: seq<int>)
    requires forall i :: 0 <= i < |chars| ==> IsUtf8Char(chars[i])
    ensures AllScalars(vs) && EncodedAll(vs) == Flatten(chars)
  {
    if chars == [] {
      vs := [];
    } else {
      var v := CharIsEncoded(chars[0]);
      var rest := FlattenedIsEncoded(chars[1..]);
      vs := [v] + rest;
      assert vs[1..] == rest;
    }
  }

  /** A text is valid if and only if it encodes scalar values. */
  lemma ValidIffEncoded(s: string)
    ensures ValidString(s) <==> exists vs :: AllScalars(vs) && EncodedAll(vs) == s
  {
    hide ValidString, IsUtf8Char, Encoded;
    if ValidString(s) {
      var chars := ValidIsFlattened(s);
      var vs := FlattenedIsEncoded(chars);
    }
    if exists vs :: AllScalars(vs) && EncodedAll(vs) == s {
      var vs :| AllScalars(vs) && EncodedAll(vs) == s;
      var chars := EncodedIsFlattened(vs);
      FlattenedIsValid(chars);
    }
  }
}
