/** Cutting log text to a byte limit without cutting a character (logs.go). As everywhere in this project
    a string is what it is in Go, a sequence of bytes: one `char` for each. */
module LogText {

  const MAX_BODY_BYTES := 8192
  const MAX_ATTR_BYTES := 2048

  // ---------- UTF-8, section 4 of RFC 3629 ----------

  predicate In(low: int, c: char, high: int) { low <= c as int <= high }

  predicate Tail(c: char) { In(0x80, c, 0xBF) }

  /** UTF8-2, UTF8-3 and UTF8-4: the first byte says how many follow and narrows the second. */
  predicate IsUtf8Char(s: string) {
    match |s|
    case 1 => In(0, s[0], 0x7F)
    case 2 => In(0xC2, s[0], 0xDF) && Tail(s[1])
    case 3 =>
      && In(0xE0, s[0], 0xEF) && Tail(s[1]) && Tail(s[2])
      && (s[0] as int == 0xE0 ==> s[1] as int >= 0xA0) && (s[0] as int == 0xED ==> s[1] as int <= 0x9F)
    case 4 =>
      && In(0xF0, s[0], 0xF4) && Tail(s[1]) && Tail(s[2]) && Tail(s[3])
      && (s[0] as int == 0xF0 ==> s[1] as int >= 0x90) && (s[0] as int == 0xF4 ==> s[1] as int <= 0x8F)
    case _ => false
  }

  function Flatten(chars: seq<string>): string {
    if chars == [] then [] else chars[0] + Flatten(chars[1..])
  }

  /** UTF8-octets = *( UTF8-char ) */
  ghost predicate IsUtf8(s: string) {
    exists chars: seq<string> :: (forall i :: 0 <= i < |chars| ==> IsUtf8Char(chars[i])) && Flatten(chars) == s
  }

  // ---------- utf8.ValidString ----------

  /** How long the character at the front is, or 0 when there is none. */
  function CharLen(s: string): (n: nat)
    ensures n <= |s| && n <= 4
    ensures n > 0 <==> exists k: nat :: k <= |s| && IsUtf8Char(s[..k])
    ensures n > 0 ==> IsUtf8Char(s[..n])
  {
    if s != [] && IsUtf8Char(s[..1]) then 1
    else if |s| > 1 && IsUtf8Char(s[..2]) then 2
    else if |s| > 2 && IsUtf8Char(s[..3]) then 3
    else if |s| > 3 && IsUtf8Char(s[..4]) then 4
    else 0
  }

  predicate ValidString(s: string)
    decreases |s|
  {
    s == [] || (CharLen(s) > 0 && ValidString(s[CharLen(s)..]))
  }

  /** The first byte alone says how long a character is. */
  lemma CharIsUnique(s: string, t: string)
    requires IsUtf8Char(s) && IsUtf8Char(t) && s[0] == t[0]
    ensures |s| == |t|
  {
  }

  lemma CharInFront(c: string, rest: string)
    requires IsUtf8Char(c)
    ensures CharLen(c + rest) == |c| && (c + rest)[|c|..] == rest
  {
    var s := c + rest;
    assert s[..|c|] == c;
    var n := CharLen(s);
    assert s[..n][0] == c[0];
    CharIsUnique(s[..n], c);
  }

  lemma {:induction false} FlattenedIsValid(chars: seq<string>)
    requires forall i :: 0 <= i < |chars| ==> IsUtf8Char(chars[i])
    ensures ValidString(Flatten(chars))
  {
    if chars == [] {
    } else {
      FlattenedIsValid(chars[1..]);
      CharInFront(chars[0], Flatten(chars[1..]));
    }
  }

  lemma {:induction false} ValidIsFlattened(s: string) returns (chars: seq<string>)
    requires ValidString(s)
    ensures forall i :: 0 <= i < |chars| ==> IsUtf8Char(chars[i])
    ensures Flatten(chars) == s
    decreases |s|
  {
    if s == [] {
      chars := [];
    } else {
      var n := CharLen(s);
      var rest := ValidIsFlattened(s[n..]);
      chars := [s[..n]] + rest;
      assert chars[1..] == rest;
    }
  }

  /** Reading character by character decides the grammar. */
  lemma ValidIffUtf8(s: string)
    ensures ValidString(s) <==> IsUtf8(s)
  {
    if ValidString(s) { var chars := ValidIsFlattened(s); }
    if IsUtf8(s) {
      var chars: seq<string> :| (forall i :: 0 <= i < |chars| ==> IsUtf8Char(chars[i])) && Flatten(chars) == s;
      FlattenedIsValid(chars);
    }
  }

  // ---------- truncateLogText ----------

  /** The longest valid beginning of `s` of at most `limit` bytes. */
  function ValidFront(s: string, limit: nat): (t: string)
    requires limit <= |s|
    ensures t <= s && |t| <= limit
  {
    if ValidString(s[..limit]) then s[..limit] else ValidFront(s, limit - 1)
  }

  function Truncated(value: string, maxBytes: nat): (r: string)
    ensures |r| <= maxBytes && r <= value
  {
    if |value| <= maxBytes then value else ValidFront(value, maxBytes)
  }

  /** `t` is the longest beginning of `s` within the limit that is UTF-8. */
  ghost predicate LongestUtf8(s: string, limit: nat, t: string)
    requires limit <= |s|
  {
    && t <= s && |t| <= limit && IsUtf8(t)
    && forall n :: |t| < n <= limit ==> !IsUtf8(s[..n])
  }

  lemma {:induction false} ValidFrontIsLongest(s: string, limit: nat)
    requires limit <= |s|
    ensures LongestUtf8(s, limit, ValidFront(s, limit))
    decreases limit
  {
    ValidIffUtf8(s[..limit]);
    if ValidString(s[..limit]) {
    } else {
      hide IsUtf8, ValidString;
      ValidFrontIsLongest(s, limit - 1);
      var t := ValidFront(s, limit - 1);
      forall n | |t| < n <= limit ensures !IsUtf8(s[..n]) {
        if n < limit { assert LongestUtf8(s, limit - 1, t); }
      }
    }
  }

  /** `t` is all of `s` if it fits, and else the longest beginning within the limit that is UTF-8. */
  ghost predicate IsCut(s: string, limit: nat, t: string) {
    if |s| <= limit then t == s else LongestUtf8(s, limit, t)
  }

  lemma TruncatedIsCut(s: string, limit: nat)
    ensures IsCut(s, limit, Truncated(s, limit))
  {
    if |s| > limit { ValidFrontIsLongest(s, limit); }
  }

  method Truncate(value: string, maxBytes: nat) returns (r: string)
    ensures r == Truncated(value, maxBytes)
    ensures |value| <= maxBytes ==> r == value
    ensures |value| > maxBytes ==> LongestUtf8(value, maxBytes, r)
  {
    if |value| <= maxBytes {
      return value;
    }
    r := value[..maxBytes];
    while !ValidString(r)
      invariant |r| <= maxBytes && r == value[..|r|]
      invariant ValidFront(value, |r|) == ValidFront(value, maxBytes)
      decreases |r|
    {
      r := r[..|r| - 1];
    }
    ValidFrontIsLongest(value, maxBytes);
  }

  /** Between two characters of a valid text there are at most four bytes, so some valid beginning is at
      most three bytes short of any limit. */
  lemma {:induction false} ValidNear(s: string, limit: nat) returns (n: nat)
    requires ValidString(s) && limit <= |s|
    ensures n <= limit <= n + 3 && ValidString(s[..n])
    decreases |s|
  {
    var k := if s == [] then 0 else CharLen(s);
    if s == [] || limit < k {
      n := 0;
    } else {
      var m := ValidNear(s[k..], limit - k);
      n := k + m;
      CharInFront(s[..k], s[k..][..m]);
      FrontCut(s, k, m);
    }
  }

  lemma FrontCut(s: string, k: nat, m: nat)
    requires k + m <= |s|
    ensures s[..k + m] == s[..k] + s[k..][..m]
  {
    assert s[k..][..m] == s[k..k + m];
  }

  /** Valid text stays valid, and loses at most three bytes more than it must. */
  lemma ValidTextLosesLittle(value: string, maxBytes: nat)
    requires IsUtf8(value)
    ensures IsUtf8(Truncated(value, maxBytes))
    ensures |value| > maxBytes ==> maxBytes - 3 <= |Truncated(value, maxBytes)| <= maxBytes
  {
    if |value| > maxBytes {
      ValidIffUtf8(value);
      ValidFrontIsLongest(value, maxBytes);
      var n := ValidNear(value, maxBytes);
      ValidIffUtf8(value[..n]);
    }
  }

  // ---------- text that is broken inside the limit ----------

  lemma {:induction false} ValidAfterValid(a: string, b: string)
    requires ValidString(a)
    ensures ValidString(a + b) <==> ValidString(b)
    decreases |a|
  {
    hide CharLen;
    if a == [] {
      assert a + b == b;
    } else {
      var k := CharLen(a);
      ValidAfterValid(a[k..], b);
      assert a + b == a[..k] + (a[k..] + b);
      CharInFront(a[..k], a[k..] + b);
    }
  }

  lemma BrokenBeginning(bad: string, m: nat)
    requires CharLen(bad) == 0 && 0 < m <= |bad|
    ensures !ValidString(bad[..m])
  {
    var s := bad[..m];
    assert forall k :: 0 <= k <= m ==> s[..k] == bad[..k];
    assert CharLen(s) == 0;
  }

  /** Where no character can start, the text is cut, however much of the limit is left. */
  lemma BrokenTextEndsThere(good: string, bad: string, limit: nat, t: string)
    requires IsUtf8(good) && CharLen(bad) == 0
    requires |good| <= limit <= |good + bad| && LongestUtf8(good + bad, limit, t)
    ensures t == good
  {
    var s := good + bad;
    ValidIffUtf8(good);
    assert s[..|good|] == good;
    if |t| > |good| {
      var m := |t| - |good|;
      ValidIffUtf8(t);
      assert t == s[..|t|] == good + bad[..m];
      ValidAfterValid(good, bad[..m]);
      BrokenBeginning(bad, m);
      assert false;
    }
    assert |t| == |good|;
  }
}
