/** Which keys are held back, told by the letters of the key itself: those in which a secret's name stands by
    itself, in any mixture of small and capital letters. */
module SensitiveKeys {
  import opened Ascii
  import opened Attributes
  import opened LogAttributes

  const SMALL := "abcdefghijklmnopqrstuvwxyz"
  const CAPITAL := "ABCDEFGHIJKLMNOPQRSTUVWXYZ"

  /** The character is the small letter or its capital. */
  predicate IsLetter(c: char, small: char) {
    c == small || exists n :: 0 <= n < 26 && SMALL[n] == small && CAPITAL[n] == c
  }

  predicate ReadsAs(s: string, word: string) {
    |s| == |word| && forall i :: 0 <= i < |s| ==> IsLetter(s[i], word[i])
  }

  predicate Separates(c: char) { c == '.' || c == '-' || c == '_' }

  predicate Blanks(s: string) { forall i :: 0 <= i < |s| ==> IsSpace(s[i]) }

  /** Nothing stands before the position but blanks, or a separator stands right before it. */
  predicate StartsPart(key: string, i: int)
    requires 0 <= i <= |key|
  {
    Blanks(key[..i]) || Separates(key[i - 1])
  }

  predicate EndsPart(key: string, j: int)
    requires 0 <= j <= |key|
  {
    Blanks(key[j..]) || Separates(key[j])
  }

  predicate Names(key: string, i: int, j: int, word: string) {
    0 <= i <= j <= |key| && ReadsAs(key[i..j], word) && StartsPart(key, i) && EndsPart(key, j)
  }

  /** The word stands by itself somewhere in the key. */
  ghost predicate Mentions(key: string, word: string) {
    exists i, j :: Names(key, i, j, word)
  }

  // ---------- words between separators ----------

  predicate PartAt(s: string, sep: char, i: int, j: int) {
    0 <= i <= j <= |s| && (i == 0 || s[i - 1] == sep) && (j == |s| || s[j] == sep)
  }

  lemma PartOfRest(s: string, i: nat, j: nat)
    requires i <= j < |s|
    ensures s[1..][i..j] == s[i + 1..j + 1]
  {
  }

  lemma {:induction false} PartIsAt(s: string, sep: char, n: nat) returns (i: nat, j: nat)
    requires n < |Split(s, sep)|
    ensures PartAt(s, sep, i, j) && s[i..j] == Split(s, sep)[n]
    ensures n == 0 <==> i == 0
  {
    if s == "" {
      i, j := 0, 0;
    } else {
      var rest := Split(s[1..], sep);
      if s[0] == sep {
        if n == 0 {
          i, j := 0, 0;
        } else {
          i, j := PartIsAt(s[1..], sep, n - 1);
          PartOfRest(s, i, j);
          i, j := i + 1, j + 1;
        }
      } else {
        i, j := PartIsAt(s[1..], sep, n);
        if n == 0 {
          assert s[0..j + 1] == [s[0]] + s[1..][0..j];
          i, j := 0, j + 1;
        } else {
          PartOfRest(s, i, j);
          i, j := i + 1, j + 1;
        }
      }
    }
  }

  lemma {:induction false} PartIsListed(s: string, sep: char, i: nat, j: nat) returns (n: nat)
    requires PartAt(s, sep, i, j) && sep !in s[i..j]
    ensures n < |Split(s, sep)| && Split(s, sep)[n] == s[i..j]
    ensures i == 0 <==> n == 0
  {
    if s == "" {
      n := 0;
    } else if j == 0 {
      n := 0;
      assert s[0] == sep;
    } else if i > 0 {
      PartOfRest(s, i - 1, j - 1);
      n := PartIsListed(s[1..], sep, i - 1, j - 1);
      if s[0] == sep { n := n + 1; }
    } else {
      assert s[0..j] == [s[0]] + s[1..][0..j - 1];
      assert s[0] in s[0..j];
      n := PartIsListed(s[1..], sep, 0, j - 1);
    }
  }

  // ---------- the key as it is compared ----------

  lemma {:induction false} CutLeft(s: string)
    ensures Blanks(s[..|s| - |TrimLeft(s)|])
  {
    if s != "" && IsSpace(s[0]) {
      CutLeft(s[1..]);
      var n := |s| - |TrimLeft(s)|;
      assert s[..n] == [s[0]] + s[1..][..n - 1];
    }
  }

  lemma {:induction false} CutRight(s: string)
    ensures Blanks(s[|TrimRight(s)|..])
  {
    if s != "" && IsSpace(s[|s| - 1]) {
      var t := s[..|s| - 1];
      CutRight(t);
      assert s[|TrimRight(s)|..] == t[|TrimRight(t)|..] + [s[|s| - 1]];
    }
  }

  /** What is left of a key after trimming stands between blanks. */
  lemma Trimmed(key: string) returns (a: nat, b: nat)
    ensures a <= b <= |key| && TrimSpace(key) == key[a..b] && Blanks(key[..a]) && Blanks(key[b..])
    ensures a < b ==> !IsSpace(key[a]) && !IsSpace(key[b - 1])
  {
    hide TrimLeft, TrimRight, Blanks, IsSpace;
    CutLeft(key);
    TrimLeftCuts(key);
    var t := TrimLeft(key);
    CutRight(t);
    TrimRightCuts(t);
    a := |key| - |t|;
    b := a + |TrimRight(t)|;
    assert key[b..] == t[|TrimRight(t)|..];
  }

  lemma LetterPlaces(n: int)
    requires 0 <= n < 26
    ensures SMALL[n] as int == 'a' as int + n && CAPITAL[n] as int == 'A' as int + n
  {
  }

  lemma LowerIsLetter(c: char, small: char)
    requires 'a' <= small <= 'z'
    ensures Lower(c) == small <==> IsLetter(c, small)
  {
    LetterPlaces(small as int - 'a' as int);
    forall n | 0 <= n < 26 && SMALL[n] == small ensures n == small as int - 'a' as int { LetterPlaces(n); }
  }

  predicate IsPlainWord(word: string) {
    word != "" && forall i :: 0 <= i < |word| ==> 'a' <= word[i] <= 'z'
  }

  function AsCompared(c: char): char {
    if Separates(c) then '.' else Lower(c)
  }

  lemma NormalizedAt(key: string, a: nat, b: nat)
    requires a <= b <= |key| && TrimSpace(key) == key[a..b]
    ensures |Normalized(key)| == b - a
    ensures forall m :: 0 <= m < b - a ==> Normalized(key)[m] == AsCompared(key[a + m])
  {
    hide TrimSpace, ToLower, Dotted;
  }

  lemma ReadsWord(key: string, a: nat, b: nat, i: nat, j: nat, word: string)
    requires a <= b <= |key| && TrimSpace(key) == key[a..b] && i <= j <= b - a && IsPlainWord(word)
    ensures Normalized(key)[i..j] == word <==> ReadsAs(key[a + i..a + j], word)
  {
    NormalizedAt(key, a, b);
    hide Normalized, Lower, IsLetter;
    var part, text := Normalized(key)[i..j], key[a + i..a + j];
    if |word| == j - i {
      forall m | 0 <= m < |word| ensures part[m] == word[m] <==> IsLetter(text[m], word[m]) {
        LowerIsLetter(text[m], word[m]);
      }
    }
  }

  // ---------- the keys that are held back ----------

  lemma ListedIsMentioned(key: string, word: string)
    requires IsPlainWord(word) && word in Split(Normalized(key), '.')
    ensures Mentions(key, word)
  {
    var a, b := Trimmed(key);
    NormalizedAt(key, a, b);
    var n :| 0 <= n < |Split(Normalized(key), '.')| && Split(Normalized(key), '.')[n] == word;
    var i, j := PartIsAt(Normalized(key), '.', n);
    ReadsWord(key, a, b, i, j, word);
    hide Normalized, ReadsAs, IsPlainWord, TrimSpace, Split, Blanks, Lower, IsSpace;
    if i == 0 { assert key[..a + i] == key[..a]; }
    if j == b - a { assert key[a + j..] == key[b..]; }
    assert Names(key, a + i, a + j, word);
  }

  lemma BlanksAround(key: string, i: nat, j: nat)
    requires i <= |key| && j <= |key|
    ensures Blanks(key[..i]) <==> forall k :: 0 <= k < i ==> IsSpace(key[k])
    ensures Blanks(key[j..]) <==> forall k :: j <= k < |key| ==> IsSpace(key[k])
  {
    hide IsSpace;
    if Blanks(key[j..]) {
      forall k | j <= k < |key| ensures IsSpace(key[k]) { assert IsSpace(key[j..][k - j]); }
    }
    if Blanks(key[..i]) {
      forall k | 0 <= k < i ensures IsSpace(key[k]) { assert IsSpace(key[..i][k]); }
    }
  }

  /** A word in a key lies in what trimming leaves. */
  lemma InsideTrimmed(key: string, a: nat, b: nat, i: nat, j: nat)
    requires a <= b <= |key| && Blanks(key[..a]) && Blanks(key[b..])
    requires a < b ==> !IsSpace(key[a]) && !IsSpace(key[b - 1])
    requires i < j <= |key| && !IsSpace(key[i]) && !IsSpace(key[j - 1]) && StartsPart(key, i) && EndsPart(key, j)
    ensures a <= i && j <= b
    ensures i == a || Separates(key[i - 1])
    ensures j == b || Separates(key[j])
  {
    hide IsSpace, Separates;
    BlanksAround(key, a, b);
    BlanksAround(key, i, j);
  }

  lemma WordHasNoBlanks(key: string, i: nat, j: nat, word: string)
    requires i <= j <= |key| && ReadsAs(key[i..j], word) && IsPlainWord(word)
    ensures i < j && !IsSpace(key[i]) && !IsSpace(key[j - 1])
  {
    assert IsLetter(key[i..j][0], word[0]) && IsLetter(key[i..j][j - i - 1], word[j - i - 1]);
    LowerIsLetter(key[i], word[0]);
    LowerIsLetter(key[j - 1], word[j - i - 1]);
  }

  lemma SeparatorIsDot(key: string, a: nat, b: nat, i: nat)
    requires a <= b <= |key| && TrimSpace(key) == key[a..b] && a < i <= b && Separates(key[i - 1])
    ensures |Normalized(key)| == b - a && Normalized(key)[i - 1 - a] == '.'
  {
    NormalizedAt(key, a, b);
    hide Normalized, TrimSpace, Lower, Separates;
    assert Normalized(key)[i - 1 - a] == AsCompared(key[a + (i - 1 - a)]);
  }

  lemma NamedIsPart(key: string, a: nat, b: nat, i: nat, j: nat)
    requires a <= i < j <= b <= |key| && TrimSpace(key) == key[a..b]
    requires i == a || Separates(key[i - 1])
    requires j == b || Separates(key[j])
    ensures PartAt(Normalized(key), '.', i - a, j - a)
  {
    assert |Normalized(key)| == b - a by { NormalizedAt(key, a, b); }
    hide Normalized, TrimSpace, Separates;
    if a < i { SeparatorIsDot(key, a, b, i); }
    if j < b { SeparatorIsDot(key, a, b, j + 1); }
  }

  lemma PartIsWord(s: string, i: nat, j: nat, word: string)
    requires PartAt(s, '.', i, j) && s[i..j] == word && IsPlainWord(word)
    ensures word in Split(s, '.')
  {
    assert '.' !in word;
    var n := PartIsListed(s, '.', i, j);
  }

  lemma WordInTrimmed(key: string, a: nat, b: nat, i: nat, j: nat, word: string)
    requires a <= i < j <= b <= |key| && TrimSpace(key) == key[a..b]
    requires i == a || Separates(key[i - 1])
    requires j == b || Separates(key[j])
    requires IsPlainWord(word) && ReadsAs(key[i..j], word)
    ensures word in Split(Normalized(key), '.')
  {
    hide *;
    NormalizedAt(key, a, b);
    NamedIsPart(key, a, b, i, j);
    ReadsWord(key, a, b, i - a, j - a, word);
    PartIsWord(Normalized(key), i - a, j - a, word);
  }

  lemma MentionedIsListed(key: string, i: nat, j: nat, word: string)
    requires i <= j <= |key| && IsPlainWord(word) && ReadsAs(key[i..j], word) && StartsPart(key, i) && EndsPart(key, j)
    ensures word in Split(Normalized(key), '.')
  {
    hide *;
    var a, b := Trimmed(key);
    WordHasNoBlanks(key, i, j, word);
    InsideTrimmed(key, a, b, i, j);
    WordInTrimmed(key, a, b, i, j, word);
  }

  lemma SecretsArePlain(word: string)
    requires word in SENSITIVE_SEGMENTS
    ensures IsPlainWord(word)
  {
  }

  lemma ExtrasArePlain(word: string)
    requires word in EXTRA_SEGMENTS
    ensures IsPlainWord(word)
  {
  }

  lemma SensitiveByWords(key: string)
    ensures IsSensitive(key) <==> exists word :: word in SENSITIVE_SEGMENTS && Mentions(key, word)
  {
    ExemptListIsIdle(key);
    hide Normalized, Split, Mentions;
    forall word | word in SENSITIVE_SEGMENTS
      ensures word in Split(Normalized(key), '.') <==> Mentions(key, word)
    {
      ListedIffMentioned(key, word);
    }
  }

  /** A span's attribute is held back if and only if one of these names stands by itself in its key. */
  lemma SensitiveIff(key: string)
    ensures IsSensitive(key) <==> exists name :: Mentions(key, name) && name in {
      "authorization", "auth", "cookie", "cookies", "setcookie", "password", "passwd", "secret", "token",
      "accesstoken", "refreshtoken", "apikey", "credential", "credentials", "body", "payload", "form", "stack",
      "stacktrace", "log" }
  {
    SensitiveByWords(key);
    hide IsSensitive, Mentions;
  }

  lemma ListedIffMentioned(key: string, word: string)
    requires word in SENSITIVE_SEGMENTS + EXTRA_SEGMENTS
    ensures word in Split(Normalized(key), '.') <==> Mentions(key, word)
  {
    if word in SENSITIVE_SEGMENTS { SecretsArePlain(word); } else { ExtrasArePlain(word); }
    hide Normalized, Split, IsPlainWord, ReadsAs, StartsPart, EndsPart;
    if word in Split(Normalized(key), '.') { ListedIsMentioned(key, word); }
    if Mentions(key, word) {
      var i, j :| Names(key, i, j, word);
      MentionedIsListed(key, i, j, word);
    }
  }

  /** Of a log's attributes those are held back, too, whose key names an error, an exception or a binding. */
  lemma SensitiveLogIff(key: string)
    ensures IsSensitiveLog(key) <==> IsSensitive(key) || exists name :: Mentions(key, name) && name in {
      "err", "error", "errors", "exception", "exceptions", "binding", "bindings" }
  {
    hide Normalized, Split, Mentions, IsSensitive;
    forall word | word in EXTRA_SEGMENTS
      ensures word in Split(Normalized(key), '.') <==> Mentions(key, word)
    {
      ListedIffMentioned(key, word);
    }
  }
}
