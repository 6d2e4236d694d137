/** Which attribute keys may never enter a span (restlytics.go). */
module Attributes {
  import opened Ascii

  const SENSITIVE_SEGMENTS: set<string> := {
    "authorization", "auth", "cookie", "cookies", "setcookie", "password", "passwd", "secret",
    "token", "accesstoken", "refreshtoken", "apikey", "credential", "credentials", "body", "payload",
    "form", "stack", "stacktrace", "log" }

  const EXEMPT_KEYS: set<string> := {
    "http" + "." + ("request" + "." + "method"),
    "http" + "." + ("response" + "." + ("status" + "." + "code")),
    "restlytics" + "." + ("bindings" + "." + "count") }

  /** strings.NewReplacer("-", ".", "_", "."). */
  function Dotted(s: string): (r: string)
    ensures |r| == |s|
    ensures forall i :: 0 <= i < |s| ==> r[i] == if s[i] == '-' || s[i] == '_' then '.' else s[i]
  {
    if s == [] then []
    else [if s[0] == '-' || s[0] == '_' then '.' else s[0]] + Dotted(s[1..])
  }

  function Normalized(key: string): string {
    Dotted(ToLower(TrimSpace(key)))
  }

  predicate Harmless(segments: seq<string>) {
    forall i :: 0 <= i < |segments| ==> segments[i] !in SENSITIVE_SEGMENTS
  }

  /** IsSensitiveAttributeKey */
  predicate IsSensitive(key: string) {
    Normalized(key) !in EXEMPT_KEYS && !Harmless(Split(Normalized(key), '.'))
  }

  lemma ThreeWords(a: string, b: string, c: string)
    requires '.' !in a && '.' !in b && '.' !in c
    requires a !in SENSITIVE_SEGMENTS && b !in SENSITIVE_SEGMENTS && c !in SENSITIVE_SEGMENTS
    ensures Harmless(Split(a + "." + (b + "." + c), '.'))
  {
    HarmlessLast(c);
    HarmlessWord(b, c);
    HarmlessWord(a, b + "." + c);
  }

  lemma MethodKeyHarmless()
    ensures Harmless(Split("http" + "." + ("request" + "." + "method"), '.'))
  {
    ThreeWords("http", "request", "method");
  }

  lemma StatusKeyHarmless()
    ensures Harmless(Split("http" + "." + ("response" + "." + ("status" + "." + "code")), '.'))
  {
    FourWords("http", "response", "status", "code");
  }

  lemma BindingsKeyHarmless()
    ensures Harmless(Split("restlytics" + "." + ("bindings" + "." + "count"), '.'))
  {
    ThreeWords("restlytics", "bindings", "count");
  }

  lemma ExemptKeyHarmless(key: string)
    requires key in EXEMPT_KEYS
    ensures Harmless(Split(key, '.'))
  {
    hide Split, Harmless;
    MethodKeyHarmless();
    StatusKeyHarmless();
    BindingsKeyHarmless();
  }

  /** The keys that are let through by name have no sensitive segment, so the list decides nothing. */
  lemma {:induction false} ExemptListIsIdle(key: string)
    ensures IsSensitive(key) <==> !Harmless(Split(Normalized(key), '.'))
  {
    hide Normalized, Harmless, Split;
    if Normalized(key) in EXEMPT_KEYS { ExemptKeyHarmless(Normalized(key)); }
  }

  // ---------- the SDK's own keys ----------

  const CATEGORY := "restlytics" + "." + "category"

  const DB_QUERY_COUNT := "restlytics" + "." + ("db" + "_" + ("query" + "_" + "count"))

  /** The categories that have a self-time of their own. */
  const CATEGORIES: set<string> := { "db", "http", "cache", "queue", "app" }

  /** The key of a category's self-time on the root span. */
  function SelfKey(category: string): string {
    "restlytics.self_ns." + category
  }

  /** Lower-case text without blanks, which trimming and lowering leave alone. */
  predicate Plain(s: string) {
    forall i :: 0 <= i < |s| ==> 'a' <= s[i] <= 'z' || s[i] == '.' || s[i] == '_'
  }

  lemma PlainStays(s: string)
    requires Plain(s)
    ensures Normalized(s) == Dotted(s)
  {
    hide ToLower, TrimSpace, Plain;
    PlainTrimmed(s);
    PlainLowered(s);
  }

  lemma PlainTrimmed(s: string)
    requires Plain(s)
    ensures TrimSpace(s) == s
  {
    if s != [] {
      assert !IsSpace(s[0]) && !IsSpace(s[|s| - 1]);
      hide IsSpace, Plain;
      assert TrimLeft(s) == s;
      assert TrimRight(s) == s;
    }
  }

  lemma PlainLowered(s: string)
    requires Plain(s)
    ensures ToLower(s) == s
  {
    hide ToLower;
    assert forall i :: 0 <= i < |s| ==> ToLower(s)[i] == s[i];
  }

  /** A harmless first segment leaves the question to the rest of the key. */
  lemma HarmlessWord(w: string, rest: string)
    requires '.' !in w && w !in SENSITIVE_SEGMENTS && Harmless(Split(rest, '.'))
    ensures Harmless(Split(w + "." + rest, '.'))
  {
    SplitWord(w, rest, '.');
    assert w + ['.'] + rest == w + "." + rest;
  }

  lemma HarmlessLast(w: string)
    requires '.' !in w && w !in SENSITIVE_SEGMENTS
    ensures Harmless(Split(w, '.'))
  {
    SplitWord(w, [], '.');
  }

  lemma DottedIs(s: string, t: string)
    requires |s| == |t| && forall i :: 0 <= i < |s| ==> t[i] == if s[i] == '-' || s[i] == '_' then '.' else s[i]
    ensures Dotted(s) == t
  {
  }

  /** A plain key is harmless when its dotted form is made of harmless words. */
  lemma HarmlessKey(key: string)
    requires Plain(key) && Harmless(Split(Dotted(key), '.'))
    ensures !IsSensitive(key)
  {
    PlainStays(key);
  }

  lemma FourWords(a: string, b: string, c: string, d: string)
    requires '.' !in a && '.' !in b && '.' !in c && '.' !in d
    requires a !in SENSITIVE_SEGMENTS && b !in SENSITIVE_SEGMENTS
    requires c !in SENSITIVE_SEGMENTS && d !in SENSITIVE_SEGMENTS
    ensures Harmless(Split(a + "." + (b + "." + (c + "." + d)), '.'))
    ensures Harmless(Split(a + "." + b, '.'))
  {
    HarmlessLast(d);
    HarmlessWord(c, d);
    HarmlessWord(b, c + "." + d);
    HarmlessWord(a, b + "." + (c + "." + d));
    HarmlessLast(b);
    HarmlessWord(a, b);
  }

  lemma SelfKeyWords(category: string)
    requires '.' !in category && category !in SENSITIVE_SEGMENTS
    ensures Harmless(Split("restlytics" + "." + ("self" + "." + ("ns" + "." + category)), '.'))
  {
    OwnName("restlytics");
    OwnName("self");
    OwnName("ns");
    hide *;
    FourWords("restlytics", "self", "ns", category);
  }

  lemma OwnName(name: string)
    requires name in {"restlytics", "self", "ns"}
    ensures '.' !in name && name !in SENSITIVE_SEGMENTS
  {
  }

  lemma SelfKeyDotted(category: string)
    requires Plain(category) && '_' !in category
    ensures Plain(SelfKey(category))
    ensures Dotted(SelfKey(category)) == "restlytics" + "." + ("self" + "." + ("ns" + "." + category))
  {
    hide Dotted;
    DottedIs(SelfKey(category), "restlytics" + "." + ("self" + "." + ("ns" + "." + category)));
  }

  lemma SelfKeyHarmless(category: string)
    requires Plain(category) && '.' !in category && '_' !in category && category !in SENSITIVE_SEGMENTS
    ensures !IsSensitive(SelfKey(category))
  {
    hide IsSensitive, Harmless, Split, Dotted, SelfKey, Plain;
    SelfKeyWords(category);
    SelfKeyDotted(category);
    HarmlessKey(SelfKey(category));
  }

  lemma TwoWordKey(a: string, b: string)
    requires Plain(a) && Plain(b) && '.' !in a && '.' !in b && '_' !in a && '_' !in b
    requires a !in SENSITIVE_SEGMENTS && b !in SENSITIVE_SEGMENTS
    ensures !IsSensitive(a + "." + b)
  {
    FourWords(a, b, a, b);
    DottedIs(a + "." + b, a + "." + b);
    HarmlessKey(a + "." + b);
  }

  /** The keys under which the SDK reads and stamps self-times are never held back. */
  lemma CategoryPasses()
    ensures !IsSensitive(CATEGORY)
  {
    TwoWordKey("restlytics", "category");
  }

  lemma SelfKeyPasses(category: string)
    requires category in CATEGORIES
    ensures !IsSensitive(SelfKey(category))
  {
    SelfKeyHarmless(category);
  }

  lemma SelfKeysDiffer(a: string, b: string)
    requires a != b
    ensures SelfKey(a) != SelfKey(b) && SelfKey(a) != CATEGORY
  {
    assert SelfKey(a)[19..] == a && SelfKey(b)[19..] == b;
    assert SelfKey(a)[11] == 's' && CATEGORY[11] == 'c';
  }
}
