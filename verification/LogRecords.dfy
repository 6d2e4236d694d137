/** What a recorded log carries: bounded, safe keys, earlier attributes first, groups over everything. */
module LogRecords {
  import opened Ascii
  import opened Attributes
  import opened Spans
  import opened LogAttributes

  // ---------- what is kept ----------

  predicate SafeEntry(policy: LogPolicy, e: KeyValue) {
    |e.key| <= MAX_KEY_BYTES && !policy.held(e.key)
  }

  lemma {:induction false} EntriesAreSafe(policy: LogPolicy, leaves: seq<Leaf>)
    ensures forall i :: 0 <= i < |Entries(policy, leaves)| ==> SafeEntry(policy, Entries(policy, leaves)[i])
  {
    if leaves == [] {
    } else {
      EntriesAreSafe(policy, leaves[1..]);
      hide SafeEntry, Converted, KeyOf;
      OneEntryIsSafe(policy, leaves[0]);
    }
  }

  lemma OneEntryIsSafe(policy: LogPolicy, leaf: Leaf)
    ensures forall i :: 0 <= i < |EntryIfAny(policy, leaf)| ==> SafeEntry(policy, EntryIfAny(policy, leaf)[i])
  {
  }

  /** At most 64 attributes are recorded, no key is longer than 256 bytes, and none is one that spans or
      logs hold back. */
  lemma RecordedIsSafe(h: Handler, redact: string -> string, record: seq<Attr>)
    ensures var out := h.Recorded(SdkLogPolicy(redact), record);
      && |out| <= 64
      && forall i :: 0 <= i < |out| ==>
           |out[i].key| <= 256 && !IsSensitiveLog(out[i].key) && !IsSensitive(out[i].key)
  {
    var policy := SdkLogPolicy(redact);
    var out := h.Recorded(policy, record);
    EntriesAreSafe(policy, h.Seen(record));
    hide Normalized, Harmless;
    forall i | 0 <= i < |out|
      ensures |out[i].key| <= 256 && !IsSensitiveLog(out[i].key) && !IsSensitive(out[i].key)
    {
      assert SafeEntry(policy, Entries(policy, h.Seen(record))[i]);
    }
  }

  lemma {:induction false} LeavesOver(groups: seq<string>, a: seq<Attr>, b: seq<Attr>, depth: nat)
    ensures AllLeaves(groups, a + b, depth) == AllLeaves(groups, a, depth) + AllLeaves(groups, b, depth)
  {
    hide Leaves;
    if a == [] {
      assert a + b == b;
    } else {
      var t := a[1..];
      LeavesOver(groups, t, b, depth);
      assert (a + b)[1..] == t + b && (a + b)[0] == a[0];
      var x, y, z := Leaves(groups, a[0], depth), AllLeaves(groups, t, depth), AllLeaves(groups, b, depth);
      assert AllLeaves(groups, a + b, depth) == x + (y + z);
      assert x + (y + z) == (x + y) + z;
    }
  }

  /** Attributes that come first win: more attributes never push out what was recorded without them. */
  lemma EarlierAttributesWin(h: Handler, policy: LogPolicy, record: seq<Attr>, more: seq<Attr>)
    ensures h.Recorded(policy, record) <= h.Recorded(policy, record + more)
  {
    LeavesOver(h.groups, record, more, 0);
    var rest := AllLeaves(h.groups, more, 0);
    assert h.Seen(record + more) == h.Seen(record) + rest;
    EntriesOver(policy, h.Seen(record), rest);
  }

  // ---------- groups ----------

  predicate Under(groups: seq<string>, leaf: Leaf) {
    leaf.Leaf? ==> groups <= leaf.groups
  }

  lemma {:induction false} LeavesUnder(groups: seq<string>, attr: Attr, depth: nat)
    ensures forall i :: 0 <= i < |Leaves(groups, attr, depth)| ==> Under(groups, Leaves(groups, attr, depth)[i])
    decreases attr
  {
    if depth > MAX_GROUP_DEPTH || !attr.value.Group? {
    } else {
      var inner := Inside(groups, attr.key);
      AllLeavesUnder(inner, attr.value.attrs, depth + 1);
      forall i | 0 <= i < |Leaves(groups, attr, depth)| ensures Under(groups, Leaves(groups, attr, depth)[i]) {
        assert Under(inner, Leaves(groups, attr, depth)[i]);
      }
    }
  }

  lemma {:induction false} AllLeavesUnder(groups: seq<string>, attrs: seq<Attr>, depth: nat)
    ensures forall i :: 0 <= i < |AllLeaves(groups, attrs, depth)| ==> Under(groups, AllLeaves(groups, attrs, depth)[i])
    decreases attrs
  {
    if attrs == [] {
    } else {
      LeavesUnder(groups, attrs[0], depth);
      AllLeavesUnder(groups, attrs[1..], depth);
    }
  }

  // ---------- the rule of slog ----------

  /** A call that makes a handler out of another. */
  datatype HandlerCall = AddAttrs(attrs: seq<Attr>) | OpenGroup(name: string)

  function Built(h: Handler, calls: seq<HandlerCall>): Handler
    decreases |calls|
  {
    if calls == [] then h
    else
      match calls[0]
      case AddAttrs(attrs) => Built(h.WithAttrs(attrs), calls[1..])
      case OpenGroup(name) => Built(h.WithGroup(name), calls[1..])
  }

  /** What slog promises of a handler: attributes lie under the groups that were open when they were added. */
  function Promised(groups: seq<string>, calls: seq<HandlerCall>, record: seq<Attr>): seq<Leaf>
    decreases |calls|
  {
    if calls == [] then AllLeaves(groups, record, 0)
    else
      match calls[0]
      case AddAttrs(attrs) => AllLeaves(groups, attrs, 0) + Promised(groups, calls[1..], record)
      case OpenGroup(name) => Promised(Inside(groups, name), calls[1..], record)
  }

  /** The groups that are open in the end. */
  function Opened(groups: seq<string>, calls: seq<HandlerCall>): seq<string>
    decreases |calls|
  {
    if calls == [] then groups
    else
      match calls[0]
      case AddAttrs(_) => Opened(groups, calls[1..])
      case OpenGroup(name) => Opened(Inside(groups, name), calls[1..])
  }

  /** All attributes of the calls and the record, under the same groups. */
  function AllUnder(groups: seq<string>, calls: seq<HandlerCall>, record: seq<Attr>): seq<Leaf>
    decreases |calls|
  {
    if calls == [] then AllLeaves(groups, record, 0)
    else
      match calls[0]
      case AddAttrs(attrs) => AllLeaves(groups, attrs, 0) + AllUnder(groups, calls[1..], record)
      case OpenGroup(_) => AllUnder(groups, calls[1..], record)
  }

  predicate OpensGroup(calls: seq<HandlerCall>) {
    exists i :: 0 <= i < |calls| && calls[i].OpenGroup? && calls[i].name != ""
  }

  /** The attributes have a value that a group would show in the key of. */
  predicate HasValue(attrs: seq<Attr>) {
    exists i :: 0 <= i < |AllLeaves([], attrs, 0)| && AllLeaves([], attrs, 0)[i].Leaf?
  }

  /** No attribute with a value was added before a group was opened. */
  predicate GroupsFirst(calls: seq<HandlerCall>) {
    || calls == []
    || ((calls[0].AddAttrs? && HasValue(calls[0].attrs) ==> !OpensGroup(calls[1..])) && GroupsFirst(calls[1..]))
  }

  function Moved(groups: seq<string>, leaf: Leaf): Leaf {
    match leaf
    case Leaf(inner, key, value) => Leaf(groups + inner, key, value)
    case TooDeep => TooDeep
  }

  function AllMoved(groups: seq<string>, leaves: seq<Leaf>): (r: seq<Leaf>)
    ensures |r| == |leaves| && forall i :: 0 <= i < |r| ==> r[i] == Moved(groups, leaves[i])
  {
    seq(|leaves|, i requires 0 <= i < |leaves| => Moved(groups, leaves[i]))
  }

  lemma MovedOver(groups: seq<string>, a: seq<Leaf>, b: seq<Leaf>)
    ensures AllMoved(groups, a + b) == AllMoved(groups, a) + AllMoved(groups, b)
  {
  }

  lemma MovedTwice(a: seq<string>, b: seq<string>, leaves: seq<Leaf>)
    ensures AllMoved(a, AllMoved(b, leaves)) == AllMoved(a + b, leaves)
  {
    forall i | 0 <= i < |leaves| ensures AllMoved(a, AllMoved(b, leaves))[i] == AllMoved(a + b, leaves)[i] {
      if leaves[i].Leaf? { assert a + (b + leaves[i].groups) == (a + b) + leaves[i].groups; }
    }
  }

  /** Groups around attributes only move their leaves. */
  lemma {:induction false} GroupsMove(groups: seq<string>, attr: Attr, depth: nat)
    ensures Leaves(groups, attr, depth) == AllMoved(groups, Leaves([], attr, depth))
    decreases attr
  {
    if depth > MAX_GROUP_DEPTH {
    } else if !attr.value.Group? {
      assert groups + [] == groups;
    } else {
      var inner := Inside([], attr.key);
      assert Inside(groups, attr.key) == groups + inner;
      AllGroupsMove(groups + inner, attr.value.attrs, depth + 1);
      AllGroupsMove(inner, attr.value.attrs, depth + 1);
      MovedTwice(groups, inner, AllLeaves([], attr.value.attrs, depth + 1));
    }
  }

  lemma {:induction false} AllGroupsMove(groups: seq<string>, attrs: seq<Attr>, depth: nat)
    ensures AllLeaves(groups, attrs, depth) == AllMoved(groups, AllLeaves([], attrs, depth))
    decreases attrs
  {
    if attrs == [] {
    } else {
      hide Leaves;
      GroupsMove(groups, attrs[0], depth);
      AllGroupsMove(groups, attrs[1..], depth);
      MovedOver(groups, Leaves([], attrs[0], depth), AllLeaves([], attrs[1..], depth));
    }
  }

  /** Other groups make other leaves, if there is a value to show them. */
  lemma GroupsShow(a: seq<string>, b: seq<string>, attrs: seq<Attr>)
    ensures |AllLeaves(a, attrs, 0)| == |AllLeaves(b, attrs, 0)|
    ensures AllLeaves(a, attrs, 0) == AllLeaves(b, attrs, 0) <==> a == b || !HasValue(attrs)
  {
    AllGroupsMove(a, attrs, 0);
    AllGroupsMove(b, attrs, 0);
    var leaves := AllLeaves([], attrs, 0);
    hide AllLeaves;
    if HasValue(attrs) {
      var i :| 0 <= i < |leaves| && leaves[i].Leaf?;
      if AllMoved(a, leaves) == AllMoved(b, leaves) {
        assert AllMoved(a, leaves)[i] == AllMoved(b, leaves)[i];
        SameFront(a, b, leaves[i].groups);
      }
    }
  }

  lemma SameFront(a: seq<string>, b: seq<string>, c: seq<string>)
    requires a + c == b + c
    ensures a == b
  {
    assert |a| == |b|;
    assert a == (a + c)[..|a|] && b == (b + c)[..|b|];
  }

  lemma {:induction false} OpenedGrows(groups: seq<string>, calls: seq<HandlerCall>)
    ensures |groups| <= |Opened(groups, calls)|
    ensures Opened(groups, calls) == groups <==> !OpensGroup(calls)
    decreases |calls|
  {
    if calls == [] {
    } else {
      var rest := calls[1..];
      OpensLater(calls);
      match calls[0]
      case AddAttrs(_) => OpenedGrows(groups, rest);
      case OpenGroup(name) => OpenedGrows(Inside(groups, name), rest);
    }
  }

  lemma OpensLater(calls: seq<HandlerCall>)
    requires calls != []
    ensures OpensGroup(calls) <==> (calls[0].OpenGroup? && calls[0].name != "") || OpensGroup(calls[1..])
  {
    if OpensGroup(calls[1..]) {
      var i :| 0 <= i < |calls[1..]| && calls[1..][i].OpenGroup? && calls[1..][i].name != "";
      assert calls[i + 1] == calls[1..][i];
    }
    if OpensGroup(calls) {
      var i :| 0 <= i < |calls| && calls[i].OpenGroup? && calls[i].name != "";
      if i > 0 { assert calls[1..][i - 1] == calls[i]; }
    }
  }

  lemma {:induction false} SameLeavesIff(groups: seq<string>, calls: seq<HandlerCall>, record: seq<Attr>)
    ensures AllUnder(Opened(groups, calls), calls, record) == Promised(groups, calls, record) <==> GroupsFirst(calls)
    decreases |calls|
  {
    hide AllLeaves, HasValue, OpensGroup;
    if calls == [] {
    } else {
      var rest, g := calls[1..], Opened(groups, calls);
      match calls[0]
      case AddAttrs(attrs) =>
        GroupsShow(g, groups, attrs);
        OpenedGrows(groups, rest);
        SameLeavesIff(groups, rest, record);
        SameParts(AllLeaves(g, attrs, 0), AllUnder(g, rest, record),
          AllLeaves(groups, attrs, 0), Promised(groups, rest, record));
      case OpenGroup(name) => SameLeavesIff(Inside(groups, name), rest, record);
    }
  }

  lemma SameParts(a: seq<Leaf>, b: seq<Leaf>, c: seq<Leaf>, d: seq<Leaf>)
    requires |a| == |c|
    ensures a + b == c + d <==> a == c && b == d
  {
    if a + b == c + d {
      assert a == (a + b)[..|a|] && c == (c + d)[..|a|];
      assert b == (a + b)[|a|..] && d == (c + d)[|a|..];
    }
  }

  lemma {:induction false} BuiltIs(h: Handler, calls: seq<HandlerCall>, record: seq<Attr>)
    ensures Built(h, calls).groups == Opened(h.groups, calls)
    ensures var g := Opened(h.groups, calls);
      Built(h, calls).Seen(record) == AllLeaves(g, h.attrs, 0) + AllUnder(g, calls, record)
    decreases |calls|
  {
    hide AllLeaves;
    if calls == [] {
    } else {
      var g := Opened(h.groups, calls);
      match calls[0]
      case AddAttrs(attrs) =>
        BuiltIs(h.WithAttrs(attrs), calls[1..], record);
        LeavesOver(g, h.attrs, attrs, 0);
      case OpenGroup(name) => BuiltIs(h.WithGroup(name), calls[1..], record);
    }
  }

  /** Whatever the order of the calls, all attributes of the handler, of the calls and of the record are recorded
      under all the groups that are open in the end, those added before a group was opened as well. */
  lemma GroupsReachBack(h: Handler, calls: seq<HandlerCall>, record: seq<Attr>)
    ensures var g, seen := Opened(h.groups, calls), Built(h, calls).Seen(record);
      && seen == AllLeaves(g, h.attrs, 0) + AllUnder(g, calls, record)
      && forall i :: 0 <= i < |seen| ==> Under(g, seen[i])
  {
    hide AllLeaves, Under;
    BuiltIs(h, calls, record);
    var b := Built(h, calls);
    AllLeavesUnder(b.groups, b.attrs, 0);
    AllLeavesUnder(b.groups, record, 0);
  }

  /** A handler made by a sequence of calls records what slog promises, whatever the record, if and only if
      no attribute with a value was added before a group was opened. */
  lemma SlogRuleIff(calls: seq<HandlerCall>, record: seq<Attr>)
    ensures Built(Handler([], []), calls).Seen(record) == Promised([], calls, record) <==> GroupsFirst(calls)
  {
    BuiltIs(Handler([], []), calls, record);
    SameLeavesIff([], calls, record);
    NoLeaves(Opened([], calls));
    hide AllUnder, Promised, Opened, Built, GroupsFirst;
  }

  lemma NoLeaves(groups: seq<string>)
    ensures AllLeaves(groups, [], 0) == []
  {
  }

  /** The smallest handler where they differ: a, and then the group g, records g.a instead of a. */
  lemma GroupAfterAttribute()
    ensures var calls := [AddAttrs([Attr("a", Int64(1))]), OpenGroup("g")];
      && !GroupsFirst(calls)
      && Promised([], calls, []) == [Leaf([], "a", Int64(1))]
      && Built(Handler([], []), calls).Seen([]) == [Leaf(["g"], "a", Int64(1))]
  {
    var a := Attr("a", Int64(1));
    var calls := [AddAttrs([a]), OpenGroup("g")];
    assert calls[1..] == [OpenGroup("g")] && [OpenGroup("g")][1..] == [];
    assert AllLeaves([], [a], 0) == [Leaf([], "a", Int64(1))] by { OneLeaf([], a); }
    assert AllLeaves(["g"], [a], 0) == [Leaf(["g"], "a", Int64(1))] by { OneLeaf(["g"], a); }
    assert Handler([], []).WithAttrs([a]).WithGroup("g") == Handler([a], ["g"]);
    assert AllLeaves([], [a], 0)[0].Leaf?;
    assert [OpenGroup("g")][0].name != "";
  }

  lemma OneLeaf(groups: seq<string>, a: Attr)
    requires !a.value.Group?
    ensures AllLeaves(groups, [a], 0) == [Leaf(groups, a.key, a.value)]
  {
    assert [a][1..] == [];
  }

  /** An attribute inside groups, the outermost first. */
  function Nested(names: seq<string>, attr: Attr): Attr {
    if names == [] then attr else Attr(names[0], Group([Nested(names[1..], attr)]))
  }

  function InsideAll(groups: seq<string>, names: seq<string>): seq<string>
    decreases |names|
  {
    if names == [] then groups else InsideAll(Inside(groups, names[0]), names[1..])
  }

  /** Eight groups around a value are looked through, nine are one dropped subtree; groups without a name
      count for the depth but not for the key. */
  lemma {:induction false} DepthLimit(groups: seq<string>, names: seq<string>, attr: Attr, depth: nat)
    requires !attr.value.Group? && depth <= 8
    ensures Leaves(groups, Nested(names, attr), depth)
         == if depth + |names| <= 8 then [Leaf(InsideAll(groups, names), attr.key, attr.value)]
            else [TooDeep]
    decreases |names|
  {
    if names == [] {
    } else {
      var inner := Inside(groups, names[0]);
      var child := Nested(names[1..], attr);
      assert AllLeaves(inner, [child], depth + 1) == Leaves(inner, child, depth + 1);
      if depth < 8 { DepthLimit(inner, names[1..], attr, depth + 1); }
    }
  }

  // ---------- a group with a secret's name ----------

  /** One word, without blanks and separators. */
  predicate IsName(n: string) {
    n != "" && forall i :: 0 <= i < |n| ==> !IsSpace(n[i]) && n[i] != '.' && n[i] != '-' && n[i] != '_'
  }

  /** Text in front of a word, and behind it, that a separator keeps apart. */
  predicate Before(a: string) { a == "" || a[|a| - 1] == '.' }

  predicate Behind(b: string) { b == "" || b[0] == '.' }

  lemma SegmentFirst(n: string, b: string)
    requires Behind(b) && '.' !in n
    ensures Split(n + b, '.')[0] == n
  {
    hide Split;
    if b == "" {
      SplitWord(n, "", '.');
      assert n + b == n;
    } else {
      SplitWord(n, b[1..], '.');
      assert n + b == n + ['.'] + b[1..];
    }
  }

  lemma SplitStep(c: char, t: string, sep: char)
    ensures Split([c] + t, sep)
         == if c == sep then [""] + Split(t, sep) else [[c] + Split(t, sep)[0]] + Split(t, sep)[1..]
  {
    assert ([c] + t)[1..] == t;
  }

  lemma {:induction false} SplitAt(a: string, t: string, sep: char)
    ensures Split(a + ([sep] + t), sep) == Split(a, sep) + Split(t, sep)
  {
    hide Split;
    if a == "" {
      SplitStep(sep, t, sep);
      SplitWord("", "", sep);
      assert a + ([sep] + t) == [sep] + t;
    } else {
      SplitAt(a[1..], t, sep);
      SplitStep(a[0], a[1..] + ([sep] + t), sep);
      SplitStep(a[0], a[1..], sep);
      assert a + ([sep] + t) == [a[0]] + (a[1..] + ([sep] + t)) && a == [a[0]] + a[1..];
      FirstJoined(a[0], Split(a[1..], sep), Split(t, sep));
    }
  }

  lemma FirstJoined(c: char, x: seq<string>, y: seq<string>)
    requires x != []
    ensures [[c] + (x + y)[0]] + (x + y)[1..] == ([[c] + x[0]] + x[1..]) + y
    ensures [""] + (x + y) == ([""] + x) + y
  {
  }

  lemma SegmentThere(a: string, n: string, b: string)
    requires Before(a) && Behind(b) && '.' !in n
    ensures n in Split(a + (n + b), '.')
  {
    hide Split;
    SegmentFirst(n, b);
    var s := Split(n + b, '.');
    assert s[0] == n;
    if a == "" {
      assert a + (n + b) == n + b;
    } else {
      var front := a[..|a| - 1];
      SplitAt(front, n + b, '.');
      assert a + (n + b) == front + (['.'] + (n + b));
      assert (Split(front, '.') + s)[|Split(front, '.')|] == n;
    }
  }

  lemma TrimmedEdges(a: string, b: string)
    requires Before(a) && Behind(b)
    ensures Before(TrimLeft(a)) && Behind(TrimRight(b))
  {
    hide TrimLeft, TrimRight;
    TrimLeftCuts(a);
    TrimRightCuts(b);
  }

  lemma TrimAround(a: string, n: string, b: string)
    requires IsName(n)
    ensures TrimSpace(a + n + b) == TrimLeft(a) + (n + TrimRight(b))
  {
    hide TrimLeft, TrimRight, IsSpace;
    assert !IsSpace(n[0]) && !IsSpace(n[|n| - 1]);
    hide IsName;
    assert a + n + b == a + (n + b);
    TrimLeftUpTo(a, n + b);
    TrimWordRight(TrimLeft(a), n, b);
  }

  lemma TrimWordRight(x: string, n: string, b: string)
    requires n != "" && !IsSpace(n[|n| - 1])
    ensures TrimRight(x + (n + b)) == x + (n + TrimRight(b))
  {
    hide *;
    assert x + (n + b) == (x + n) + b;
    assert (x + n)[|x + n| - 1] == n[|n| - 1];
    TrimRightDownTo(x + n, b);
    assert (x + n) + TrimRight(b) == x + (n + TrimRight(b));
  }

  lemma DottedThrough(a: string, n: string, b: string)
    requires Before(a) && Behind(b) && IsName(n)
    ensures Dotted(ToLower(a + (n + b))) == Dotted(ToLower(a)) + (ToLower(n) + Dotted(ToLower(b)))
    ensures Before(Dotted(ToLower(a))) && Behind(Dotted(ToLower(b))) && '.' !in ToLower(n)
  {
    hide Dotted, ToLower;
    assert forall i :: 0 <= i < |n| ==> ToLower(n)[i] == Lower(n[i]);
  }

  lemma NormalizedPart(a: string, n: string, b: string)
    requires Before(a) && Behind(b) && IsName(n)
    ensures ToLower(n) in Split(Normalized(a + n + b), '.')
  {
    hide Dotted, ToLower, TrimSpace, TrimLeft, TrimRight, Split, IsName, Before, Behind;
    TrimAround(a, n, b);
    TrimmedEdges(a, b);
    DottedThrough(TrimLeft(a), n, TrimRight(b));
    SegmentThere(Dotted(ToLower(TrimLeft(a))), ToLower(n), Dotted(ToLower(TrimRight(b))));
  }

  lemma {:induction false} JoinAround(parts: seq<string>, k: nat) returns (a: string, b: string)
    requires k < |parts|
    ensures Before(a) && Behind(b) && Join(parts, ".") == a + parts[k] + b
  {
    if |parts| == 1 {
      a, b := "", "";
    } else if k == 0 {
      a, b := "", "." + Join(parts[1..], ".");
    } else {
      a, b := JoinAround(parts[1..], k - 1);
      a := parts[0] + "." + a;
    }
  }

  predicate IsSecret(n: string) {
    IsName(n) && (ToLower(n) in SENSITIVE_SEGMENTS || ToLower(n) in EXTRA_SEGMENTS)
  }

  lemma SecretPartHeld(parts: seq<string>, k: nat)
    requires k < |parts| && IsSecret(parts[k])
    ensures IsSensitiveLog(Join(parts, "."))
  {
    hide Normalized;
    var a, b := JoinAround(parts, k);
    NormalizedPart(a, parts[k], b);
    ExemptListIsIdle(Join(parts, "."));
  }

  /** A group or a key with a secret's name, in any case and at any depth, keeps all below it from being
      recorded. */
  lemma SecretGroupHidesAll(redact: string -> string, leaf: Leaf, k: nat)
    requires leaf.Leaf? && k <= |leaf.groups|
    requires IsSecret((leaf.groups + [leaf.key])[k])
    ensures !Admissible(SdkLogPolicy(redact), leaf)
  {
    SecretPartHeld(leaf.groups + [leaf.key], k);
    hide IsSensitiveLog, IsSecret, Converted;
  }
}
