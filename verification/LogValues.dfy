/** Which values a recorded log carries: the leaves that may be logged, in order, each with its path and its value. */
module LogValues {
  import opened Prelude
  import opened Ascii
  import opened LogText
  import opened Spans
  import opened LogAttributes

  // ---------- what may be logged ----------

  /** The names of the groups and the key, with dots between them. */
  function Path(groups: seq<string>, key: string): string {
    if groups == [] then key else groups[0] + "." + Path(groups[1..], key)
  }

  /** A value with a key that is neither too long nor held back, of a kind that is let through. */
  predicate Loggable(policy: LogPolicy, leaf: Leaf) {
    && leaf.Leaf? && leaf.key != ""
    && |Path(leaf.groups, leaf.key)| <= 256 && !policy.held(Path(leaf.groups, leaf.key))
    && !leaf.value.Group? && !leaf.value.Other?
  }

  function Loggables(policy: LogPolicy, leaves: seq<Leaf>): (r: seq<Leaf>)
    ensures forall i :: 0 <= i < |r| ==> Loggable(policy, r[i])
  {
    if leaves == [] then []
    else (if Loggable(policy, leaves[0]) then [leaves[0]] else []) + Loggables(policy, leaves[1..])
  }

  // ---------- what is shown of a value ----------

  predicate IsDecimal(s: string) {
    s != "" && (forall i :: 0 <= i < |s| ==> IsDigit(s[i])) && (|s| > 1 ==> s[0] != '0')
  }

  function DecimalValue(s: string): nat
    requires forall i :: 0 <= i < |s| ==> IsDigit(s[i])
  {
    if s == "" then 0
    else
      assert IsDigit(s[|s| - 1]);
      DecimalValue(s[..|s| - 1]) * 10 + (s[|s| - 1] as int - '0' as int)
  }

  /** Texts without their secrets and cut, numbers and flags as they are, an unsigned number beyond int64 in digits. */
  ghost predicate Shows(policy: LogPolicy, v: Value, out: AnyValue) {
    match v
    case Text(s) => out.StringValue? && IsCut(policy.redact(s), 2048, out.text)
    case AnyText(s) => out.StringValue? && IsCut(policy.redact(s), 2048, out.text)
    case Flag(b) => out == BoolValue(b)
    case Int64(n) => out == IntValue(n)
    case Duration(n) => out == IntValue(n)
    case AnyDuration(n) => out == IntValue(n)
    case Float(x) => out == DoubleValue(x)
    case Time(s) => out == StringValue(s)
    case AnyTime(s) => out == StringValue(s)
    case Uint64(n) =>
      if n < 0x8000_0000_0000_0000 then out == IntValue(n)
      else out.StringValue? && IsDecimal(out.text) && DecimalValue(out.text) == n
    case Group(_) => false
    case Other => false
  }

  lemma {:induction false} DigitsAreDecimal(n: nat)
    ensures IsDecimal(Digits(n)) && DecimalValue(Digits(n)) == n
    ensures n > 0 ==> Digits(n)[0] != '0'
  {
    if n < 10 {
      assert Digits(n)[..0] == "";
    } else {
      var s := Digits(n);
      DigitsAreDecimal(n / 10);
      assert s[..|s| - 1] == Digits(n / 10);
    }
  }

  lemma ConvertedShows(policy: LogPolicy, v: Value)
    ensures Converted(policy, v).None? <==> v.Group? || v.Other?
    ensures Converted(policy, v).Some? ==> Shows(policy, v, Converted(policy, v).value)
  {
    hide IsCut, IsDecimal, DecimalValue, Digits, Truncated;
    match v
    case Text(s) => TruncatedIsCut(policy.redact(s), 2048);
    case AnyText(s) => TruncatedIsCut(policy.redact(s), 2048);
    case Uint64(n) => DigitsAreDecimal(n);
    case _ =>
  }

  lemma {:induction false} KeyIsPath(groups: seq<string>, key: string)
    ensures KeyOf(groups, key) == Path(groups, key)
  {
    if groups == [] {
      assert groups + [key] == [key];
    } else {
      KeyIsPath(groups[1..], key);
      assert (groups + [key])[1..] == groups[1..] + [key];
    }
  }

  lemma OneEntry(policy: LogPolicy, leaf: Leaf)
    ensures Admissible(policy, leaf) <==> Loggable(policy, leaf)
    ensures Admissible(policy, leaf) ==>
              && Entry(policy, leaf).key == Path(leaf.groups, leaf.key)
              && Shows(policy, leaf.value, Entry(policy, leaf).value)
  {
    hide Shows, Converted, KeyOf, Path;
    if leaf.Leaf? {
      KeyIsPath(leaf.groups, leaf.key);
      ConvertedShows(policy, leaf.value);
    }
  }

  /** Each entry shows its leaf. */
  ghost predicate ShowsAll(policy: LogPolicy, leaves: seq<Leaf>, out: seq<KeyValue>) {
    |out| <= |leaves| && forall i :: 0 <= i < |out| ==> ShowsLeaf(policy, leaves[i], out[i])
  }

  ghost predicate ShowsLeaf(policy: LogPolicy, leaf: Leaf, e: KeyValue) {
    leaf.Leaf? && e.key == Path(leaf.groups, leaf.key) && Shows(policy, leaf.value, e.value)
  }

  lemma {:induction false} EntriesShow(policy: LogPolicy, leaves: seq<Leaf>)
    ensures |Entries(policy, leaves)| == |Loggables(policy, leaves)|
    ensures ShowsAll(policy, Loggables(policy, leaves), Entries(policy, leaves))
  {
    hide Admissible, Loggable, Entry, ShowsLeaf;
    if leaves == [] {
    } else {
      EntriesShow(policy, leaves[1..]);
      FirstEntry(policy, leaves[0]);
    }
  }

  lemma FirstEntry(policy: LogPolicy, leaf: Leaf)
    ensures Admissible(policy, leaf) <==> Loggable(policy, leaf)
    ensures Admissible(policy, leaf) ==> ShowsLeaf(policy, leaf, Entry(policy, leaf))
  {
    hide Shows, Entry, Path, Converted, KeyOf;
    OneEntry(policy, leaf);
  }

  /** A record carries the first 64 values that may be logged, of the handler's attributes and then of its own, in
      the order in which they are met, each under its path and with what is shown of it; nothing else. */
  lemma RecordedValues(h: Handler, policy: LogPolicy, record: seq<Attr>)
    ensures var leaves, out := Loggables(policy, h.Seen(record)), h.Recorded(policy, record);
      && |out| == (if |leaves| < 64 then |leaves| else 64)
      && forall i :: 0 <= i < |out| ==>
           out[i].key == Path(leaves[i].groups, leaves[i].key) && Shows(policy, leaves[i].value, out[i].value)
  {
    hide Loggables, Shows, Path, Entries;
    EntriesShow(policy, h.Seen(record));
    var leaves, out := Loggables(policy, h.Seen(record)), h.Recorded(policy, record);
    forall i | 0 <= i < |out| ensures ShowsLeaf(policy, leaves[i], out[i]) {
      assert out[i] == Entries(policy, h.Seen(record))[i];
    }
  }
}
