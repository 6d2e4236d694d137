/** Flattening a log record's attributes (logs.go). */
module LogAttributes {
  import opened Prelude
  import opened Ascii
  import opened Attributes
  import opened LogText
  import opened Spans

  const MAX_ATTRIBUTES := 64
  const MAX_GROUP_DEPTH := 8
  const MAX_KEY_BYTES := 256
  const MAX_INT64 := 0x7FFF_FFFF_FFFF_FFFF

  // ---------- attributes ----------

  /** A resolved slog.Value; a time is the text it is printed as. `AnyText`, `AnyTime` and `AnyDuration` are
      the contents of a value of kind Any that are let through, `Other` is everything else. */
  datatype Value =
    | Group(attrs: seq<Attr>)
    | Text(text: string)
    | Flag(flag: bool)
    | Int64(number: int)
    | Uint64(size: nat)
    | Float(quantity: real)
    | Duration(nanos: int)
    | Time(printed: string)
    | AnyText(anyText: string)
    | AnyTime(anyPrinted: string)
    | AnyDuration(anyNanos: int)
    | Other

  datatype Attr = Attr(key: string, value: Value)

  const EXTRA_SEGMENTS: set<string> := {
    "err", "error", "errors", "exception", "exceptions", "binding", "bindings" }

  /** isSensitiveLogAttributeKey */
  predicate IsSensitiveLog(key: string) {
    || IsSensitive(key)
    || exists i :: 0 <= i < |Split(Normalized(key), '.')| && Split(Normalized(key), '.')[i] in EXTRA_SEGMENTS
  }

  function Digits(n: nat): string {
    if n < 10 then [('0' as int + n) as char] else Digits(n / 10) + [('0' as int + n % 10) as char]
  }

  /** What a handler applies to keys and texts: which keys it holds back, and what it takes out of a text. */
  datatype LogPolicy = LogPolicy(held: string -> bool, redact: string -> string)

  function SdkLogPolicy(redact: string -> string): (r: LogPolicy)
    ensures r.redact == redact
  {
    LogPolicy(key => IsSensitiveLog(key), redact)
  }

  /** The body of a record. */
  function Body(policy: LogPolicy, message: string): (r: string)
    ensures IsCut(policy.redact(message), 8192, r)
  {
    TruncatedIsCut(policy.redact(message), MAX_BODY_BYTES);
    Truncated(policy.redact(message), MAX_BODY_BYTES)
  }

  /** logAnyValue */
  function Converted(policy: LogPolicy, v: Value): Option<AnyValue> {
    match v
    case Text(s) => Some(StringValue(Truncated(policy.redact(s), MAX_ATTR_BYTES)))
    case Flag(b) => Some(BoolValue(b))
    case Int64(n) => Some(IntValue(n))
    case Uint64(n) => Some(if n <= MAX_INT64 then IntValue(n) else StringValue(Digits(n)))
    case Float(x) => Some(DoubleValue(x))
    case Duration(n) => Some(IntValue(n))
    case Time(s) => Some(StringValue(s))
    case AnyText(s) => Some(StringValue(Truncated(policy.redact(s), MAX_ATTR_BYTES)))
    case AnyTime(s) => Some(StringValue(s))
    case AnyDuration(n) => Some(IntValue(n))
    case Group(_) => None
    case Other => None
  }

  // ---------- the pure form ----------

  /** What the depth-first walk meets: a value with the groups around it, or a subtree that lies too deep. */
  datatype Leaf = Leaf(groups: seq<string>, key: string, value: Value) | TooDeep

  function Inside(groups: seq<string>, key: string): seq<string> {
    if key == "" then groups else groups + [key]
  }

  function Leaves(groups: seq<string>, attr: Attr, depth: nat): seq<Leaf>
    decreases attr
  {
    if depth > MAX_GROUP_DEPTH then [TooDeep]
    else if attr.value.Group? then AllLeaves(Inside(groups, attr.key), attr.value.attrs, depth + 1)
    else [Leaf(groups, attr.key, attr.value)]
  }

  function AllLeaves(groups: seq<string>, attrs: seq<Attr>, depth: nat): seq<Leaf>
    decreases attrs
  {
    if attrs == [] then [] else Leaves(groups, attrs[0], depth) + AllLeaves(groups, attrs[1..], depth)
  }

  lemma LeavesFrom(groups: seq<string>, attrs: seq<Attr>, i: nat, depth: nat)
    requires i < |attrs|
    ensures AllLeaves(groups, attrs[i..], depth)
         == Leaves(groups, attrs[i], depth) + AllLeaves(groups, attrs[i + 1..], depth)
  {
    assert attrs[i..][1..] == attrs[i + 1..];
  }

  function KeyOf(groups: seq<string>, key: string): string {
    Join(groups + [key], ".")
  }

  predicate Admissible(policy: LogPolicy, leaf: Leaf) {
    && leaf.Leaf?
    && leaf.key != ""
    && |KeyOf(leaf.groups, leaf.key)| <= MAX_KEY_BYTES
    && !policy.held(KeyOf(leaf.groups, leaf.key))
    && Converted(policy, leaf.value).Some?
  }

  function Entry(policy: LogPolicy, leaf: Leaf): KeyValue
    requires Admissible(policy, leaf)
  {
    KeyValue(KeyOf(leaf.groups, leaf.key), Converted(policy, leaf.value).value)
  }

  /** The entries of the admissible leaves. */
  function Entries(policy: LogPolicy, leaves: seq<Leaf>): (r: seq<KeyValue>)
    ensures |r| <= |leaves|
  {
    if leaves == [] then [] else EntryIfAny(policy, leaves[0]) + Entries(policy, leaves[1..])
  }

  function EntryIfAny(policy: LogPolicy, leaf: Leaf): (r: seq<KeyValue>)
    ensures |r| <= 1
  {
    if Admissible(policy, leaf) then [Entry(policy, leaf)] else []
  }

  function First(n: nat, s: seq<KeyValue>): (r: seq<KeyValue>)
    ensures r <= s && |r| <= n
  {
    if |s| <= n then s else s[..n]
  }

  lemma {:induction false} EntriesOver(policy: LogPolicy, a: seq<Leaf>, b: seq<Leaf>)
    ensures Entries(policy, a + b) == Entries(policy, a) + Entries(policy, b)
  {
    hide EntryIfAny;
    if a == [] {
      assert a + b == b;
    } else {
      var t := a[1..];
      EntriesOver(policy, t, b);
      assert (a + b)[1..] == t + b && (a + b)[0] == a[0];
      var x, y, z := EntryIfAny(policy, a[0]), Entries(policy, t), Entries(policy, b);
      assert Entries(policy, a + b) == x + (y + z);
      assert x + (y + z) == (x + y) + z;
    }
  }

  // ---------- appendLogAttr and recordAttributes ----------

  class Collector {
    const policy: LogPolicy
    var out: seq<KeyValue>
    var dropped: nat
    /** All leaves seen so far. */
    ghost var seen: seq<Leaf>

    /** The entries are the first admissible leaves seen, and every other leaf is counted. */
    ghost predicate Valid()
      reads `out, `dropped, `seen
    {
      && out == First(MAX_ATTRIBUTES, Entries(policy, seen))
      && |out| + dropped == |seen|
    }

    constructor (policy: LogPolicy)
      ensures Valid() && this.policy == policy && seen == [] && out == [] && dropped == 0
    {
      this.policy := policy;
      out := [];
      dropped := 0;
      seen := [];
    }

    method Drop(ghost leaf: Leaf)
      requires Valid() && (!Admissible(policy, leaf) || |out| >= MAX_ATTRIBUTES)
      modifies `dropped, `seen
      ensures Valid() && seen == old(seen) + [leaf]
    {
      EntriesOver(policy, seen, [leaf]);
      dropped := dropped + 1;
      seen := seen + [leaf];
    }

    method Keep(key: string, value: AnyValue, ghost leaf: Leaf)
      requires Valid() && Admissible(policy, leaf) && |out| < MAX_ATTRIBUTES
      requires KeyValue(key, value) == Entry(policy, leaf)
      modifies `out, `seen
      ensures Valid() && seen == old(seen) + [leaf]
    {
      EntriesOver(policy, seen, [leaf]);
      out := out + [KeyValue(key, value)];
      seen := seen + [leaf];
    }

    method Append(groups: seq<string>, attr: Attr, depth: nat)
      requires Valid()
      modifies `out, `dropped, `seen
      ensures Valid() && seen == old(seen) + Leaves(groups, attr, depth)
      decreases attr
    {
      if depth > MAX_GROUP_DEPTH {
        Drop(TooDeep);
        return;
      }
      if attr.value.Group? {
        var nextGroups := Inside(groups, attr.key);
        var i := 0;
        while i < |attr.value.attrs|
          invariant i <= |attr.value.attrs| && Valid()
          invariant seen + AllLeaves(nextGroups, attr.value.attrs[i..], depth + 1)
                 == old(seen) + Leaves(groups, attr, depth)
        {
          LeavesFrom(nextGroups, attr.value.attrs, i, depth + 1);
          Append(nextGroups, attr.value.attrs[i], depth + 1);
          i := i + 1;
        }
        return;
      }
      AppendValue(groups, attr);
    }

    method AppendAll(groups: seq<string>, attrs: seq<Attr>)
      requires Valid()
      modifies `out, `dropped, `seen
      ensures Valid() && seen == old(seen) + AllLeaves(groups, attrs, 0)
    {
      for i := 0 to |attrs|
        invariant Valid() && seen + AllLeaves(groups, attrs[i..], 0) == old(seen) + AllLeaves(groups, attrs, 0)
      {
        LeavesFrom(groups, attrs, i, 0);
        Append(groups, attrs[i], 0);
      }
    }

    method AppendValue(groups: seq<string>, attr: Attr)
      requires Valid() && !attr.value.Group?
      modifies `out, `dropped, `seen
      ensures Valid() && seen == old(seen) + [Leaf(groups, attr.key, attr.value)]
    {
      ghost var leaf := Leaf(groups, attr.key, attr.value);
      if attr.key == "" || |out| >= MAX_ATTRIBUTES {
        Drop(leaf);
        return;
      }
      var key := Join(groups + [attr.key], ".");
      if |key| > MAX_KEY_BYTES || policy.held(key) {
        Drop(leaf);
        return;
      }
      var converted := Converted(policy, attr.value);
      if converted.None? {
        Drop(leaf);
        return;
      }
      Keep(key, converted.value, leaf);
    }
  }

  // ---------- slog handlers ----------

  /** The part of a SlogHandler that attributes depend on. A handler is never changed, only cloned. */
  datatype Handler = Handler(attrs: seq<Attr>, groups: seq<string>) {

    function WithAttrs(more: seq<Attr>): Handler {
      Handler(attrs + more, groups)
    }

    function WithGroup(name: string): Handler {
      if name == "" then this else Handler(attrs, groups + [name])
    }

    /** The leaves of a record: the handler's attributes first, all under its present groups. */
    function Seen(record: seq<Attr>): seq<Leaf> {
      AllLeaves(groups, attrs, 0) + AllLeaves(groups, record, 0)
    }

    function Recorded(policy: LogPolicy, record: seq<Attr>): seq<KeyValue> {
      First(MAX_ATTRIBUTES, Entries(policy, Seen(record)))
    }

    method RecordAttributes(policy: LogPolicy, record: seq<Attr>) returns (out: seq<KeyValue>, dropped: nat)
      ensures out == Recorded(policy, record)
      ensures |out| + dropped == |Seen(record)|
    {
      var c := new Collector(policy);
      c.AppendAll(groups, attrs);
      c.AppendAll(groups, record);
      out, dropped := c.out, c.dropped;
      assert c.seen == Seen(record);
    }
  }
}
