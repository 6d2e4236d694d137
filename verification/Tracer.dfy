/** The state of one request (tracer.go): its head decision, its bounded buffer of child spans, and what
    Finish makes of them. */
module Tracing {
  import opened Prelude
  import opened Ascii
  import opened Attributes
  import opened Intervals
  import opened SelfTimes
  import opened Spans
  import opened TraceContext
  import opened Sampling

  const KIND_CLIENT := 3

  /** What the tracer reads of its Config. */
  datatype Config = Config(enabled: bool, sampleRate: real, maxSpans: int)

  /** The head decision of a request: made once, when its root span is started. */
  datatype Head = Head(traceID: string, parentSpanID: string, sampled: bool)

  /** A continued trace inherits id and sampled flag; a fresh one rolls its own. */
  function Decide(cfg: Config, traceparent: string, freshTraceID: string): Head {
    match Parse(traceparent)
    case Some(tp) => Head(tp.traceID, tp.parentSpanID, cfg.enabled && tp.sampled)
    case None => Head(freshTraceID, "", cfg.enabled && SampleDecision(freshTraceID, cfg.sampleRate))
  }

  function NamedCategory(text: string): Category {
    if text == "db" then Db
    else if text == "http" then Http
    else if text == "cache" then Cache
    else if text == "queue" then Queue
    else App
  }

  /** category() */
  function CategoryOf(sp: Span): Category
    reads sp
    requires sp.Valid()
  {
    if CATEGORY in sp.index then
      match sp.values[sp.index[CATEGORY]]
      case StringValue(text) => NamedCategory(text)
      case _ => App
    else App
  }

  /** The children as attachSelfTime sees them. */
  function ChildrenOf(rootStart: int, spans: seq<Span>): (r: seq<Child>)
    reads spans
    requires forall i :: 0 <= i < |spans| ==> spans[i].Valid()
    ensures |r| == |spans|
    ensures forall i :: 0 <= i < |r| ==>
              r[i] == Child(CategoryOf(spans[i]), Window(rootStart, spans[i].start, spans[i].end))
  {
    if spans == [] then []
    else
      var n := |spans| - 1;
      ChildrenOf(rootStart, spans[..n])
      + [Child(CategoryOf(spans[n]), Window(rootStart, spans[n].start, spans[n].end))]
  }

  function SelfWrite(c: Category, value: int): KeyValue {
    KeyValue(SelfKey(CategoryName(c)), IntValue(value))
  }

  /** The five attribute writes of attachSelfTime, in the source's order. */
  function SelfTimeWrites(duration: int, children: seq<Child>): seq<KeyValue> {
    [SelfWrite(Db, Stamped(duration, children, Db)), SelfWrite(Http, Stamped(duration, children, Http)),
     SelfWrite(Cache, Stamped(duration, children, Cache)), SelfWrite(Queue, Stamped(duration, children, Queue)),
     SelfWrite(App, Stamped(duration, children, App))]
  }

  method UnionOf(ivs: seq<Interval>) returns (total: int)
    requires Proper(ivs)
    ensures total == Wrap64(Measure(ivs))
  {
    var a := new Interval[|ivs|](i requires 0 <= i < |ivs| => ivs[i]);
    assert a[..] == ivs;
    total := UnionLength(a);
  }

  lemma {:induction false} ProperCategory(children: seq<Child>, c: Category)
    requires WellFormed(children)
    ensures Proper(OfCategory(children, c))
  {
    if children == [] {
    } else {
      ProperCategory(children[..|children| - 1], c);
    }
  }

  lemma NextChild(children: seq<Child>, i: nat, c: Category)
    requires i < |children|
    ensures OfCategory(children[..i + 1], c)
         == OfCategory(children[..i], c) + if children[i].category == c then [children[i].window] else []
    ensures Windows(children[..i + 1]) == Windows(children[..i]) + [children[i].window]
  {
    assert children[..i + 1][..i] == children[..i];
  }

  const EMPTY_BY_CATEGORY: map<Category, seq<Interval>> :=
    map[Db := [], Http := [], Cache := [], Queue := [], App := []]

  lemma EveryCategoryIsHere()
    ensures forall c :: c in EMPTY_BY_CATEGORY && EMPTY_BY_CATEGORY[c] == []
  {
    forall c ensures c in EMPTY_BY_CATEGORY && EMPTY_BY_CATEGORY[c] == [] {
      match c
      case Db | Http | Cache | Queue | App =>
    }
  }

  lemma WindowsWellFormed(rootStart: int, spans: seq<Span>)
    requires forall i :: 0 <= i < |spans| ==> spans[i].Valid()
    ensures WellFormed(ChildrenOf(rootStart, spans))
  {
    hide CategoryOf, Wrap64;
  }

  /** The window of one child, clamped. */
  method WindowOf(rootStart: int, startNs: int, endNs: int) returns (iv: Interval)
    ensures iv == Window(rootStart, startNs, endNs)
  {
    var start, end := Wrap64(startNs - rootStart), Wrap64(endNs - rootStart);
    if end < start {
      end := start;
    }
    iv := Interval(start, end);
  }

  /** The loop of attachSelfTime that sorts the children's windows by category. */
  method Sort(rootStart: int, spans: seq<Span>) returns (all: seq<Interval>, byCat: map<Category, seq<Interval>>)
    requires forall i :: 0 <= i < |spans| ==> spans[i].Valid()
    ensures var children := ChildrenOf(rootStart, spans);
            && all == Windows(children) && WellFormed(children)
            && (forall c :: c in byCat && byCat[c] == OfCategory(children, c))
  {
    ghost var children := ChildrenOf(rootStart, spans);
    WindowsWellFormed(rootStart, spans);
    EveryCategoryIsHere();
    all := [];
    byCat := EMPTY_BY_CATEGORY;
    assert children[..0] == [];
    hide WellFormed, Window, Wrap64, ChildrenOf, CategoryOf;
    for i := 0 to |spans|
      invariant all == Windows(children[..i])
      invariant forall c :: c in byCat && byCat[c] == OfCategory(children[..i], c)
    {
      var sp := spans[i];
      var iv := WindowOf(rootStart, sp.start, sp.end);
      var category := CategoryOf(sp);
      forall c { NextChild(children, i, c); }
      all := all + [iv];
      byCat := byCat[category := byCat[category] + [iv]];
    }
    assert children[..|spans|] == children;
  }

  lemma WindowsAreProper(children: seq<Child>)
    requires WellFormed(children)
    ensures Proper(Windows(children))
  {
  }

  lemma StampedPart(duration: int, children: seq<Child>, c: Category)
    requires c != App
    ensures Stamped(duration, children, c) == Wrap64(Total(children, c))
  {
    hide Total, Wrap64;
  }

  /** The time a category's children cover. */
  method CategoryTime(byCat: map<Category, seq<Interval>>, ghost children: seq<Child>, c: Category) returns (total: int)
    requires WellFormed(children) && c in byCat && byCat[c] == OfCategory(children, c)
    ensures total == Wrap64(Total(children, c))
  {
    ProperCategory(children, c);
    total := UnionOf(byCat[c]);
  }

  /** The value of attachSelfTime for "app": its children and the root's own exclusive time. */
  method AppTime(duration: int, all: seq<Interval>, byCat: map<Category, seq<Interval>>, ghost children: seq<Child>)
    returns (selfApp: int)
    requires WellFormed(children) && App in byCat && byCat[App] == OfCategory(children, App) && all == Windows(children)
    ensures selfApp == Stamped(duration, children, App)
  {
    hide OfCategory, Total, Measure, Wrap64;
    WindowsAreProper(children);
    var union := UnionOf(all);
    var appExclusive := Wrap64(duration - union);
    if appExclusive < 0 {
      appExclusive := 0;
    }
    selfApp := CategoryTime(byCat, children, App);
    selfApp := Wrap64(selfApp + appExclusive);
  }

  /** The computing half of attachSelfTime. */
  method Compute(rootStart: int, duration: int, spans: seq<Span>)
    returns (db: int, http: int, cache: int, queue: int, app: int)
    requires forall i :: 0 <= i < |spans| ==> spans[i].Valid()
    ensures var children := ChildrenOf(rootStart, spans);
            && db == Stamped(duration, children, Db) && http == Stamped(duration, children, Http)
            && cache == Stamped(duration, children, Cache) && queue == Stamped(duration, children, Queue)
            && app == Stamped(duration, children, App)
  {
    hide *;
    ghost var children := ChildrenOf(rootStart, spans);
    forall c | c != App { StampedPart(duration, children, c); }
    var all, byCat := Sort(rootStart, spans);
    db := CategoryTime(byCat, children, Db);
    http := CategoryTime(byCat, children, Http);
    cache := CategoryTime(byCat, children, Cache);
    queue := CategoryTime(byCat, children, Queue);
    app := AppTime(duration, all, byCat, children);
    assert ChildrenOf(rootStart, spans) == children;
  }

  /** The stamping half. */
  method Stamp(root: Span, db: int, http: int, cache: int, queue: int, app: int)
    requires root.Valid()
    modifies root`keys, root`values, root`index, root`writes
    ensures root.Valid()
    ensures root.writes == old(root.writes) + [SelfWrite(Db, db), SelfWrite(Http, http), SelfWrite(Cache, cache),
                                               SelfWrite(Queue, queue), SelfWrite(App, app)]
  {
    root.SetInt(SelfKey(CategoryName(Db)), db);
    root.SetInt(SelfKey(CategoryName(Http)), http);
    root.SetInt(SelfKey(CategoryName(Cache)), cache);
    root.SetInt(SelfKey(CategoryName(Queue)), queue);
    root.SetInt(SelfKey(CategoryName(App)), app);
  }

  /** attachSelfTime */
  method AttachSelfTime(root: Span, spans: seq<Span>, ghost children: seq<Child>)
    requires root.Valid() && root !in spans
    requires forall i :: 0 <= i < |spans| ==> spans[i].Valid()
    requires children == ChildrenOf(root.start, spans)
    modifies root`keys, root`values, root`index, root`writes
    ensures root.Valid()
    ensures root.writes == old(root.writes) + SelfTimeWrites(old(root.DurationNs()), children)
  {
    var db, http, cache, queue, app := Compute(root.start, root.DurationNs(), spans);
    Stamp(root, db, http, cache, queue, app);
  }

  // ---------- the categories by their texts ----------

  /** The span carries the category as an attribute. */
  predicate Carries(sp: Span, text: string)
    reads sp
    requires sp.Valid()
  {
    exists i :: 0 <= i < |sp.keys| && sp.keys[i] == "restlytics.category" && sp.values[i] == StringValue(text)
  }

  /** The four categories that count by name. */
  const NAMED: set<string> := { "db", "http", "cache", "queue" }

  /** Everything without one of their names counts as "app". */
  predicate CountsAs(sp: Span, text: string)
    reads sp
    requires sp.Valid()
  {
    if text == "app" then forall name :: name in NAMED ==> !Carries(sp, name) else Carries(sp, text)
  }

  lemma CategoryText()
    ensures CATEGORY == "restlytics.category"
  {
  }

  lemma CarriesIs(sp: Span, text: string)
    requires sp.Valid()
    ensures Carries(sp, text) <==>
              "restlytics.category" in sp.index
              && sp.values[sp.index["restlytics.category"]] == StringValue(text)
  {
    if "restlytics.category" in sp.index { assert sp.keys[sp.index["restlytics.category"]] == "restlytics.category"; }
  }

  /** A span counts for its category under the category's name. */
  lemma CategoryIff(sp: Span, c: Category)
    requires sp.Valid()
    ensures CategoryOf(sp) == c <==> CountsAs(sp, TextOf(c))
  {
    CategoryText();
    CarriesIs(sp, "db");
    CarriesIs(sp, "http");
    CarriesIs(sp, "cache");
    CarriesIs(sp, "queue");
    hide Carries, Indexed, PutAll, EntriesOf;
  }

  function TextOf(c: Category): string {
    match c
    case Db => "db"
    case Http => "http"
    case Cache => "cache"
    case Queue => "queue"
    case App => "app"
  }

  /** The spans' times from the root's start on, those of one category. */
  function TimesOf(rootStart: int, spans: seq<Span>, text: string): seq<Interval>
    reads spans
    requires forall i :: 0 <= i < |spans| ==> spans[i].Valid()
  {
    if spans == [] then []
    else
      var n := |spans| - 1;
      TimesOf(rootStart, spans[..n], text) + if CountsAs(spans[n], text) then [TimeOf(rootStart, spans[n])] else []
  }

  function AllTimes(rootStart: int, spans: seq<Span>): seq<Interval>
    reads spans
  {
    if spans == [] then []
    else AllTimes(rootStart, spans[..|spans| - 1]) + [TimeOf(rootStart, spans[|spans| - 1])]
  }

  /** A span that ends before it starts takes no time. */
  function TimeOf(rootStart: int, sp: Span): Interval
    reads sp
  {
    Interval(sp.start - rootStart, (if sp.end < sp.start then sp.start else sp.end) - rootStart)
  }

  /** The nanoseconds that count for a category: those its spans cover, and for "app" also those of the root that
      no span covers. */
  function SelfNs(rootStart: int, now: int, spans: seq<Span>, text: string): int
    reads spans
    requires forall i :: 0 <= i < |spans| ==> spans[i].Valid()
  {
    Measure(TimesOf(rootStart, spans, text)) + if text == "app" then Alone(rootStart, now, spans) else 0
  }

  function Alone(rootStart: int, now: int, spans: seq<Span>): nat
    reads spans
  {
    var left := now - rootStart - Measure(AllTimes(rootStart, spans));
    if left < 0 then 0 else left
  }

  ghost predicate TimedByClock(rootStart: int, spans: seq<Span>)
    reads spans
  {
    Timestamp(rootStart) && forall i :: 0 <= i < |spans| ==> Timestamp(spans[i].start) && Timestamp(spans[i].end)
  }

  lemma ExactWindow(rootStart: int, sp: Span)
    requires Timestamp(rootStart) && Timestamp(sp.start) && Timestamp(sp.end)
    ensures Window(rootStart, sp.start, sp.end) == TimeOf(rootStart, sp)
  {
    hide Wrap64;
  }

  lemma {:induction false} TimesAreWindows(rootStart: int, spans: seq<Span>, c: Category)
    requires forall i :: 0 <= i < |spans| ==> spans[i].Valid()
    requires TimedByClock(rootStart, spans)
    ensures OfCategory(ChildrenOf(rootStart, spans), c) == TimesOf(rootStart, spans, TextOf(c))
    ensures Windows(ChildrenOf(rootStart, spans)) == AllTimes(rootStart, spans)
    decreases |spans|
  {
    if spans == [] {
    } else {
      var n := |spans| - 1;
      var children := ChildrenOf(rootStart, spans);
      TimesAreWindows(rootStart, spans[..n], c);
      CategoryIff(spans[n], c);
      ExactWindow(rootStart, spans[n]);
      assert children[..n] == ChildrenOf(rootStart, spans[..n]);
      NextChild(children, n, c);
      assert children[..n + 1] == children;
      hide CategoryOf, CountsAs, Window, TimeOf, TextOf, Wrap64;
    }
  }

  /** The exact self-time of a category is told by the texts. */
  lemma SelfTimeByText(rootStart: int, now: int, spans: seq<Span>, c: Category)
    requires forall i :: 0 <= i < |spans| ==> spans[i].Valid()
    requires TimedByClock(rootStart, spans) && Timestamp(now)
    ensures SelfTime(Duration(rootStart, now), ChildrenOf(rootStart, spans), c)
         == SelfNs(rootStart, now, spans, TextOf(c))
  {
    TimesAreWindows(rootStart, spans, c);
    assert Duration(rootStart, now) == if now < rootStart then 0 else now - rootStart;
    assert TextOf(c) == "app" <==> c == App;
    hide ChildrenOf, OfCategory, TimesOf, AllTimes, Windows, Measure, Duration, TextOf;
  }

  // ---------- the request ----------

  /** The links of a root span: a job links to the span that enqueued it. */
  function RootLinks(head: Head, linkParent: bool): seq<SpanLink> {
    if linkParent && head.parentSpanID != "" then [SpanLink(head.traceID, head.parentSpanID, "enqueue")] else []
  }

  lemma CategoryIsNoUrl()
    ensures ToLower(CATEGORY) != URL_FULL
  {
    assert |ToLower(CATEGORY)| != |URL_FULL|;
  }

  /** A new span with its category; `head` gives its trace and its parent. */
  method NewSpan(head: Head, policy: Policy, name: string, kind: int, category: string, linkParent: bool,
                 spanID: string, now: int) returns (sp: Span)
    ensures fresh(sp) && sp.Valid() && sp.traceID == head.traceID && sp.spanID == spanID
    ensures sp.parentSpanID == head.parentSpanID && sp.links == RootLinks(head, linkParent)
    ensures sp.name == name && sp.kind == kind && sp.start == sp.end == now && sp.statusCode == 0
    ensures sp.policy == policy
    ensures sp.writes == [KeyValue(CATEGORY, StringValue(category))]
  {
    sp := new Span(head.traceID, spanID, head.parentSpanID, name, kind, now, now, policy);
    CategoryIsNoUrl();
    hide ToLower, PutAll, Indexed, EntriesOf;
    sp.SetString(CATEGORY, category);
    if linkParent && head.parentSpanID != "" {
      sp.AddLink(head.traceID, head.parentSpanID, "enqueue");
    }
  }

  /** outboundContext, for a span id that was just minted. */
  function Outbound(cfg: Config, traceID: string, sampled: bool, spanID: string): Option<string> {
    if !cfg.enabled || traceID == "" then None else Some(Format(traceID, spanID, sampled))
  }

  /** What Enqueue puts into the carrier, enabled or not. */
  function Carrier(traceID: string, sampled: bool, spanID: string): string {
    Format(traceID, spanID, sampled)
  }

  /** requestState */
  class RequestState {
    const cfg: Config
    const policy: Policy
    const traceID: string
    const rootSpanID: string
    const rootCategory: string
    const sampled: bool
    const rootSpan: Span?
    var rawSpans: seq<Span>
    var dbQueryCount: int

    ghost predicate Valid()
      reads this, rootSpan, rawSpans
    {
      && (sampled <==> rootSpan != null)
      && (!sampled ==> rawSpans == [])
      && (|rawSpans| <= cfg.maxSpans || rawSpans == [])
      && (rootSpan != null ==>
            rootSpan.Valid() && rootSpan !in rawSpans && rootSpan.traceID == traceID && rootSpan.spanID == rootSpanID)
      && forall i :: 0 <= i < |rawSpans| ==>
           rawSpans[i].Valid() && rawSpans[i].traceID == traceID && rawSpans[i].parentSpanID == rootSpanID
    }

    /** The state of a request whose head decision is made. */
    constructor (cfg: Config, policy: Policy, head: Head, name: string, kind: int, category: string,
                 linkParent: bool, spanID: string, now: int)
      ensures Valid() && rawSpans == [] && dbQueryCount == 0
      ensures this.cfg == cfg && this.policy == policy && rootSpanID == spanID && rootCategory == category
      ensures traceID == head.traceID && sampled == head.sampled
      ensures rootSpan != null ==>
                && fresh(rootSpan) && rootSpan.parentSpanID == head.parentSpanID && rootSpan.start == now
                && rootSpan.end == now && rootSpan.name == name && rootSpan.kind == kind && rootSpan.policy == policy
                && rootSpan.statusCode == 0 && rootSpan.links == RootLinks(head, linkParent)
                && rootSpan.writes == [KeyValue(CATEGORY, StringValue(category))]
    {
      this.cfg, this.policy, this.rootCategory := cfg, policy, category;
      traceID, rootSpanID, sampled := head.traceID, spanID, head.sampled;
      rawSpans, dbQueryCount := [], 0;
      var root: Span? := null;
      if head.sampled {
        root := NewSpan(head, policy, name, kind, category, linkParent, spanID, now);
      }
      rootSpan := root;
    }

    /** startChildSpan */
    method StartChildSpan(name: string, category: string, kind: int, spanID: string, now: int) returns (sp: Span?)
      requires Valid()
      modifies `rawSpans
      ensures Valid()
      ensures sp != null <==> sampled && |old(rawSpans)| < cfg.maxSpans
      ensures sp == null ==> rawSpans == old(rawSpans)
      ensures sp != null ==>
                && fresh(sp) && rawSpans == old(rawSpans) + [sp] && sp.spanID == spanID
                && sp.name == name && sp.kind == kind && sp.start == sp.end == now && sp.links == []
                && sp.policy == policy && sp.statusCode == 0
                && sp.writes == [KeyValue(CATEGORY, StringValue(category))]
    {
      if !sampled || rootSpan == null || |rawSpans| >= cfg.maxSpans {
        return null;
      }
      sp := NewSpan(Head(traceID, rootSpan.spanID, true), policy, name, kind, category, false, spanID, now);
      rawSpans := rawSpans + [sp];
    }

    /** addChildSpanWithID, before its caller decorates the span. */
    method AddChildSpan(name: string, startNs: int, endNs: int, spanID: string) returns (sp: Span?)
      requires Valid()
      modifies `rawSpans
      ensures Valid()
      ensures sp != null <==> sampled && |old(rawSpans)| < cfg.maxSpans
      ensures sp == null ==> rawSpans == old(rawSpans)
      ensures sp != null ==>
                && fresh(sp) && rawSpans == old(rawSpans) + [sp] && sp.spanID == spanID
                && sp.name == name && sp.kind == 3 && sp.start == startNs && sp.end == endNs
                && sp.links == [] && sp.writes == [] && sp.policy == policy && sp.statusCode == 0
                && sp.Valid()
    {
      if !sampled || rootSpan == null || |rawSpans| >= cfg.maxSpans {
        return null;
      }
      var child := new Span(traceID, spanID, rootSpan.spanID, name, KIND_CLIENT, startNs, endNs, policy);
      rawSpans := rawSpans + [child];
      return child;
    }

    /** RoundTrip: the header carries the id of the span that is recorded for the call afterwards. */
    method RoundTrip(name: string, spanID: string, startNs: int, endNs: int) returns (header: Option<string>)
      requires Valid()
      modifies `rawSpans
      ensures Valid() && header == Outbound(cfg, traceID, sampled, spanID)
      ensures header.Some? <==> cfg.enabled && traceID != ""
      ensures header.Some? ==> header.value == "00-" + traceID + "-" + spanID + "-" + if sampled then "01" else "00"
      ensures header.None? || !sampled || |old(rawSpans)| >= cfg.maxSpans ==> rawSpans == old(rawSpans)
      ensures header.Some? && sampled && |old(rawSpans)| < cfg.maxSpans ==>
                && |rawSpans| == |old(rawSpans)| + 1 && old(rawSpans) <= rawSpans
                && var sp := rawSpans[|rawSpans| - 1];
                   && fresh(sp) && sp.spanID == spanID && sp.name == name && sp.kind == 3
                   && sp.start == startNs && sp.end == endNs && sp.links == [] && sp.policy == policy
                   && sp.writes == [KeyValue(CATEGORY, StringValue("http"))]
    {
      header := Outbound(cfg, traceID, sampled, spanID);
      if header.Some? {
        var sp := AddChildSpan(name, startNs, endNs, spanID);
        if sp != null {
          CategoryIsNoUrl();
          sp.SetString(CATEGORY, "http");
        }
      }
    }

    /** Enqueue: the carrier's traceparent names the span recorded for the send. */
    method Enqueue(name: string, spanID: string, now: int) returns (carrier: string)
      requires Valid()
      modifies `rawSpans
      ensures Valid() && carrier == Carrier(traceID, sampled, spanID)
      ensures carrier == "00-" + traceID + "-" + spanID + "-" + if sampled then "01" else "00"
      ensures !sampled || |old(rawSpans)| >= cfg.maxSpans ==> rawSpans == old(rawSpans)
      ensures sampled && |old(rawSpans)| < cfg.maxSpans ==>
                && |rawSpans| == |old(rawSpans)| + 1 && old(rawSpans) <= rawSpans
                && var sp := rawSpans[|rawSpans| - 1];
                   && fresh(sp) && sp.spanID == spanID && sp.name == name && sp.kind == 3
                   && sp.start == sp.end == now && sp.links == [] && sp.policy == policy
                   && sp.writes == [KeyValue(CATEGORY, StringValue("queue"))]
    {
      carrier := Carrier(traceID, sampled, spanID);
      var sp := StartChildSpan(name, "queue", KIND_CLIENT, spanID, now);
    }

    method IncrementDBQueryCount()
      modifies `dbQueryCount
      ensures dbQueryCount == old(dbQueryCount) + 1
    {
      dbQueryCount := dbQueryCount + 1;
    }

    /** The spans of the payload: the root first, then every child in the order they were added. */
    ghost function Recorded(): seq<Span>
      reads this
    {
      if rootSpan == null then [] else [rootSpan] + rawSpans
    }

    /** Each recorded span in its wire form, in order and once. */
    ghost predicate Exports(payload: seq<SpanData>)
      reads this, Recorded()
    {
      && |payload| == |Recorded()|
      && forall i :: 0 <= i < |payload| ==> Recorded()[i].Valid() && payload[i] == Recorded()[i].Data()
    }

    /** The root's writes after it is closed at `now`. */
    ghost function ClosedWrites(now: int): seq<KeyValue>
      reads this, rootSpan, rawSpans
      requires Valid() && rootSpan != null
    {
      rootSpan.writes + SelfTimeWrites(Duration(rootSpan.start, now), ChildrenOf(rootSpan.start, rawSpans))
      + LabelWrites(dbQueryCount, rootCategory)
    }

    /** A status that was set is kept. */
    ghost function ClosedStatus(): int
      reads this, rootSpan
      requires rootSpan != null
    {
      if rootSpan.statusCode == 0 then 1 else rootSpan.statusCode
    }

    /** The root and its children were timed by a clock, and so is its end. */
    ghost predicate OnClock(now: int)
      reads this, rootSpan, rawSpans
    {
      && rootSpan != null && Timestamp(rootSpan.start) && Timestamp(now)
      && forall i :: 0 <= i < |rawSpans| ==> Timestamp(rawSpans[i].start) && Timestamp(rawSpans[i].end)
    }

    lemma ClockAccounts(now: int)
      requires Valid() && OnClock(now) && PassesSelfTimes(rootSpan.policy)
      ensures Accountable(rootSpan.policy, rootSpan.start, now, ChildrenOf(rootSpan.start, rawSpans))
    {
      ChildrenOnClock(rootSpan.start, rawSpans);
      hide Clocked, Windows, ChildrenOf, PassesSelfTimes;
    }

    /** The first half of Finish: the root span is closed and stamped. */
    method Close(now: int)
      requires Valid() && rootSpan != null
      modifies rootSpan`end, rootSpan`keys, rootSpan`values, rootSpan`index, rootSpan`writes, rootSpan`statusCode
      ensures Valid() && rootSpan.end == now && rootSpan.writes == old(ClosedWrites(now))
      ensures rootSpan.statusCode == old(ClosedStatus())
      ensures old(OnClock(now)) && PassesSelfTimes(rootSpan.policy) ==>
                ExportedTotal(rootSpan.Entries()) >= now - rootSpan.start
      ensures TellsRoot(rootSpan.policy, rootSpan.Entries(), rootSpan.start, now, rawSpans, dbQueryCount, rootCategory)
    {
      hide SelfTimeWrites, LabelWrites, Duration, ChildrenOf, ExportedTotal, PassesSelfTimes, OnClock, Accountable,
        TellsRoot;
      if OnClock(now) && PassesSelfTimes(rootSpan.policy) { ClockAccounts(now); }
      CloseAccounted(rootSpan, rawSpans, dbQueryCount, rootCategory, now, ChildrenOf(rootSpan.start, rawSpans));
    }

    /** The second half of Finish: the payload. */
    method Payload() returns (payload: seq<SpanData>)
      requires Valid()
      ensures Exports(payload)
    {
      if rootSpan == null {
        return [];
      }
      payload := AllData([rootSpan] + rawSpans);
    }

    lemma RootFirst(payload: seq<SpanData>)
      requires Valid() && Exports(payload) && rootSpan != null
      ensures payload != [] && payload[0].attributes == rootSpan.Entries()
    {
      assert Recorded()[0] == rootSpan;
    }

    /** Finish of a sampled request. */
    method CloseAndExport(now: int) returns (payload: seq<SpanData>)
      requires Valid() && rootSpan != null
      modifies rootSpan`end, rootSpan`keys, rootSpan`values, rootSpan`index, rootSpan`writes, rootSpan`statusCode
      ensures Valid() && Exports(payload)
      ensures rootSpan.end == now && rootSpan.writes == old(ClosedWrites(now))
      ensures rootSpan.statusCode == old(ClosedStatus())
      ensures old(OnClock(now)) && PassesSelfTimes(rootSpan.policy) ==>
                payload != [] && ExportedTotal(payload[0].attributes) >= now - rootSpan.start
      ensures payload != []
              && TellsRoot(rootSpan.policy, payload[0].attributes, rootSpan.start, now, rawSpans, dbQueryCount,
                           rootCategory)
    {
      hide ClosedWrites, ExportedTotal, ClosedStatus, PassesSelfTimes, OnClock, Exports, TellsRoot;
      Close(now);
      payload := Payload();
      RootFirst(payload);
    }

    /** The span that Finish changes, if there is one. */
    ghost function Root(): set<Span> {
      if rootSpan == null then {} else {rootSpan}
    }

    /** Finish */
    method Finish(now: int) returns (payload: seq<SpanData>)
      requires Valid()
      modifies Root()`end, Root()`keys, Root()`values, Root()`index, Root()`writes, Root()`statusCode
      ensures Valid() && Exports(payload)
      ensures rootSpan != null ==>
                && rootSpan.end == now && rootSpan.writes == old(ClosedWrites(now))
                && rootSpan.statusCode == old(ClosedStatus())
      ensures old(OnClock(now)) && PassesSelfTimes(rootSpan.policy) ==>
                payload != [] && ExportedTotal(payload[0].attributes) >= now - rootSpan.start
      ensures rootSpan != null ==>
                payload != []
                && TellsRoot(rootSpan.policy, payload[0].attributes, rootSpan.start, now, rawSpans, dbQueryCount,
                             rootCategory)
    {
      if !sampled || rootSpan == null {
        return [];
      }
      hide ClosedWrites, ExportedTotal, ClosedStatus, PassesSelfTimes, OnClock, Exports, TellsRoot;
      payload := CloseAndExport(now);
    }
  }

  /** startRoot; the two fresh ids and the clock are parameters. */
  method StartRoot(cfg: Config, policy: Policy, name: string, traceparent: string, kind: int, category: string,
                   linkParent: bool, freshTraceID: string, freshSpanID: string, now: int) returns (st: RequestState)
    ensures fresh(st) && st.Valid() && st.rawSpans == [] && st.rootSpanID == freshSpanID && st.cfg == cfg
    ensures var head := Decide(cfg, traceparent, freshTraceID);
            && st.traceID == head.traceID && st.sampled == head.sampled
            && (st.rootSpan != null ==>
                  st.rootSpan.parentSpanID == head.parentSpanID && st.rootSpan.links == RootLinks(head, linkParent))
    ensures st.rootCategory == category && st.policy == policy && st.dbQueryCount == 0
    ensures var h := ToLower(TrimSpace(traceparent));
            if IsHeader(h) then
              && st.traceID == h[3..35]
              && (st.sampled <==> cfg.enabled && h[54] in {'1', '3', '5', '7', '9', 'b', 'd', 'f'})
              && (st.rootSpan != null ==>
                    && st.rootSpan.parentSpanID == h[36..52]
                    && st.rootSpan.links ==
                         if linkParent then [SpanLink(h[3..35], h[36..52], "enqueue")] else [])
            else
              && st.traceID == freshTraceID
              && (st.sampled <==> cfg.enabled && SampleDecision(freshTraceID, cfg.sampleRate))
              && (st.rootSpan != null ==> st.rootSpan.parentSpanID == "" && st.rootSpan.links == [])
    ensures st.rootSpan != null ==>
              && st.rootSpan.name == name && st.rootSpan.kind == kind && st.rootSpan.policy == policy
              && st.rootSpan.start == st.rootSpan.end == now && st.rootSpan.statusCode == 0
              && st.rootSpan.writes == [KeyValue(CATEGORY, StringValue(category))]
  {
    ParseIsPositional(traceparent);
    assert IsHeader(ToLower(TrimSpace(traceparent))) ==> |ToLower(TrimSpace(traceparent))| == 55;
    hide Parse, IsHeader, SampleDecision, LowBit;
    var head := Decide(cfg, traceparent, freshTraceID);
    st := new RequestState(cfg, policy, head, name, kind, category, linkParent, freshSpanID, now);
  }

  /** toData of every span, in order. */
  method AllData(spans: seq<Span>) returns (data: seq<SpanData>)
    requires forall i :: 0 <= i < |spans| ==> spans[i].Valid()
    ensures |data| == |spans|
    ensures forall i :: 0 <= i < |spans| ==> spans[i].Valid() && data[i] == spans[i].Data()
  {
    data := [];
    for i := 0 to |spans|
      invariant |data| == i
      invariant forall j :: 0 <= j < i ==> data[j] == spans[j].Data()
    {
      var d := spans[i].ToData();
      data := data + [d];
    }
  }

  /** The attributes Finish adds after the self-times. */
  method Label(root: Span, queries: int, category: string)
    requires root.Valid()
    modifies root`keys, root`values, root`index, root`writes
    ensures root.Valid()
    ensures root.writes == old(root.writes) + LabelWrites(queries, category)
  {
    root.SetInt(DB_QUERY_COUNT, queries);
    CategoryIsNoUrl();
    hide ToLower, PutAll, Indexed, EntriesOf;
    root.SetString(CATEGORY, category);
  }

  method CloseTimes(root: Span, spans: seq<Span>, now: int, ghost children: seq<Child>)
    requires root.Valid() && root !in spans
    requires forall i :: 0 <= i < |spans| ==> spans[i].Valid()
    requires children == ChildrenOf(root.start, spans)
    modifies root`end, root`keys, root`values, root`index, root`writes
    ensures root.Valid() && root.end == now
    ensures root.writes == old(root.writes) + SelfTimeWrites(Duration(root.start, now), children)
  {
    hide SelfTimeWrites, ChildrenOf, PutAll, Indexed, EntriesOf;
    root.SetEnd(now);
    AttachSelfTime(root, spans, children);
  }

  /** Finish's changes to the root span. */
  method CloseRoot(root: Span, spans: seq<Span>, queries: int, category: string, now: int, ghost children: seq<Child>)
    requires root.Valid() && root !in spans
    requires forall i :: 0 <= i < |spans| ==> spans[i].Valid()
    requires children == ChildrenOf(root.start, spans)
    modifies root`end, root`keys, root`values, root`index, root`writes, root`statusCode
    ensures root.Valid() && root.end == now
    ensures root.writes
         == old(root.writes) + SelfTimeWrites(Duration(root.start, now), children) + LabelWrites(queries, category)
    ensures root.statusCode == if old(root.statusCode) == STATUS_UNSET then STATUS_OK else old(root.statusCode)
  {
    hide SelfTimeWrites, LabelWrites, Duration, ChildrenOf;
    CloseTimes(root, spans, now, children);
    Label(root, queries, category);
    if root.statusCode == STATUS_UNSET {
      root.SetStatus(STATUS_OK);
    }
  }

  /** The same, and what it means for the exported numbers. */
  method CloseAccounted(root: Span, spans: seq<Span>, queries: int, category: string, now: int,
                        ghost children: seq<Child>)
    requires root.Valid() && root !in spans
    requires forall i :: 0 <= i < |spans| ==> spans[i].Valid()
    requires children == ChildrenOf(root.start, spans)
    modifies root`end, root`keys, root`values, root`index, root`writes, root`statusCode
    ensures root.Valid() && root.end == now
    ensures root.writes
         == old(root.writes) + SelfTimeWrites(Duration(root.start, now), children) + LabelWrites(queries, category)
    ensures root.statusCode == if old(root.statusCode) == STATUS_UNSET then STATUS_OK else old(root.statusCode)
    ensures Accountable(root.policy, root.start, now, children) ==>
              ExportedTotal(root.Entries()) >= now - root.start
    ensures forall i :: 0 <= i < |spans| ==> spans[i].Valid()
    ensures TellsRoot(root.policy, root.Entries(), root.start, now, spans, queries, category)
  {
    hide SelfTimeWrites, LabelWrites, Duration, ChildrenOf, Clocked, Windows, ExportedTotal, PassesSelfTimes, Timestamp,
      TellsRoot;
    ghost var before := root.writes;
    CloseRoot(root, spans, queries, category, now, children);
    root.EntriesAreOrderedMap();
    assert ChildrenOf(root.start, spans) == children;
    WritesTellRoot(root.policy, before, root.start, now, spans, queries, category, root.Entries());
    if Accountable(root.policy, root.start, now, children) {
      ExportedTimesAccountForRoot(root.policy, before, root.start, now, children, queries, category, root.Entries());
    }
  }

  /** DurationNs of a root that ends at `now`. */
  function Duration(start: int, now: int): (r: nat) {
    if Wrap64(now - start) < 0 then 0 else Wrap64(now - start)
  }

  /** The two attribute writes of Finish itself. */
  function LabelWrites(queries: int, category: string): seq<KeyValue> {
    [KeyValue(DB_QUERY_COUNT, IntValue(queries)), KeyValue(CATEGORY, StringValue(category))]
  }

  // ---------- what the payload says ----------

  predicate HasEntry(entries: seq<KeyValue>, e: KeyValue) {
    exists i :: 0 <= i < |entries| && entries[i] == e
  }

  function Place(c: Category): nat {
    match c
    case Db => 0
    case Http => 1
    case Cache => 2
    case Queue => 3
    case App => 4
  }

  lemma SelfKeyIsOwn(c: Category, d: Category)
    ensures c != d ==> SelfKey(CategoryName(c)) != SelfKey(CategoryName(d))
    ensures SelfKey(CategoryName(c)) != CATEGORY && SelfKey(CategoryName(c)) != DB_QUERY_COUNT
  {
    if c != d { SelfKeysDiffer(CategoryName(c), CategoryName(d)); }
    assert SelfKey(CategoryName(c))[11] == 's' && DB_QUERY_COUNT[11] == 'd' && CATEGORY[11] == 'c';
  }

  /** The last seven writes, by themselves. */
  lemma SelfTimeIsLastOfTail(duration: int, children: seq<Child>, queries: int, category: string, c: Category)
    ensures var tail := SelfTimeWrites(duration, children) + LabelWrites(queries, category);
            && LastWrite(tail, SelfKey(CategoryName(c)), Place(c))
            && tail[Place(c)].value == IntValue(Stamped(duration, children, c))
  {
    hide SelfKey, CategoryName, Stamped;
    forall d { SelfKeyIsOwn(c, d); }
    var five, two := SelfTimeWrites(duration, children), LabelWrites(queries, category);
    var tail := five + two;
    assert five[Place(c)] == SelfWrite(c, Stamped(duration, children, c)) by {
      match c
      case Db =>
      case Http =>
      case Cache =>
      case Queue =>
      case App =>
    }
    forall i | Place(c) < i < |tail| ensures tail[i].key != SelfKey(CategoryName(c)) {
      if i >= 5 { assert tail[i] == two[i - 5]; }
    }
  }

  lemma LastWriteBehind(before: seq<KeyValue>, tail: seq<KeyValue>, key: string, n: nat)
    requires LastWrite(tail, key, n)
    ensures LastWrite(before + tail, key, |before| + n) && (before + tail)[|before| + n] == tail[n]
  {
    var writes := before + tail;
    forall i | |before| + n < i < |writes| ensures writes[i].key != key { assert writes[i] == tail[i - |before|]; }
  }

  lemma SelfTimeIsLastWrite(before: seq<KeyValue>, duration: int, children: seq<Child>, queries: int, category: string,
                            c: Category)
    ensures var writes := before + SelfTimeWrites(duration, children) + LabelWrites(queries, category);
            && LastWrite(writes, SelfKey(CategoryName(c)), |before| + Place(c))
            && writes[|before| + Place(c)].value == IntValue(Stamped(duration, children, c))
  {
    SelfTimeIsLastOfTail(duration, children, queries, category, c);
    hide *;
    var five, two := SelfTimeWrites(duration, children), LabelWrites(queries, category);
    LastWriteBehind(before, five + two, SelfKey(CategoryName(c)), Place(c));
    assert before + five + two == before + (five + two);
  }

  /** The self-time stamped by Finish is what the payload carries for the category. */
  lemma SelfTimeInPayload(policy: Policy, before: seq<KeyValue>, duration: int, children: seq<Child>, queries: int,
                          category: string, entries: seq<KeyValue>, c: Category)
    requires !policy.held(SelfKey(CategoryName(c)))
    requires IsOrderedMap(policy, before + SelfTimeWrites(duration, children) + LabelWrites(queries, category), entries)
    ensures HasEntry(entries, KeyValue(SelfKey(CategoryName(c)), IntValue(Stamped(duration, children, c))))
  {
    var writes := before + SelfTimeWrites(duration, children) + LabelWrites(queries, category);
    var key, n := SelfKey(CategoryName(c)), |before| + Place(c);
    SelfTimeIsLastWrite(before, duration, children, queries, category, c);
    assert HasKey(entries, writes[n].key);
    var i :| 0 <= i < |entries| && entries[i].key == key;
    var m :| LastWrite(writes, entries[i].key, m) && writes[m].value == entries[i].value;
    assert m == n;
    assert entries[i] == KeyValue(key, IntValue(Stamped(duration, children, c)));
  }

  lemma SdkPolicyPassesSelfTimes(redactURL: string -> string, c: Category)
    ensures !SdkPolicy(redactURL).held(SelfKey(CategoryName(c)))
  {
    SelfKeyPasses(CategoryName(c));
  }

  // ---------- the five exported values ----------

  ghost predicate PassesSelfTimes(policy: Policy) {
    forall c :: !policy.held(SelfKey(CategoryName(c)))
  }

  /** The self-times are exported and were computed from clock timestamps. */
  ghost predicate Accountable(policy: Policy, rootStart: int, now: int, children: seq<Child>) {
    PassesSelfTimes(policy) && Timestamp(rootStart) && Timestamp(now) && Clocked(rootStart, Windows(children))
  }

  /** The number exported under a key, or 0. */
  function NumberAt(entries: seq<KeyValue>, key: string): int {
    if entries == [] then 0
    else if entries[0].key == key then (if entries[0].value.IntValue? then entries[0].value.number else 0)
    else NumberAt(entries[1..], key)
  }

  function Exported(entries: seq<KeyValue>, c: Category): int {
    NumberAt(entries, SelfKey(CategoryName(c)))
  }

  function ExportedTotal(entries: seq<KeyValue>): int {
    Exported(entries, Db) + Exported(entries, Http) + Exported(entries, Cache) + Exported(entries, Queue)
    + Exported(entries, App)
  }

  predicate KeysDiffer(entries: seq<KeyValue>) {
    forall i, j :: 0 <= i < j < |entries| ==> entries[i].key != entries[j].key
  }

  lemma {:induction false} NumberAtIs(entries: seq<KeyValue>, key: string, n: int)
    requires KeysDiffer(entries) && HasEntry(entries, KeyValue(key, IntValue(n)))
    ensures NumberAt(entries, key) == n
    decreases |entries|
  {
    var i :| 0 <= i < |entries| && entries[i] == KeyValue(key, IntValue(n));
    if i == 0 {
    } else {
      assert entries[1..][i - 1] == KeyValue(key, IntValue(n));
      NumberAtIs(entries[1..], key, n);
    }
  }

  lemma OrderedMapKeysDiffer(policy: Policy, writes: seq<KeyValue>, entries: seq<KeyValue>)
    requires IsOrderedMap(policy, writes, entries)
    ensures KeysDiffer(entries)
  {
    hide LastWrite, HasKey, FirstIndex;
  }

  lemma {:induction false} ChildrenOnClock(rootStart: int, spans: seq<Span>)
    requires Timestamp(rootStart)
    requires forall i :: 0 <= i < |spans| ==> spans[i].Valid() && Timestamp(spans[i].start) && Timestamp(spans[i].end)
    ensures Clocked(rootStart, Windows(ChildrenOf(rootStart, spans)))
  {
    var children := ChildrenOf(rootStart, spans);
    forall i | 0 <= i < |children|
      ensures -rootStart <= Windows(children)[i].start <= Windows(children)[i].end < TWO_63 - rootStart
    {
      WindowIsExact(rootStart, spans[i].start, spans[i].end);
    }
  }

  /** With clock timestamps the five numbers in the payload are the exact self-times: together they are at
      least the root's duration, and exactly that if and only if the children's union fits in it and no two
      categories overlap. */
  lemma ExportedTimesAccountForRoot(policy: Policy, before: seq<KeyValue>, rootStart: int, now: int,
      children: seq<Child>, queries: int, category: string, entries: seq<KeyValue>)
    requires Accountable(policy, rootStart, now, children)
    requires IsOrderedMap(policy,
               before + SelfTimeWrites(Duration(rootStart, now), children) + LabelWrites(queries, category), entries)
    ensures forall c :: Exported(entries, c) == SelfTime(Duration(rootStart, now), children, c)
    ensures ExportedTotal(entries) >= now - rootStart
    ensures rootStart <= now ==>
              (ExportedTotal(entries) == now - rootStart <==> Union(children) <= now - rootStart && Apart(children))
  {
    var duration := Duration(rootStart, now);
    assert duration == if now < rootStart then 0 else now - rootStart;
    hide SelfTimeWrites, LabelWrites, NumberAt, HasEntry, Stamped, SelfTime, Apart, Duration;
    OrderedMapKeysDiffer(policy, before + SelfTimeWrites(duration, children) + LabelWrites(queries, category), entries);
    hide IsOrderedMap, KeysDiffer;
    forall c ensures Exported(entries, c) == SelfTime(duration, children, c) {
      SelfTimeInPayload(policy, before, duration, children, queries, category, entries, c);
      NumberAtIs(entries, SelfKey(CategoryName(c)), Stamped(duration, children, c));
      StampedIsExact(rootStart, duration, children, c);
    }
    SelfTimesAccountForRoot(duration, children);
  }

  const COUNTED: set<string> := NAMED + { "app" }

  ghost predicate TellsTime(entries: seq<KeyValue>, rootStart: int, now: int, spans: seq<Span>, text: string)
    reads spans
    requires forall i :: 0 <= i < |spans| ==> spans[i].Valid()
  {
    HasEntry(entries, KeyValue("restlytics.self_ns." + text, IntValue(SelfNs(rootStart, now, spans, text))))
  }

  /** What the payload says of the root: the five self-times by their names, the query count and the category. */
  ghost predicate TellsRoot(policy: Policy, entries: seq<KeyValue>, rootStart: int, now: int, spans: seq<Span>,
      queries: int, category: string)
    reads spans
    requires forall i :: 0 <= i < |spans| ==> spans[i].Valid()
  {
    && (PassesSelfTimes(policy) && TimedByClock(rootStart, spans) && Timestamp(now) ==>
          forall text :: text in COUNTED ==> TellsTime(entries, rootStart, now, spans, text))
    && (!policy.held("restlytics.db_query_count") ==>
          HasEntry(entries, KeyValue("restlytics.db_query_count", IntValue(queries))))
    && (!policy.held("restlytics.category") ==>
          HasEntry(entries, KeyValue("restlytics.category", StringValue(category))))
  }

  lemma OwnKeys(c: Category)
    ensures DB_QUERY_COUNT == "restlytics.db_query_count"
    ensures SelfKey(CategoryName(c)) == "restlytics.self_ns." + TextOf(c)
  {
  }

  /** The value of the last write under a key is exported. */
  lemma LastIsExported(policy: Policy, writes: seq<KeyValue>, entries: seq<KeyValue>, n: nat)
    requires IsOrderedMap(policy, writes, entries) && n < |writes| && !policy.held(writes[n].key)
    requires LastWrite(writes, writes[n].key, n)
    ensures HasEntry(entries, writes[n])
  {
    hide FirstIndex;
    assert HasKey(entries, writes[n].key);
    var i :| 0 <= i < |entries| && entries[i].key == writes[n].key;
    var m :| LastWrite(writes, entries[i].key, m) && writes[m].value == entries[i].value;
    assert m == n;
  }

  lemma LabelsAreExported(policy: Policy, before: seq<KeyValue>, queries: int, category: string, entries: seq<KeyValue>)
    requires IsOrderedMap(policy, before + LabelWrites(queries, category), entries)
    ensures !policy.held(DB_QUERY_COUNT) ==> HasEntry(entries, KeyValue(DB_QUERY_COUNT, IntValue(queries)))
    ensures !policy.held(CATEGORY) ==> HasEntry(entries, KeyValue(CATEGORY, StringValue(category)))
  {
    var writes, k := before + LabelWrites(queries, category), |before|;
    assert DB_QUERY_COUNT[11] == 'd' && CATEGORY[11] == 'c';
    assert writes[k] == KeyValue(DB_QUERY_COUNT, IntValue(queries)) && LastWrite(writes, DB_QUERY_COUNT, k);
    assert writes[k + 1] == KeyValue(CATEGORY, StringValue(category)) && LastWrite(writes, CATEGORY, k + 1);
    hide IsOrderedMap, LabelWrites, HasEntry;
    if !policy.held(DB_QUERY_COUNT) { LastIsExported(policy, writes, entries, k); }
    if !policy.held(CATEGORY) { LastIsExported(policy, writes, entries, k + 1); }
  }

  lemma SelfTimeIsTold(policy: Policy, before: seq<KeyValue>, rootStart: int, now: int, spans: seq<Span>,
      queries: int, category: string, entries: seq<KeyValue>, c: Category)
    requires forall i :: 0 <= i < |spans| ==> spans[i].Valid()
    requires PassesSelfTimes(policy) && TimedByClock(rootStart, spans) && Timestamp(now)
    requires IsOrderedMap(policy,
               before + SelfTimeWrites(Duration(rootStart, now), ChildrenOf(rootStart, spans))
               + LabelWrites(queries, category), entries)
    ensures TellsTime(entries, rootStart, now, spans, TextOf(c))
  {
    var children, duration := ChildrenOf(rootStart, spans), Duration(rootStart, now);
    ChildrenOnClock(rootStart, spans);
    SelfTimeByText(rootStart, now, spans, c);
    OwnKeys(c);
    assert !policy.held(SelfKey(CategoryName(c)));
    assert duration < TWO_63 && Timestamp(rootStart);
    hide ChildrenOf, SelfTimeWrites, LabelWrites, IsOrderedMap, Duration, SelfNs, HasEntry, SelfTime, Stamped, Clocked,
      Windows, SelfKey, CategoryName, TextOf, PassesSelfTimes, Timestamp, TimedByClock;
    SelfTimeInPayload(policy, before, duration, children, queries, category, entries, c);
    StampedIsExact(rootStart, duration, children, c);
  }

  lemma CountedText(text: string) returns (c: Category)
    requires text in COUNTED
    ensures TextOf(c) == text
  {
    c := if text == "db" then Db else if text == "http" then Http else if text == "cache" then Cache
         else if text == "queue" then Queue else App;
  }

  /** Finish's writes tell the root. */
  lemma WritesTellRoot(policy: Policy, before: seq<KeyValue>, rootStart: int, now: int, spans: seq<Span>,
      queries: int, category: string, entries: seq<KeyValue>)
    requires forall i :: 0 <= i < |spans| ==> spans[i].Valid()
    requires IsOrderedMap(policy,
               before + SelfTimeWrites(Duration(rootStart, now), ChildrenOf(rootStart, spans))
               + LabelWrites(queries, category), entries)
    ensures TellsRoot(policy, entries, rootStart, now, spans, queries, category)
  {
    OwnKeys(Db);
    CategoryText();
    hide ChildrenOf, SelfTimeWrites, LabelWrites, IsOrderedMap, Duration, HasEntry, PassesSelfTimes, Timestamp,
      TimedByClock, TellsTime, TextOf;
    LabelsAreExported(policy, before + SelfTimeWrites(Duration(rootStart, now), ChildrenOf(rootStart, spans)),
                      queries, category, entries);
    if PassesSelfTimes(policy) && TimedByClock(rootStart, spans) && Timestamp(now) {
      forall text | text in COUNTED ensures TellsTime(entries, rootStart, now, spans, text) {
        var c := CountedText(text);
        SelfTimeIsTold(policy, before, rootStart, now, spans, queries, category, entries, c);
      }
    }
  }
}
