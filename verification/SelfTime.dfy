/** The arithmetic of attachSelfTime: five category numbers that account for the root's duration. */
module SelfTimes {
  import opened Attributes
  import opened Intervals

  /** The categories that have a self-time of their own. */
  datatype Category = Db | Http | Cache | Queue | App

  function CategoryName(c: Category): (r: string)
    ensures r in CATEGORIES
  {
    match c
    case Db => "db"
    case Http => "http"
    case Cache => "cache"
    case Queue => "queue"
    case App => "app"
  }

  /** A child span as attachSelfTime sees it: its category and its window relative to the root's start. */
  datatype Child = Child(category: Category, window: Interval)

  /** The window of a child, clamped so that it does not end before it starts. */
  function Window(rootStart: int, start: int, end: int): (r: Interval)
    ensures r.start <= r.end
  {
    var s, e := Wrap64(start - rootStart), Wrap64(end - rootStart);
    Interval(s, if e < s then s else e)
  }

  function Windows(children: seq<Child>): (r: seq<Interval>)
    ensures |r| == |children| && forall i :: 0 <= i < |r| ==> r[i] == children[i].window
  {
    seq(|children|, i requires 0 <= i < |children| => children[i].window)
  }

  /** byCat[category] */
  function OfCategory(children: seq<Child>, category: Category): seq<Interval> {
    if children == [] then []
    else
      var n := |children| - 1;
      OfCategory(children[..n], category) + if children[n].category == category then [children[n].window] else []
  }

  predicate WellFormed(children: seq<Child>) {
    forall i :: 0 <= i < |children| ==> children[i].window.start <= children[i].window.end
  }

  // ---------- exact values ----------

  function Total(children: seq<Child>, category: Category): nat {
    Measure(OfCategory(children, category))
  }

  function Union(children: seq<Child>): nat {
    Measure(Windows(children))
  }

  /** The root's own exclusive time. */
  function Exclusive(duration: nat, children: seq<Child>): nat {
    if Union(children) < duration then duration - Union(children) else 0
  }

  /** The value stamped for a category. */
  function SelfTime(duration: nat, children: seq<Child>, category: Category): nat {
    Total(children, category) + if category == App then Exclusive(duration, children) else 0
  }

  function CategorySum(children: seq<Child>): nat {
    Total(children, Db) + Total(children, Http) + Total(children, Cache) + Total(children, Queue)
    + Total(children, App)
  }

  function SelfTimeSum(duration: nat, children: seq<Child>): nat {
    SelfTime(duration, children, Db) + SelfTime(duration, children, Http) + SelfTime(duration, children, Cache)
    + SelfTime(duration, children, Queue) + SelfTime(duration, children, App)
  }

  function CategoryCover(children: seq<Child>, category: Category): set<int> {
    Cover(OfCategory(children, category))
  }

  predicate Disjoint(a: set<int>, b: set<int>, c: set<int>, d: set<int>, e: set<int>) {
    a !! b && (a + b) !! c && (a + b + c) !! d && (a + b + c + d) !! e
  }

  /** No nanosecond belongs to two categories. */
  predicate Apart(children: seq<Child>) {
    Disjoint(CategoryCover(children, Db), CategoryCover(children, Http), CategoryCover(children, Cache),
             CategoryCover(children, Queue), CategoryCover(children, App))
  }

  // ---------- categories cover the union ----------

  lemma {:induction false} OfCategoryHas(children: seq<Child>, category: Category, iv: Interval)
    ensures iv in OfCategory(children, category) <==> Child(category, iv) in children
  {
    if children == [] {
    } else {
      var n := |children| - 1;
      OfCategoryHas(children[..n], category, iv);
      assert children == children[..n] + [children[n]];
    }
  }

  lemma CoveredByMember(ivs: seq<Interval>, t: int)
    ensures t in Cover(ivs) <==> exists iv :: iv in ivs && Inside(iv, t)
  {
    if t in Cover(ivs) {
      var i :| 0 <= i < |ivs| && Inside(ivs[i], t);
      assert ivs[i] in ivs;
    }
  }

  lemma InCategory(children: seq<Child>, category: Category, t: int)
    ensures t in CategoryCover(children, category) <==>
              exists i :: 0 <= i < |children| && children[i].category == category && Inside(children[i].window, t)
  {
    CoveredByMember(OfCategory(children, category), t);
    if t in CategoryCover(children, category) {
      var iv :| iv in OfCategory(children, category) && Inside(iv, t);
      OfCategoryHas(children, category, iv);
      var i :| 0 <= i < |children| && children[i] == Child(category, iv);
      assert children[i].category == category && Inside(children[i].window, t);
    }
    if exists i :: 0 <= i < |children| && children[i].category == category && Inside(children[i].window, t) {
      var i :| 0 <= i < |children| && children[i].category == category && Inside(children[i].window, t);
      OfCategoryHas(children, category, children[i].window);
    }
  }

  lemma CategoriesCover(children: seq<Child>)
    ensures Cover(Windows(children)) == CategoryCover(children, Db) + CategoryCover(children, Http)
              + CategoryCover(children, Cache) + CategoryCover(children, Queue) + CategoryCover(children, App)
  {
    forall t
      ensures t in Cover(Windows(children)) <==> exists c :: t in CategoryCover(children, c)
    {
      if t in Cover(Windows(children)) { var c := CoveredByCategory(children, t); }
      forall c | t in CategoryCover(children, c) { CategoryIsCovered(children, c, t); }
    }
    hide Cover, CategoryCover;
  }

  lemma CoveredByCategory(children: seq<Child>, t: int) returns (c: Category)
    requires t in Cover(Windows(children))
    ensures t in CategoryCover(children, c)
  {
    var i :| 0 <= i < |children| && Inside(Windows(children)[i], t);
    c := children[i].category;
    InCategory(children, c, t);
  }

  lemma CategoryIsCovered(children: seq<Child>, c: Category, t: int)
    requires t in CategoryCover(children, c)
    ensures t in Cover(Windows(children))
  {
    InCategory(children, c, t);
    var i :| 0 <= i < |children| && children[i].category == c && Inside(children[i].window, t);
    assert Inside(Windows(children)[i], t);
  }

  // ---------- the accounting ----------

  lemma UnionBound(a: set<int>, b: set<int>)
    ensures |a + b| <= |a| + |b| && |a| <= |a + b| && |b| <= |a + b|
    ensures |a + b| == |a| + |b| <==> a !! b
  {
    assert a + b == a + (b - a);
    assert a !! (b - a);
    assert b == (b - a) + (b * a);
    assert (b - a) !! (b * a);
    assert |b| == |b - a| + |b * a|;
    assert b + (a - b) == a + b;
    assert |b * a| == 0 <==> b * a == {};
  }

  lemma FiveSets(a: set<int>, b: set<int>, c: set<int>, d: set<int>, e: set<int>)
    ensures |a + b + c + d + e| <= |a| + |b| + |c| + |d| + |e|
    ensures |a + b + c + d + e| == |a| + |b| + |c| + |d| + |e| <==> Disjoint(a, b, c, d, e)
  {
    UnionBound(a, b);
    UnionBound(a + b, c);
    UnionBound(a + b + c, d);
    UnionBound(a + b + c + d, e);
  }

  lemma CategoryWithin(children: seq<Child>, category: Category)
    ensures Total(children, category) <= Union(children)
  {
    CategoriesCover(children);
    var part, all := CategoryCover(children, category), Cover(Windows(children));
    assert part <= all;
    assert all == part + (all - part);
  }

  /** Each category's union <= the union of all <= the sum of the category unions, with equality at the
      top exactly when no two categories overlap. */
  lemma CategoriesBoundUnion(children: seq<Child>)
    ensures forall c :: Total(children, c) <= Union(children)
    ensures Union(children) <= CategorySum(children)
    ensures Union(children) == CategorySum(children) <==> Apart(children)
  {
    forall c { CategoryWithin(children, c); }
    CategoriesCover(children);
    FiveSets(CategoryCover(children, Db), CategoryCover(children, Http), CategoryCover(children, Cache),
             CategoryCover(children, Queue), CategoryCover(children, App));
  }

  /** The five stamped values total at least the root's duration, and exactly it if and only if the
      children's union is no longer than the root and no two categories overlap. */
  lemma {:induction false} SelfTimesAccountForRoot(duration: nat, children: seq<Child>)
    ensures SelfTimeSum(duration, children) >= duration
    ensures SelfTimeSum(duration, children) == duration <==> Union(children) <= duration && Apart(children)
  {
    CategoriesBoundUnion(children);
    assert SelfTimeSum(duration, children) == CategorySum(children) + Exclusive(duration, children);
  }

  /** Every child runs within the root's window. */
  predicate InRoot(duration: nat, children: seq<Child>) {
    forall i :: 0 <= i < |children| ==> 0 <= children[i].window.start && children[i].window.end <= duration
  }

  /** The nanoseconds of the root that no child covers. */
  function Uncovered(duration: nat, children: seq<Child>): set<int> {
    Nanos(Interval(0, duration)) - Cover(Windows(children))
  }

  /** The exclusive time never exceeds the root's uncovered time, and is exactly that when the children
      lie in the root's window. */
  lemma ExclusiveIsUncovered(duration: nat, children: seq<Child>)
    ensures Exclusive(duration, children) <= |Uncovered(duration, children)|
    ensures InRoot(duration, children) ==>
              Exclusive(duration, children) == |Uncovered(duration, children)| && Union(children) <= duration
  {
    var root, cover := Nanos(Interval(0, duration)), Cover(Windows(children));
    NanosCount(Interval(0, duration));
    if InRoot(duration, children) { CoverInRoot(duration, children); }
    hide Nanos, Cover, InRoot;
    CommonCount(root, cover);
  }

  lemma CommonCount(a: set<int>, b: set<int>)
    ensures |a| - |a - b| == |b| - |b - a| >= 0
    ensures b <= a ==> |b - a| == 0
  {
    assert a == (a - b) + (a * b) && b == (b - a) + (a * b);
    assert |a| == |a - b| + |a * b| && |b| == |b - a| + |a * b|;
    if b <= a { assert b - a == {}; }
  }

  lemma CoverInRoot(duration: nat, children: seq<Child>)
    requires InRoot(duration, children)
    ensures Cover(Windows(children)) <= Nanos(Interval(0, duration))
  {
    forall t | t in Cover(Windows(children)) ensures t in Nanos(Interval(0, duration)) {
      var i :| 0 <= i < |children| && Inside(Windows(children)[i], t);
    }
  }

  lemma SelfTimesExactInRoot(duration: nat, children: seq<Child>)
    requires InRoot(duration, children) && Apart(children)
    ensures SelfTimeSum(duration, children) == duration
  {
    ExclusiveIsUncovered(duration, children);
    SelfTimesAccountForRoot(duration, children);
  }

  // ---------- int64 ----------

  /** The value attachSelfTime stamps, computed in int64 throughout. */
  function Stamped(duration: int, children: seq<Child>, category: Category): int {
    var part := Wrap64(Total(children, category));
    if category != App then part
    else
      var exclusive := Wrap64(duration - Wrap64(Union(children)));
      Wrap64(part + if exclusive < 0 then 0 else exclusive)
  }

  /** A timestamp of a clock that counts from the epoch. */
  predicate Timestamp(t: int) {
    0 <= t < TWO_63
  }

  /** Windows of children whose timestamps, like the root's start, come from such a clock. */
  predicate Clocked(rootStart: int, ivs: seq<Interval>) {
    forall i :: 0 <= i < |ivs| ==> -rootStart <= ivs[i].start <= ivs[i].end < TWO_63 - rootStart
  }

  lemma WindowIsExact(rootStart: int, start: int, end: int)
    requires Timestamp(rootStart) && Timestamp(start) && Timestamp(end)
    ensures Window(rootStart, start, end)
         == Interval(start - rootStart, if end < start then start - rootStart else end - rootStart)
    ensures Clocked(rootStart, [Window(rootStart, start, end)])
  {
  }

  lemma MeasureFits(rootStart: int, ivs: seq<Interval>)
    requires Timestamp(rootStart) && Clocked(rootStart, ivs)
    ensures Measure(ivs) < TWO_63
  {
    var all := Interval(-rootStart, TWO_63 - 1 - rootStart);
    NanosCount(all);
    forall t | t in Cover(ivs) ensures t in Nanos(all) {
      var i :| 0 <= i < |ivs| && Inside(ivs[i], t);
    }
    assert Nanos(all) == Cover(ivs) + (Nanos(all) - Cover(ivs));
  }

  /** No operation of the sweep overflows, whatever prefix it has reached. */
  lemma SweepFits(rootStart: int, ivs: seq<Interval>, n: nat)
    requires Timestamp(rootStart) && Clocked(rootStart, ivs) && Sorted(ivs) && 0 < n <= |ivs|
    ensures var w := Swept(ivs[..n]);
            0 <= w.total < TWO_63 && 0 <= w.curEnd - w.curStart < TWO_63 && 0 <= Length(w) < TWO_63
  {
    SweptExact(ivs[..n]);
    ExactLength(Cover(ivs[..n]), Swept(ivs[..n]));
    MeasureFits(rootStart, ivs[..n]);
  }

  /** With timestamps that are not negative the int64 computation is the exact one. */
  lemma StampedIsExact(rootStart: int, duration: nat, children: seq<Child>, category: Category)
    requires Timestamp(rootStart) && duration < TWO_63 && Clocked(rootStart, Windows(children))
    ensures Stamped(duration, children, category) == SelfTime(duration, children, category)
  {
    MeasureFits(rootStart, Windows(children));
    CategoryWithin(children, category);
  }
}
