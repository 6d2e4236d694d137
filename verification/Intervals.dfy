/** The sweep of intervals.go computes the true measure of a union of intervals. */
module Intervals {

  /** A [Start, End] pair in nanoseconds. */
  datatype Interval = Interval(start: int, end: int)

  // ---------- int64 ----------

  const TWO_63: int := 0x8000_0000_0000_0000
  const TWO_64: int := 0x1_0000_0000_0000_0000

  predicate InInt64(x: int) {
    -TWO_63 <= x < TWO_63
  }

  /** Go's int64 result of an operation whose exact result is `x`: the representable number that differs
      from `x` by a multiple of 2^64. */
  function Wrap64(x: int): (r: int)
    ensures InInt64(r)
    ensures InInt64(x) ==> r == x
    decreases if x < 0 then -2 * x - 1 else 2 * x + 1
  {
    if x < -TWO_63 then Wrap64(x + TWO_64)
    else if x >= TWO_63 then Wrap64(x - TWO_64)
    else x
  }

  lemma WrapOff(x: int) returns (k: int)
    ensures x == Wrap64(x) + k * TWO_64
    decreases if x < 0 then -2 * x - 1 else 2 * x + 1
  {
    if x < -TWO_63 {
      k := WrapOff(x + TWO_64);
      k := k - 1;
    } else if x >= TWO_63 {
      k := WrapOff(x - TWO_64);
      k := k + 1;
    } else {
      k := 0;
    }
  }

  lemma {:induction false} WrapIs(x: int, r: int, k: int)
    requires InInt64(r) && x == r + k * TWO_64
    ensures Wrap64(x) == r
    decreases if k < 0 then -k else k
  {
    if k > 0 {
      WrapIs(x - TWO_64, r, k - 1);
    } else if k < 0 {
      WrapIs(x + TWO_64, r, k + 1);
    }
  }

  /** Wrapping each operand and then the sum is wrapping the exact sum. */
  lemma WrapAdds(x: int, y: int)
    ensures Wrap64(Wrap64(x) + Wrap64(y)) == Wrap64(x + y)
  {
    var i := WrapOff(x);
    var j := WrapOff(y);
    var k := WrapOff(Wrap64(x) + Wrap64(y));
    var r := Wrap64(Wrap64(x) + Wrap64(y));
    assert x + y == r + (i + j + k) * TWO_64;
    WrapIs(x + y, r, i + j + k);
  }

  // ---------- the measure of a union ----------

  predicate Inside(iv: Interval, t: int) {
    iv.start <= t < iv.end
  }

  /** The nanoseconds t with start <= t < end. */
  function Nanos(iv: Interval): (r: set<int>)
    ensures forall t :: t in r <==> Inside(iv, t)
  {
    set t | iv.start <= t < iv.end && Inside(iv, t)
  }

  /** The nanoseconds inside some interval. */
  function Cover(ivs: seq<Interval>): (r: set<int>)
    ensures forall t :: t in r <==> exists i :: 0 <= i < |ivs| && Inside(ivs[i], t)
  {
    if ivs == [] then {} else Cover(ivs[..|ivs| - 1]) + Nanos(ivs[|ivs| - 1])
  }

  function Measure(ivs: seq<Interval>): nat {
    |Cover(ivs)|
  }

  lemma {:induction false} NanosCount(iv: Interval)
    ensures |Nanos(iv)| == if iv.start <= iv.end then iv.end - iv.start else 0
    decreases if iv.start <= iv.end then iv.end - iv.start else 0
  {
    if iv.start < iv.end {
      var shorter := Interval(iv.start, iv.end - 1);
      NanosCount(shorter);
      assert Nanos(iv) == Nanos(shorter) + {iv.end - 1};
    } else {
      assert Nanos(iv) == {};
    }
  }

  /** The order and the multiplicity of the intervals do not matter. */
  lemma CoverOfSame(a: seq<Interval>, b: seq<Interval>)
    requires multiset(a) == multiset(b)
    ensures Cover(a) == Cover(b)
  {
    forall t | t in Cover(a) ensures t in Cover(b) { SameElements(a, b, t); }
    forall t | t in Cover(b) ensures t in Cover(a) { SameElements(b, a, t); }
  }

  lemma SameElements(a: seq<Interval>, b: seq<Interval>, t: int)
    requires multiset(a) == multiset(b) && t in Cover(a)
    ensures t in Cover(b)
  {
    var i :| 0 <= i < |a| && Inside(a[i], t);
    assert a[i] in multiset(b);
    var j :| 0 <= j < |b| && b[j] == a[i];
  }

  // ---------- the sweep ----------

  predicate Sorted(ivs: seq<Interval>) {
    forall i, j :: 0 <= i < j < |ivs| ==> ivs[i].start <= ivs[j].start
  }

  predicate Proper(ivs: seq<Interval>) {
    forall i :: 0 <= i < |ivs| ==> ivs[i].start <= ivs[i].end
  }

  /** The state of the sweep: what it has banked and the run it is in. */
  datatype Sweep = Sweep(total: int, curStart: int, curEnd: int)

  /** One round of the loop, in exact arithmetic. */
  function Merge(w: Sweep, iv: Interval): Sweep {
    if iv.start > w.curEnd then Sweep(w.total + (w.curEnd - w.curStart), iv.start, iv.end)
    else if iv.end > w.curEnd then w.(curEnd := iv.end)
    else w
  }

  function Swept(ivs: seq<Interval>): Sweep
    requires ivs != []
  {
    if |ivs| == 1 then Sweep(0, ivs[0].start, ivs[0].end)
    else Merge(Swept(ivs[..|ivs| - 1]), ivs[|ivs| - 1])
  }

  function Length(w: Sweep): int {
    w.total + (w.curEnd - w.curStart)
  }

  /** The result of the sweep over a list already in order. */
  function SweepLength(ivs: seq<Interval>): int {
    if ivs == [] then 0 else Length(Swept(ivs))
  }

  /** The run a sweep is in. */
  function CurrentRun(w: Sweep): set<int> {
    Nanos(Interval(w.curStart, w.curEnd))
  }

  /** What the sweep knows of the nanoseconds `c` it has seen: those outside the current run are banked,
      and none lies after the current run. */
  ghost predicate Exact(c: set<int>, w: Sweep) {
    && w.curStart <= w.curEnd
    && w.total == |c - CurrentRun(w)|
    && CurrentRun(w) <= c
    && forall t :: t in c ==> t < w.curEnd
  }

  lemma ExactLength(c: set<int>, w: Sweep)
    requires Exact(c, w)
    ensures Length(w) == |c|
  {
    NanosCount(Interval(w.curStart, w.curEnd));
    assert c == (c - CurrentRun(w)) + CurrentRun(w);
  }

  lemma MergeExact(c: set<int>, w: Sweep, iv: Interval)
    requires Exact(c, w) && iv.start <= iv.end && w.curStart <= iv.start
    ensures Exact(c + Nanos(iv), Merge(w, iv))
  {
    var d := c + Nanos(iv);
    if iv.start > w.curEnd {
      ExactLength(c, w);
      assert d - CurrentRun(Merge(w, iv)) == c;
    } else {
      assert d - CurrentRun(Merge(w, iv)) == c - CurrentRun(w);
    }
  }

  lemma SingleExact(iv: Interval)
    requires iv.start <= iv.end
    ensures Exact(Nanos(iv), Sweep(0, iv.start, iv.end))
  {
    assert Nanos(iv) - Nanos(iv) == {};
  }

  lemma LastStep(ivs: seq<Interval>)
    requires |ivs| > 1
    ensures Swept(ivs) == Merge(Swept(ivs[..|ivs| - 1]), ivs[|ivs| - 1])
    ensures Cover(ivs) == Cover(ivs[..|ivs| - 1]) + Nanos(ivs[|ivs| - 1])
  {
  }

  lemma FirstStep(iv: Interval)
    ensures Cover([iv]) == Nanos(iv)
  {
    assert [iv][..0] == [];
    assert Cover([iv]) == Cover([]) + Nanos(iv);
  }

  lemma {:induction false} SweptExact(ivs: seq<Interval>)
    requires ivs != [] && Sorted(ivs) && Proper(ivs)
    ensures Exact(Cover(ivs), Swept(ivs))
    ensures Swept(ivs).curStart <= ivs[|ivs| - 1].start
  {
    hide Exact, Cover;
    if |ivs| == 1 {
      SingleExact(ivs[0]);
      FirstStep(ivs[0]);
      assert ivs == [ivs[0]];
    } else {
      var rest, last := ivs[..|ivs| - 1], ivs[|ivs| - 1];
      SweptExact(rest);
      assert rest[|rest| - 1].start <= last.start;
      MergeExact(Cover(rest), Swept(rest), last);
      LastStep(ivs);
    }
  }

  /** Over any sorted list of proper intervals the sweep finds the measure of their union. */
  lemma SweepMeasures(ivs: seq<Interval>)
    requires Sorted(ivs) && Proper(ivs)
    ensures SweepLength(ivs) == Measure(ivs)
  {
    if ivs == [] {
      assert Cover(ivs) == {};
    } else {
      SweptExact(ivs);
      ExactLength(Cover(ivs), Swept(ivs));
    }
  }

  // ---------- the method ----------

  /** sort.Slice by start. Equal starts may come out in either order. */
  method SortByStart(a: array<Interval>)
    modifies a
    ensures Sorted(a[..])
    ensures multiset(a[..]) == multiset(old(a[..]))
  {
    var n := 0;
    while n < a.Length
      invariant 0 <= n <= a.Length
      invariant Sorted(a[..n])
      invariant multiset(a[..]) == multiset(old(a[..]))
    {
      Insert(a, n);
      n := n + 1;
    }
    assert a[..n] == a[..];
  }

  /** Moves a[n] down to its place among the sorted a[..n]. */
  method Insert(a: array<Interval>, n: nat)
    requires n < a.Length && Sorted(a[..n])
    modifies a
    ensures Sorted(a[..n + 1])
    ensures multiset(a[..]) == multiset(old(a[..]))
  {
    var k := n;
    while k > 0 && a[k - 1].start > a[k].start
      invariant 0 <= k <= n
      invariant SortedBut(a[..n + 1], k)
      invariant multiset(a[..]) == multiset(old(a[..]))
    {
      SwapDown(a, k, n);
      k := k - 1;
    }
  }

  /** Sorted, except that element k may be too small for its place. */
  predicate SortedBut(s: seq<Interval>, k: int) {
    forall i, j :: 0 <= i < j < |s| && j != k ==> s[i].start <= s[j].start
  }

  method SwapDown(a: array<Interval>, k: nat, n: nat)
    requires 0 < k <= n < a.Length && a[k - 1].start > a[k].start && SortedBut(a[..n + 1], k)
    modifies a
    ensures SortedBut(a[..n + 1], k - 1)
    ensures multiset(a[..]) == multiset(old(a[..]))
  {
    ghost var s := a[..n + 1];
    a[k - 1], a[k] := a[k], a[k - 1];
    assert a[..n + 1] == s[k - 1 := s[k]][k := s[k - 1]];
  }

  lemma SweptStep(w: seq<Interval>, i: nat)
    requires 0 < i < |w|
    ensures Swept(w[..i + 1]) == Merge(Swept(w[..i]), w[i])
  {
    assert w[..i + 1][..i] == w[..i];
  }

  lemma SweptStart(w: seq<Interval>)
    requires w != []
    ensures Swept(w[..1]) == Sweep(0, w[0].start, w[0].end)
  {
  }

  /** The loop of UnionLength, with every addition and subtraction in int64. */
  method SweepSorted(sorted: array<Interval>) returns (total: int)
    requires sorted.Length > 0
    ensures total == Wrap64(SweepLength(sorted[..]))
  {
    ghost var w := sorted[..];
    total := 0;
    var curStart, curEnd := sorted[0].start, sorted[0].end;
    SweptStart(w);
    assert w[..sorted.Length] == w;
    hide Swept, Wrap64;
    for i := 1 to sorted.Length
      invariant Swept(w[..i]).curStart == curStart && Swept(w[..i]).curEnd == curEnd
      invariant total == Wrap64(Swept(w[..i]).total)
    {
      var s, e := sorted[i].start, sorted[i].end;
      SweptStep(w, i);
      WrapAdds(Swept(w[..i]).total, curEnd - curStart);
      if s > curEnd {
        total := Wrap64(total + Wrap64(curEnd - curStart));
        curStart, curEnd := s, e;
      } else if e > curEnd {
        curEnd := e;
      }
    }
    WrapAdds(Swept(w).total, curEnd - curStart);
    total := Wrap64(total + Wrap64(curEnd - curStart));
  }

  /** UnionLength: the caller's intervals are copied, the copy is sorted, and one pass merges it. */
  method UnionLength(intervals: array<Interval>) returns (total: int)
    ensures exists w :: multiset(w) == multiset(intervals[..]) && Sorted(w) && total == Wrap64(SweepLength(w))
    ensures Proper(intervals[..]) ==> total == Wrap64(Measure(intervals[..]))
  {
    if intervals.Length == 0 {
      ghost var w := intervals[..];
      assert w == [] && Sorted(w) && Wrap64(SweepLength(w)) == 0;
      SweepOfSame(w, w);
      return 0;
    }
    var sorted := new Interval[intervals.Length](i requires 0 <= i < intervals.Length reads intervals => intervals[i]);
    assert sorted[..] == intervals[..];
    SortByStart(sorted);
    total := SweepSorted(sorted);
    SweepOfSame(intervals[..], sorted[..]);
  }

  /** The measure does not depend on how the sort broke ties. */
  lemma SweepOfSame(ivs: seq<Interval>, w: seq<Interval>)
    requires multiset(w) == multiset(ivs) && Sorted(w)
    ensures Proper(ivs) ==> SweepLength(w) == Measure(ivs)
  {
    if Proper(ivs) {
      ProperOfSame(ivs, w);
      SweepMeasures(w);
      CoverOfSame(ivs, w);
    }
  }

  lemma ProperOfSame(a: seq<Interval>, b: seq<Interval>)
    requires multiset(a) == multiset(b) && Proper(a)
    ensures Proper(b)
  {
    forall i | 0 <= i < |b| ensures b[i].start <= b[i].end {
      assert b[i] in multiset(a);
    }
  }
}
