/** What UnionLength makes of intervals that end before they start, and exactly when it is still right. */
module InvertedIntervals {
  import opened Intervals

  predicate Inverted(iv: Interval) {
    iv.end < iv.start
  }

  /** An earlier interval of a sorted list reaches the start of w[i]. */
  predicate Reached(w: seq<Interval>, i: nat)
    requires i < |w|
  {
    exists j :: 0 <= j < i && !Inverted(w[j]) && w[i].start <= w[j].end
  }

  /** What the intervals that nothing reaches take away: each counts as a negative length. */
  function Debt(w: seq<Interval>): nat {
    if w == [] then 0 else Debt(w[..|w| - 1]) + LastDebt(w)
  }

  function LastDebt(w: seq<Interval>): nat
    requires w != []
  {
    var iv := w[|w| - 1];
    if Inverted(iv) && !Reached(w, |w| - 1) then iv.start - iv.end else 0
  }

  /** The run of the sweep is the furthest any proper interval went, or lies behind all of them. */
  ghost predicate Tracks(w: seq<Interval>, st: Sweep) {
    && (st.curStart <= st.curEnd ==> exists j :: 0 <= j < |w| && !Inverted(w[j]) && w[j].end == st.curEnd)
    && (forall j :: 0 <= j < |w| && !Inverted(w[j]) ==> w[j].end <= Top(st))
  }

  function Top(st: Sweep): int {
    if st.curStart <= st.curEnd then st.curEnd else st.curStart - 1
  }

  /** The sweep has seen the nanoseconds `c` and owes `d`. */
  ghost predicate Owes(c: set<int>, st: Sweep, d: nat) {
    && (forall t :: t in c ==> t < Top(st) + 1)
    && if st.curStart <= st.curEnd
       then st.total == |c - CurrentRun(st)| - d && CurrentRun(st) <= c && forall t :: t in c ==> t < st.curEnd
       else Length(st) == |c| - d
  }

  lemma OwesLength(c: set<int>, st: Sweep, d: nat)
    requires Owes(c, st, d)
    ensures Length(st) == |c| - d
  {
    if st.curStart <= st.curEnd {
      NanosCount(Interval(st.curStart, st.curEnd));
      assert c == (c - CurrentRun(st)) + CurrentRun(st);
    }
  }

  lemma InvertedIsEmpty(iv: Interval)
    requires Inverted(iv)
    ensures Nanos(iv) == {}
  {
    NanosCount(iv);
  }

  lemma MergeOwesNewRun(c: set<int>, st: Sweep, d: nat, iv: Interval)
    requires Owes(c, st, d) && st.curStart <= iv.start && iv.start > st.curEnd
    ensures Owes(c + Nanos(iv), Merge(st, iv), d + if Inverted(iv) then iv.start - iv.end else 0)
  {
    OwesLength(c, st, d);
    var e := c + Nanos(iv);
    if Inverted(iv) {
      InvertedIsEmpty(iv);
      assert e == c;
    } else {
      assert forall t :: t in c ==> t < iv.start;
      assert e - CurrentRun(Merge(st, iv)) == c;
    }
  }

  lemma MergeOwesSameRun(c: set<int>, st: Sweep, d: nat, iv: Interval)
    requires Owes(c, st, d) && st.curStart <= iv.start <= st.curEnd
    ensures Owes(c + Nanos(iv), Merge(st, iv), d)
  {
    var e := c + Nanos(iv);
    if Inverted(iv) {
      InvertedIsEmpty(iv);
      assert e == c;
    } else {
      assert e - CurrentRun(Merge(st, iv)) == c - CurrentRun(st);
    }
  }

  /** The sweep opens a new run at an interval exactly when nothing before reaches it. */
  lemma NewRunIffNotReached(w: seq<Interval>, st: Sweep)
    requires w != [] && Tracks(w[..|w| - 1], st) && st.curStart <= w[|w| - 1].start
    ensures Reached(w, |w| - 1) <==> w[|w| - 1].start <= st.curEnd
  {
    var rest, iv := w[..|w| - 1], w[|w| - 1];
    if iv.start <= st.curEnd {
      var j :| 0 <= j < |rest| && !Inverted(rest[j]) && rest[j].end == st.curEnd;
      assert w[j] == rest[j];
    }
    if Reached(w, |w| - 1) {
      var j :| 0 <= j < |w| - 1 && !Inverted(w[j]) && iv.start <= w[j].end;
      assert rest[j] == w[j];
    }
  }

  lemma MergeTracks(w: seq<Interval>, st: Sweep)
    requires w != [] && Tracks(w[..|w| - 1], st) && st.curStart <= w[|w| - 1].start
    ensures Tracks(w, Merge(st, w[|w| - 1]))
  {
    var rest, iv := w[..|w| - 1], w[|w| - 1];
    var next := Merge(st, iv);
    if next.curStart <= next.curEnd {
      if next.curEnd == iv.end && !Inverted(iv) {
        assert w[|w| - 1].end == next.curEnd;
      } else {
        var j :| 0 <= j < |rest| && !Inverted(rest[j]) && rest[j].end == st.curEnd;
        assert w[j] == rest[j];
      }
    }
    forall j | 0 <= j < |w| && !Inverted(w[j]) ensures w[j].end <= Top(next) {
      if j < |rest| { assert rest[j] == w[j]; }
    }
  }

  lemma FirstOwes(iv: Interval)
    ensures Owes(Nanos(iv), Sweep(0, iv.start, iv.end), if Inverted(iv) then iv.start - iv.end else 0)
    ensures Tracks([iv], Sweep(0, iv.start, iv.end))
  {
    if Inverted(iv) {
      InvertedIsEmpty(iv);
    } else {
      assert Nanos(iv) - Nanos(iv) == {};
      assert [iv][0].end == iv.end;
    }
  }

  lemma StepOwes(w: seq<Interval>, st: Sweep, d: nat)
    requires w != [] && Tracks(w[..|w| - 1], st) && st.curStart <= w[|w| - 1].start
    requires Owes(Cover(w[..|w| - 1]), st, d)
    ensures Owes(Cover(w), Merge(st, w[|w| - 1]), d + LastDebt(w))
    ensures Merge(st, w[|w| - 1]).curStart <= w[|w| - 1].start
  {
    hide Owes, Tracks, Cover, Reached;
    var rest, iv := w[..|w| - 1], w[|w| - 1];
    NewRunIffNotReached(w, st);
    CoverStep(w);
    if iv.start > st.curEnd {
      MergeOwesNewRun(Cover(rest), st, d, iv);
    } else {
      MergeOwesSameRun(Cover(rest), st, d, iv);
    }
  }

  lemma CoverStep(w: seq<Interval>)
    requires w != []
    ensures Cover(w) == Cover(w[..|w| - 1]) + Nanos(w[|w| - 1])
  {
  }

  lemma {:induction false} SweptOwes(w: seq<Interval>)
    requires w != [] && Sorted(w)
    ensures Owes(Cover(w), Swept(w), Debt(w)) && Tracks(w, Swept(w))
    ensures Swept(w).curStart <= w[|w| - 1].start
  {
    hide Owes, Tracks, Cover, LastDebt, Merge;
    if |w| == 1 {
      FirstOwes(w[0]);
      FirstStep(w[0]);
      OneDebt(w[0]);
      assert w == [w[0]] && w[..0] == [];
    } else {
      var rest, iv := w[..|w| - 1], w[|w| - 1];
      SweptOwes(rest);
      assert rest[|rest| - 1].start <= iv.start;
      MergeTracks(w, Swept(rest));
      StepOwes(w, Swept(rest), Debt(rest));
    }
  }

  lemma OneDebt(iv: Interval)
    ensures Debt([iv]) == if Inverted(iv) then iv.start - iv.end else 0
  {
    assert [iv][..0] == [];
  }

  /** What the sweep finds over any sorted list, proper or not. */
  lemma {:induction false} SweepIsMeasureLessDebt(w: seq<Interval>)
    requires Sorted(w)
    ensures SweepLength(w) == Measure(w) - Debt(w)
  {
    if w == [] {
      assert Cover(w) == {};
    } else {
      SweptOwes(w);
      OwesLength(Cover(w), Swept(w), Debt(w));
    }
  }

  lemma {:induction false} DebtIsZero(w: seq<Interval>)
    ensures Debt(w) == 0 <==> forall i :: 0 <= i < |w| && Inverted(w[i]) ==> Reached(w, i)
  {
    if w == [] {
    } else {
      var rest := w[..|w| - 1];
      DebtIsZero(rest);
      forall i | 0 <= i < |rest| ensures Reached(rest, i) <==> Reached(w, i) { ReachedInFront(w, i); }
    }
  }

  lemma ReachedInFront(w: seq<Interval>, i: nat)
    requires i < |w| - 1
    ensures Reached(w[..|w| - 1], i) <==> Reached(w, i)
  {
    var rest := w[..|w| - 1];
    assert forall j :: 0 <= j <= i ==> rest[j] == w[j];
  }

  // ---------- for any list, and any way the sort may break ties ----------

  /** Every interval that ends before it starts has its start in the reach of one that starts earlier. */
  predicate Sheltered(ivs: seq<Interval>) {
    forall i :: 0 <= i < |ivs| && Inverted(ivs[i]) ==> ShelteredAt(ivs, ivs[i].start)
  }

  predicate ShelteredAt(ivs: seq<Interval>, s: int) {
    exists j :: 0 <= j < |ivs| && ivs[j].start < s <= ivs[j].end
  }

  predicate IsSortOf(w: seq<Interval>, ivs: seq<Interval>) {
    Sorted(w) && multiset(w) == multiset(ivs)
  }

  lemma Place(a: seq<Interval>, b: seq<Interval>, i: nat) returns (j: nat)
    requires multiset(a) == multiset(b) && i < |a|
    ensures j < |b| && b[j] == a[i]
  {
    assert a[i] in multiset(b);
    j :| 0 <= j < |b| && b[j] == a[i];
  }

  lemma ShelteredHasNoDebt(ivs: seq<Interval>, w: seq<Interval>)
    requires Sheltered(ivs) && IsSortOf(w, ivs)
    ensures Debt(w) == 0
  {
    forall i | 0 <= i < |w| && Inverted(w[i]) ensures Reached(w, i) {
      var k := Place(w, ivs, i);
      assert ShelteredAt(ivs, ivs[k].start);
      var j :| 0 <= j < |ivs| && ivs[j].start < w[i].start <= ivs[j].end;
      var m := Place(ivs, w, j);
      assert m < i;
    }
    DebtIsZero(w);
  }

  /** Puts an interval in front of all that start with it or later. */
  function Inserted(w: seq<Interval>, iv: Interval): seq<Interval> {
    if w == [] || iv.start <= w[0].start then [iv] + w else [w[0]] + Inserted(w[1..], iv)
  }

  lemma {:induction false} InsertedSorted(w: seq<Interval>, iv: Interval) returns (i: nat)
    requires Sorted(w)
    ensures Sorted(Inserted(w, iv)) && multiset(Inserted(w, iv)) == multiset(w) + multiset{iv}
    ensures i < |Inserted(w, iv)| && Inserted(w, iv)[i] == iv
    ensures forall j :: 0 <= j < i ==> Inserted(w, iv)[j].start < iv.start
  {
    if w == [] || iv.start <= w[0].start {
      i := 0;
      FrontSorted(w, iv);
    } else {
      var rest := w[1..];
      assert w == [w[0]] + rest;
      var k := InsertedSorted(rest, iv);
      FrontIsLeast(w[0], rest, iv);
      i := k + 1;
      AllBefore(w[0], Inserted(rest, iv), k, iv.start);
    }
  }

  lemma AllBefore(first: Interval, u: seq<Interval>, k: nat, s: int)
    requires k < |u| && first.start < s && forall j :: 0 <= j < k ==> u[j].start < s
    ensures forall j :: 0 <= j < k + 1 ==> ([first] + u)[j].start < s
  {
  }

  lemma FrontSorted(w: seq<Interval>, iv: Interval)
    requires Sorted(w) && (w == [] || iv.start <= w[0].start)
    ensures Sorted([iv] + w)
  {
  }

  lemma FrontIsLeast(first: Interval, rest: seq<Interval>, iv: Interval)
    requires Sorted([first] + rest) && first.start < iv.start
    requires Sorted(Inserted(rest, iv)) && multiset(Inserted(rest, iv)) == multiset(rest) + multiset{iv}
    ensures Sorted([first] + Inserted(rest, iv))
  {
    var u := Inserted(rest, iv);
    forall j | 0 <= j < |u| ensures first.start <= u[j].start {
      assert u[j] in multiset(u);
      if u[j] != iv {
        assert u[j] in multiset(rest);
        var m :| 0 <= m < |rest| && rest[m] == u[j];
        var w := [first] + rest;
        assert w[m + 1] == u[j] && w[0].start <= w[m + 1].start;
      }
    }
  }

  lemma {:induction false} SomeSort(ivs: seq<Interval>) returns (w: seq<Interval>)
    ensures IsSortOf(w, ivs)
  {
    if ivs == [] {
      w := [];
    } else {
      var u := SomeSort(ivs[1..]);
      var i := InsertedSorted(u, ivs[0]);
      w := Inserted(u, ivs[0]);
      assert ivs == [ivs[0]] + ivs[1..];
    }
  }

  /** A sort that puts ivs[k] first among the intervals with its start. */
  lemma SortWithFirst(ivs: seq<Interval>, k: nat) returns (w: seq<Interval>, i: nat)
    requires k < |ivs|
    ensures IsSortOf(w, ivs)
    ensures i < |w| && w[i] == ivs[k] && forall j :: 0 <= j < i ==> w[j].start < w[i].start
  {
    var others := ivs[..k] + ivs[k + 1..];
    var u := SomeSort(others);
    i := InsertedSorted(u, ivs[k]);
    w := Inserted(u, ivs[k]);
    assert ivs == ivs[..k] + ([ivs[k]] + ivs[k + 1..]);
  }

  lemma ReachedIsSheltered(ivs: seq<Interval>, w: seq<Interval>, i: nat)
    requires multiset(w) == multiset(ivs) && i < |w| && Reached(w, i)
    requires forall j :: 0 <= j < i ==> w[j].start < w[i].start
    ensures ShelteredAt(ivs, w[i].start)
  {
    var j :| 0 <= j < i && !Inverted(w[j]) && w[i].start <= w[j].end;
    var m := Place(w, ivs, j);
    assert ivs[m].start < w[i].start <= ivs[m].end;
  }

  lemma UnshelteredCanOwe(ivs: seq<Interval>) returns (w: seq<Interval>)
    requires !Sheltered(ivs)
    ensures IsSortOf(w, ivs) && Debt(w) > 0
  {
    var k :| 0 <= k < |ivs| && Inverted(ivs[k]) && !ShelteredAt(ivs, ivs[k].start);
    var i;
    w, i := SortWithFirst(ivs, k);
    if Reached(w, i) { ReachedIsSheltered(ivs, w, i); }
    DebtIsZero(w);
  }

  /** The sweep is the measure of the union for every order an unstable sort can leave exactly when the
      intervals that end before they start are sheltered; otherwise it can fall short, never exceed. */
  lemma SweepIsRightIffSheltered(ivs: seq<Interval>)
    ensures (forall w :: IsSortOf(w, ivs) ==> SweepLength(w) == Measure(ivs)) <==> Sheltered(ivs)
    ensures forall w :: IsSortOf(w, ivs) ==> SweepLength(w) <= Measure(ivs)
  {
    forall w | IsSortOf(w, ivs) ensures SweepLength(w) == Measure(ivs) - Debt(w) {
      SweepIsMeasureLessDebt(w);
      CoverOfSame(w, ivs);
    }
    if Sheltered(ivs) {
      forall w | IsSortOf(w, ivs) ensures Debt(w) == 0 { ShelteredHasNoDebt(ivs, w); }
    } else {
      var w := UnshelteredCanOwe(ivs);
      assert IsSortOf(w, ivs);
    }
  }
}
