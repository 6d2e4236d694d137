/** What the collapsing passes make of a tuple of placeholders, and of two such rows. */
module SqlRows {
  import opened Ascii
  import opened Sql
  import opened SqlTemplate
  import opened SqlBlocks
  import opened SqlGrouping
  import opened SqlLists
  import opened SqlCollapse

  // ---------- tuples of placeholders ----------

  /** What a tuple of placeholders is made of behind its bracket. */
  predicate Inner(c: char) {
    c == '?' || c == ',' || c == ')' || IsBlank(c)
  }

  predicate AllInner(s: string) {
    forall i :: 0 <= i < |s| ==> Inner(s[i])
  }

  /** A tuple of placeholders. */
  ghost predicate HoleRow(b: string) {
    TupleHere(b) && AllInner(b[1..]) && b[|b| - 1] == ')'
  }

  /** The same without blanks around a lone placeholder: then it is `(?)`, and a longer one is collapsed. */
  ghost predicate HoleTuple(b: string) {
    HoleRow(b) && (b == "(?)" || forall q: string :: TupleMultiLen(b + q) == |b|)
  }

  predicate AllHoles(cells: seq<Cell>) {
    forall i :: 0 <= i < |cells| ==> IsCell(cells[i]) && cells[i].value == "?"
  }

  lemma BlankRunThen(w: string, z: string)
    requires AllBlank(w) && z != "" && !IsBlank(z[0])
    ensures BlankRun(w + z) == |w|
    ensures (w + z)[|w|..] == z && (w + z)[|w|] == z[0]
  {
    BlankRunOver(w, z);
    assert BlankRun(w) == |w|;
  }

  lemma SeparatorThen(w: string, v: string, z: string)
    requires AllBlank(w) && AllBlank(v) && z != "" && !IsBlank(z[0])
    ensures SeparatorLen(w + ("," + (v + z))) == |w| + 1 + |v|
    ensures (w + ("," + (v + z)))[|w| + 1 + |v|..] == z
  {
    BlankRunThen(w, "," + (v + z));
    BlankRunThen(v, z);
    hide BlankRun;
    assert (w + ("," + (v + z)))[|w| + 1..] == v + z;
  }

  lemma CloseThen(w: string, q: string)
    requires AllBlank(w)
    ensures CloseLen(w + (")" + q)) == |w| + 1 && SeparatorLen(w + (")" + q)) == 0
  {
    BlankRunThen(w, ")" + q);
    hide BlankRun;
  }

  lemma LastHere(cells: seq<Cell>, q: string)
    requires |cells| == 1 && AllHoles(cells)
    ensures TupleTail(TailText(cells) + q) == |TailText(cells)| && SeparatorLen(TailText(cells) + q) == 0
  {
    var w := cells[0].after;
    hide SeparatorLen, CloseLen;
    CloseThen(w, q);
    assert TailText(cells) + q == w + (")" + q);
  }

  lemma LaterHere(cells: seq<Cell>, q: string)
    requires |cells| > 1 && AllHoles(cells) && TupleTail(TailText(cells[1..]) + q) == |TailText(cells[1..])|
    ensures TupleTail(TailText(cells) + q) == |TailText(cells)| && SeparatorLen(TailText(cells) + q) > 0
  {
    hide SeparatorLen, TailText, TupleTail, AllBlank;
    var w, v, t := cells[0].after, cells[1].before, TailText(cells[1..]) + q;
    TailSplits(cells, q);
    CommaThen(w, v, t);
  }

  lemma CommaThen(w: string, v: string, t: string)
    requires AllBlank(w) && AllBlank(v) && TupleTail(t) > 0
    ensures SeparatorLen(w + ("," + (v + ("?" + t)))) > 0
    ensures TupleTail(w + ("," + (v + ("?" + t)))) == |w| + 1 + |v| + 1 + TupleTail(t)
  {
    hide *;
    CommaAndHole(w, v, t);
    TailGoesTo(w + ("," + (v + ("?" + t))), |w| + 1 + |v|, t);
  }

  lemma TailGoesTo(s: string, k: nat, t: string)
    requires SeparatorLen(s) == k > 0 && HoleAt(s, k) && s[k + 1..] == t && TupleTail(t) > 0
    ensures TupleTail(s) == k + 1 + TupleTail(t)
  {
    hide *;
    TailGoes(s, k);
  }

  lemma CommaAndHole(w: string, v: string, t: string)
    requires AllBlank(w) && AllBlank(v)
    ensures var s, k := w + ("," + (v + ("?" + t))), |w| + 1 + |v|;
      SeparatorLen(s) == k && HoleAt(s, k) && s[k + 1..] == t
  {
    hide SeparatorLen, AllBlank;
    SeparatorThen(w, v, "?" + t);
    HoleBehind(w + ("," + (v + ("?" + t))), |w| + 1 + |v|, t);
  }

  lemma HoleBehind(s: string, k: nat, t: string)
    requires k <= |s| && s[k..] == "?" + t
    ensures HoleAt(s, k) && s[k + 1..] == t
  {
    assert s[k..][0] == '?' && s[k..][1..] == t;
  }

  lemma {:induction false} TailHere(cells: seq<Cell>, q: string)
    requires cells != [] && AllHoles(cells)
    ensures TupleTail(TailText(cells) + q) == |TailText(cells)|
    ensures SeparatorLen(TailText(cells) + q) > 0 <==> |cells| > 1
    decreases |cells|
  {
    hide SeparatorLen, TailText, TupleTail;
    if |cells| == 1 {
      LastHere(cells, q);
    } else {
      TailHere(cells[1..], q);
      LaterHere(cells, q);
    }
  }

  lemma TailSplits(cells: seq<Cell>, q: string)
    requires |cells| > 1 && AllHoles(cells)
    ensures TailText(cells) + q
         == cells[0].after + ("," + (cells[1].before + ("?" + (TailText(cells[1..]) + q))))
    ensures |TailText(cells)| == |cells[0].after| + 1 + |cells[1].before| + 1 + |TailText(cells[1..])|
  {
  }

  lemma HeadHere(cells: seq<Cell>, q: string)
    requires cells != [] && AllHoles(cells)
    ensures var h := TupleHead(TupleText(cells) + q);
      h == |cells[0].before| + 2 && (TupleText(cells) + q)[h..] == TailText(cells) + q
    ensures |TupleText(cells)| == |cells[0].before| + 2 + |TailText(cells)|
  {
    var w := cells[0].before;
    var z := "?" + (TailText(cells) + q);
    hide TailText, BlankRun;
    assert TupleText(cells) + q == "(" + (w + z);
    HeadThen(w, TailText(cells) + q);
  }

  lemma HeadThen(w: string, t: string)
    requires AllBlank(w)
    ensures var s := "(" + (w + ("?" + t)); TupleHead(s) == |w| + 2 && s[|w| + 2..] == t
  {
    var z := "?" + t;
    BlankRunThen(w, z);
    hide BlankRun;
    assert ("(" + (w + z))[1..] == w + z;
    assert (w + z)[|w|..][1..] == t;
  }

  lemma TupleTextHere(cells: seq<Cell>, q: string)
    requires cells != [] && AllHoles(cells)
    ensures TupleLen(TupleText(cells) + q) == |TupleText(cells)|
    ensures |cells| > 1 ==> TupleMultiLen(TupleText(cells) + q) == |TupleText(cells)|
  {
    hide TupleHead, TupleTail, SeparatorLen, TailText, TupleText, AllHoles;
    HeadHere(cells, q);
    TailHere(cells, q);
  }

  lemma {:induction false} TailInner(cells: seq<Cell>)
    requires cells != [] && AllHoles(cells)
    ensures AllInner(TailText(cells))
    decreases |cells|
  {
    if |cells| == 1 {
    } else {
      TailInner(cells[1..]);
      TailSplits(cells, "");
      assert TailText(cells) + "" == TailText(cells);
    }
  }

  lemma HoleRowText(cells: seq<Cell>)
    requires IsTuple(cells) && AllHoles(cells)
    ensures HoleRow(TupleText(cells))
  {
    TupleInner(cells);
    hide TupleText, TupleLen, AllHoles, IsTuple, AllInner;
    var b := TupleText(cells);
    forall q: string ensures TupleLen(b + q) == |b| { TupleTextHere(cells, q); }
  }

  lemma TupleInner(cells: seq<Cell>)
    requires IsTuple(cells) && AllHoles(cells)
    ensures AllInner(TupleText(cells)[1..])
  {
    TailInner(cells);
    hide TailText;
    assert TupleText(cells)[1..] == cells[0].before + ("?" + TailText(cells));
  }

  lemma HoleTupleText(cells: seq<Cell>)
    requires IsTuple(cells) && AllHoles(cells) && !Padded(cells)
    ensures HoleTuple(TupleText(cells))
  {
    var b := TupleText(cells);
    HoleRowText(cells);
    if |cells| == 1 {
      assert TailText(cells) == ")" && ValueText(cells) == "?)";
    } else {
      hide TupleText, TupleMultiLen, IsTuple, AllHoles;
      forall q: string ensures TupleMultiLen(b + q) == |b| { TupleTextHere(cells, q); }
    }
  }

  // ---------- the collapsing passes on one tuple ----------

  /** No match of the pass starts at this character. */
  predicate Passive(pass: Pass, c: char) {
    match pass
    case InList => c != 'i' && c != 'I'
    case TuplesMany => c != '('
    case TupleMulti => c != '('
    case _ => false
  }

  predicate AllPassive(pass: Pass, s: string) {
    forall i :: 0 <= i < |s| ==> Passive(pass, s[i])
  }

  lemma NoMatchAtPassive(pass: Pass, inWord: bool, s: string)
    requires s != "" && Passive(pass, s[0])
    ensures MatchLen(pass, inWord, s) == 0
  {
    hide TupleTail, SeparatorLen, MoreTuples;
  }

  lemma {:induction false} CopyPassive(pass: Pass, inWord: bool, s: string, q: string)
    requires AllPassive(pass, s)
    ensures ReplaceAll(pass, inWord, s + q) == s + ReplaceAll(pass, EndsInWord(inWord, s), q)
    decreases |s|
  {
    hide MatchLen, Passive, IsWord, ReplaceAll;
    if s == "" {
      assert s + q == q;
    } else {
      var t := s[1..];
      NoMatchAtPassive(pass, inWord, s + q);
      ScanStep(pass, inWord, s + q);
      CopyPassive(pass, IsWord(s[0]), t, q);
      assert (s + q)[1..] == t + q;
      assert EndsInWord(IsWord(s[0]), t) == EndsInWord(inWord, s);
      assert [s[0]] + t == s;
      PrefixedText([s[0]], t, ReplaceAll(pass, EndsInWord(inWord, s), q));
    }
  }

  lemma InnerIsPassive(pass: Pass, s: string)
    requires Collapsing(pass) && AllInner(s)
    ensures AllPassive(pass, s)
  {
  }

  /** A tuple that is not matched is copied. */
  lemma CopyTuple(pass: Pass, inWord: bool, b: string, q: string)
    requires Collapsing(pass) && Opens(b) && AllInner(b[1..]) && b[|b| - 1] == ')'
    requires MatchLen(pass, inWord, b + q) == 0
    ensures ReplaceAll(pass, inWord, b + q) == b + ReplaceAll(pass, false, q)
  {
    hide MatchLen, Collapsing, AllInner, AllPassive, ReplaceAll;
    var t := b[1..];
    InnerIsPassive(pass, t);
    ScanStep(pass, inWord, b + q);
    CopyPassive(pass, false, t, q);
    assert (b + q)[1..] == t + q;
    assert [b[0]] + t == b && t[|t| - 1] == ')';
    PrefixedText([b[0]], t, ReplaceAll(pass, false, q));
  }

  lemma InListAtTuple(inWord: bool, b: string, q: string)
    requires HoleRow(b)
    ensures ReplaceAll(InList, inWord, b + q) == b + ReplaceAll(InList, false, q)
  {
    NoMatchAtPassive(InList, inWord, b + q);
    hide MatchLen, TupleHere;
    OpensTuple(b);
    CopyTuple(InList, inWord, b, q);
  }

  lemma OpensTuple(b: string)
    requires TupleHere(b)
    ensures Opens(b)
  {
  }

  lemma BlockEnds(b: string, q: string, k: nat)
    requires b != "" && k <= |q|
    ensures var s, n := b + q, |b| + k;
      n <= |s| && s[n..] == q[k..] && (b[|b| - 1] == ')' ==> IsWord(s[n - 1]) == (k > 0 && IsWord(q[k - 1])))
  {
  }

  lemma SwallowText(pass: Pass, inWord: bool, s: string, endsInWord: bool, rest: string)
    requires var n := MatchLen(pass, inWord, s); n > 0 && rest == s[n..] && endsInWord == IsWord(s[n - 1])
    ensures ReplaceAll(pass, inWord, s) == Replacement(pass) + ReplaceAll(pass, endsInWord, rest)
  {
    hide *;
    ScanStep(pass, inWord, s);
  }

  /** A match over the block `b` and `k` characters behind it. */
  lemma SwallowBlock(pass: Pass, inWord: bool, b: string, q: string, k: nat)
    requires b != "" && b[|b| - 1] == ')' && k <= |q|
    ensures MatchLen(pass, inWord, b + q) == |b| + k ==>
              ReplaceAll(pass, inWord, b + q) == Replacement(pass) + ReplaceAll(pass, k > 0 && IsWord(q[k - 1]), q[k..])
  {
    hide *;
    if MatchLen(pass, inWord, b + q) == |b| + k {
      BlockEnds(b, q, k);
      SwallowText(pass, inWord, b + q, k > 0 && IsWord(q[k - 1]), q[k..]);
    }
  }

  lemma TuplesManyAtTuple(inWord: bool, b: string, q: string)
    requires HoleRow(b)
    ensures MatchLen(TuplesMany, inWord, b + q) == if MoreTuples(q) == 0 then 0 else |b| + MoreTuples(q)
  {
    hide TupleLen, MoreTuples;
    assert (b + q)[|b|..] == q;
  }

  lemma TupleMultiAtTuple(inWord: bool, b: string, q: string)
    requires HoleTuple(b)
    ensures ReplaceAll(TupleMulti, inWord, b + q) == "(?)" + ReplaceAll(TupleMulti, false, q)
  {
    OpensTuple(b);
    hide TupleLen, TupleHere;
    if b == "(?)" {
      LoneIsNoMulti(q);
      CopyTuple(TupleMulti, inWord, b, q);
    } else {
      hide ReplaceAll, AllInner;
      assert TupleMultiLen(b + q) == |b|;
      hide TupleMultiLen;
      SwallowBlock(TupleMulti, inWord, b, q, 0);
      assert q[0..] == q;
    }
  }

  lemma LoneIsNoMulti(q: string)
    ensures TupleMultiLen("(?)" + q) == 0
  {
    var s := "(?)" + q;
    assert s[1..] == "?)" + q && s[2..] == ")" + q;
    assert BlankRun(s[1..]) == 0 && BlankRun(s[2..]) == 0;
    assert TupleHead(s) == 2;
    assert SeparatorLen(s[2..]) == 0;
  }

  /** What the collapsing passes leave of two tuples in one place. */
  lemma TuplesLeft(pass: Pass, inWord: bool, w: string, b: string, c: string, q: string)
    requires Collapsing(pass) && HoleTuple(b) && HoleTuple(c)
    ensures Similar(w + ReplaceAll(pass, inWord, b + q), w + ReplaceAll(pass, inWord, c + q), b, c)
    ensures pass.TupleMulti? ==> ReplaceAll(pass, inWord, b + q) == ReplaceAll(pass, inWord, c + q)
  {
    assert HoleRow(b) && HoleRow(c);
    hide ReplaceAll, HoleTuple, HoleRow, MatchLen, Similar;
    var x, y := w + ReplaceAll(pass, inWord, b + q), w + ReplaceAll(pass, inWord, c + q);
    match pass
    case InList =>
      InListAtTuple(inWord, b, q);
      InListAtTuple(inWord, c, q);
      SimilarAround(x, y, w, b, c, ReplaceAll(pass, false, q));
    case TuplesMany =>
      TuplesManyLeft(inWord, w, b, c, q);
    case TupleMulti =>
      TupleMultiAtTuple(inWord, b, q);
      TupleMultiAtTuple(inWord, c, q);
      SameAreSimilar(x, b, c);
  }

  lemma TuplesManyLeft(inWord: bool, w: string, b: string, c: string, q: string)
    requires HoleTuple(b) && HoleTuple(c)
    ensures Similar(w + ReplaceAll(TuplesMany, inWord, b + q), w + ReplaceAll(TuplesMany, inWord, c + q), b, c)
  {
    TuplesManyAtTuple(inWord, b, q);
    TuplesManyAtTuple(inWord, c, q);
    OpensTuple(b);
    OpensTuple(c);
    hide ReplaceAll, MatchLen, Similar, TupleHere;
    var k := MoreTuples(q);
    if k == 0 {
      CopyTuple(TuplesMany, inWord, b, q);
      CopyTuple(TuplesMany, inWord, c, q);
      var r := ReplaceAll(TuplesMany, false, q);
      SimilarAround(w + (b + r), w + (c + r), w, b, c, r);
    } else {
      SwallowBlock(TuplesMany, inWord, b, q, k);
      SwallowBlock(TuplesMany, inWord, c, q, k);
      SameAreSimilar(w + ReplaceAll(TuplesMany, inWord, b + q), b, c);
    }
  }

  lemma PassKeepsTuples(pass: Pass, x: string, y: string, b: string, c: string)
    requires Collapsing(pass) && HoleTuple(b) && HoleTuple(c) && Similar(x, y, b, c)
    ensures Similar(Apply(pass, x), Apply(pass, y), b, c)
    ensures pass.TupleMulti? ==> Apply(pass, x) == Apply(pass, y)
  {
    if x == y {
      SameAreSimilar(Apply(pass, x), b, c);
    } else {
      var p, q :| Around(x, y, p, b, c, q);
      TuplesAgnosticAlong(pass, p, b, c, q);
      OpensTuple(b);
      OpensTuple(c);
      TuplesLeftFor(pass, x, y, p, b, c, q);
    }
  }

  lemma TuplesLeftFor(pass: Pass, x: string, y: string, p: string, b: string, c: string, q: string)
    requires Collapsing(pass) && HoleTuple(b) && HoleTuple(c) && Around(x, y, p, b, c, q)
    requires AgnosticAlong(pass, p, b, c, q) && Opens(b) && Opens(c)
    ensures Similar(Apply(pass, x), Apply(pass, y), b, c)
    ensures pass.TupleMulti? ==> Apply(pass, x) == Apply(pass, y)
  {
    hide ReplaceAll, AgnosticAlong, Similar, MatchLen, TupleHere;
    var r := BlockScan(pass, false, p, b, c, q);
    match r
    case None => SameAreSimilar(Apply(pass, x), b, c);
    case Some(w) => TuplesLeft(pass, EndsInWord(false, p), w, b, c, q);
  }

  lemma CollapsedIgnoresTuple(x: string, y: string, b: string, c: string)
    requires HoleTuple(b) && HoleTuple(c) && Similar(x, y, b, c)
    ensures Collapsed(x) == Collapsed(y)
  {
    CollapsedIs(x);
    CollapsedIs(y);
    hide Apply, Similar, HoleTuple;
    PassKeepsTuples(InList, x, y, b, c);
    PassKeepsTuples(TuplesMany, Apply(InList, x), Apply(InList, y), b, c);
    PassKeepsTuples(TupleMulti, Apply(TuplesMany, Apply(InList, x)), Apply(TuplesMany, Apply(InList, y)), b, c);
  }

  // ---------- tuples of any length ----------

  lemma {:induction false} TailUnquoted(cells: seq<Cell>)
    requires cells != [] && forall i :: 0 <= i < |cells| ==> IsCell(cells[i])
    ensures Unquoted(TailText(cells))
    decreases |cells|
  {
    if |cells| == 1 {
    } else {
      TailUnquoted(cells[1..]);
    }
  }

  lemma TupleIsKept(cells: seq<Cell>)
    requires IsTuple(cells)
    ensures Kept(TupleText(cells)) && Turns(Int, TupleText(cells), TupleText(Holes(cells)))
  {
    hide Turns, TupleText, Holes;
    forall pass: Pass | Literally(pass) && !pass.Int? ensures Turns(pass, TupleText(cells), TupleText(cells)) {
      TurnsTuple(pass, cells);
    }
    TurnsTuple(Int, cells);
  }

  lemma TupleIsBlock(cells: seq<Cell>)
    requires IsTuple(cells)
    ensures IsBlock(TupleText(cells))
  {
    TailUnquoted(cells);
    hide TailText;
    assert TupleText(cells) == "(" + (cells[0].before + (cells[0].value + TailText(cells)));
    assert IsCell(cells[0]);
  }

  lemma HolesAreTuple(cells: seq<Cell>)
    requires IsTuple(cells)
    ensures IsTuple(Holes(cells)) && AllHoles(Holes(cells)) && (Padded(Holes(cells)) <==> Padded(cells))
  {
  }

  /** All that the passes need to know of a tuple. */
  lemma TuplesAreBlocks(cells: seq<Cell>)
    requires IsTuple(cells)
    ensures var b, c := TupleText(cells), TupleText(Holes(cells));
      IsBlock(b) && Kept(b) && Turns(Int, b, c) && HoleRow(c)
  {
    hide IsTuple, TupleText, IsBlock, Kept, Turns, HoleRow, Holes, AllHoles;
    TupleIsBlock(cells);
    TupleIsKept(cells);
    HolesAreTuple(cells);
    HoleRowText(Holes(cells));
  }

  // ---------- two rows ----------

  const LONE := "(?)"

  const LONE_CELL := [Cell("", "?", "")]

  lemma LoneIsTuple()
    ensures IsTuple(LONE_CELL) && AllHoles(LONE_CELL) && !Padded(LONE_CELL) && TupleText(LONE_CELL) == LONE
  {
    assert TailText(LONE_CELL) == ")";
    assert ValueText(LONE_CELL) == "?)";
  }

  /** What stands between a row and what follows the next. */
  function SecondRow(w: string, v: string, b: string): string {
    w + ("," + (v + b))
  }

  function TwoRows(a: string, w: string, v: string, b: string): string {
    a + SecondRow(w, v, b)
  }

  lemma TurnsBoth(pass: Pass, a: string, b: string, a': string, b': string)
    requires Turns(pass, a, a') && Turns(pass, b, b')
    ensures Turns(pass, a + b, a' + b')
  {
    hide ReplaceAll;
    forall f: bool, q: string ensures ReplaceAll(pass, f, a + b + q) == a' + b' + ReplaceAll(pass, false, q) {
      assert a + b + q == a + (b + q);
      assert ReplaceAll(pass, f, a + (b + q)) == a' + ReplaceAll(pass, false, b + q);
      assert ReplaceAll(pass, false, b + q) == b' + ReplaceAll(pass, false, q);
    }
  }

  lemma TurnsTwoRows(pass: Pass, a: string, w: string, v: string, b: string, a': string, b': string)
    requires Literally(pass) && AllBlank(w) && AllBlank(v) && Turns(pass, a, a') && Turns(pass, b, b')
    ensures Turns(pass, TwoRows(a, w, v, b), TwoRows(a', w, v, b'))
  {
    hide Turns, Literally;
    TurnsBlanks(pass, v, b, b');
    TurnsPunctuation(pass, ',', v + b, v + b');
    TurnsBlanks(pass, w, [','] + (v + b), [','] + (v + b'));
    TurnsBoth(pass, a, SecondRow(w, v, b), a', SecondRow(w, v, b'));
  }

  lemma TwoRowsAreBlock(a: string, w: string, v: string, b: string, a': string, b': string)
    requires AllBlank(w) && AllBlank(v) && IsBlock(a) && IsBlock(b) && Kept(a) && Kept(b)
    requires Turns(Int, a, a') && Turns(Int, b, b')
    ensures var s := TwoRows(a, w, v, b); IsBlock(s) && Kept(s) && Turns(Int, s, TwoRows(a', w, v, b'))
  {
    hide Turns;
    forall pass: Pass | Literally(pass) && !pass.Int?
      ensures Turns(pass, TwoRows(a, w, v, b), TwoRows(a, w, v, b))
    {
      TurnsTwoRows(pass, a, w, v, b, a, b);
    }
    TurnsTwoRows(Int, a, w, v, b, a', b');
    BlocksMakeBlock(a, w, v, b);
  }

  lemma BlocksMakeBlock(a: string, w: string, v: string, b: string)
    requires AllBlank(w) && AllBlank(v) && IsBlock(a) && IsBlock(b)
    ensures IsBlock(TwoRows(a, w, v, b))
  {
    BlanksUnquoted(w);
    BlanksUnquoted(v);
    hide AllBlank;
    var s := TwoRows(a, w, v, b);
    assert s[|s| - 1] == b[|b| - 1];
    assert Unquoted(SecondRow(w, v, b));
  }

  lemma BlanksUnquoted(w: string)
    requires AllBlank(w)
    ensures Unquoted(w)
  {
  }

  lemma LoneHere()
    ensures HoleTuple(LONE) && HoleRow(LONE) && TupleHere(LONE) && RowsHere(LONE)
  {
    LoneIsTuple();
    HoleTupleText(LONE_CELL);
    TupleIsRows(LONE);
  }

  lemma LoneLength(q: string)
    ensures TupleLen(LONE + q) == 3
  {
    hide TupleLen, RowsHere;
    LoneHere();
  }

  lemma TwoRowsLength(a: string, w: string, v: string, b: string, q: string)
    requires AllBlank(w) && AllBlank(v) && TupleHere(a) && TupleHere(b)
    ensures TupleLen(TwoRows(a, w, v, b) + q) == |a|
    ensures MoreTuples((TwoRows(a, w, v, b) + q)[|a|..]) == |SecondRow(w, v, b)| + MoreTuples(q)
  {
    hide TupleLen, MoreTuples, SeparatorLen;
    var s := SecondRow(w, v, b) + q;
    assert TwoRows(a, w, v, b) + q == a + s;
    assert (a + s)[|a|..] == s == w + ("," + (v + (b + q)));
    SeparatorThen(w, v, b + q);
    var k := |w| + 1 + |v|;
    MoreTuplesUnfolds(s, k, |b|);
    assert s[k + |b|..] == q;
  }

  lemma TwoRowsHere(a: string, w: string, v: string, b: string)
    requires AllBlank(w) && AllBlank(v) && TupleHere(a) && TupleHere(b)
    ensures RowsHere(TwoRows(a, w, v, b))
  {
    OpensTuple(a);
    hide TupleLen, MoreTuples, TupleHere;
    var s := TwoRows(a, w, v, b);
    forall q: string
      ensures TupleLen(s + q) > 0 && TupleLen(s + q) + MoreTuples((s + q)[TupleLen(s + q)..]) == |s| + MoreTuples(q)
    {
      TwoRowsLength(a, w, v, b, q);
    }
  }

  /** Whatever comes before a row, the IN pass leaves it there, or a lone placeholder in its place. */
  lemma {:induction false} InListKeepsRow(inWord: bool, p: string, a: string, x: string, y: string)
      returns (t: string, c: string)
    requires HoleRow(a)
    ensures ReplaceAll(InList, inWord, p + (a + x)) == t + (c + ReplaceAll(InList, false, x))
    ensures ReplaceAll(InList, inWord, p + (LONE + y)) == t + (LONE + ReplaceAll(InList, false, y))
    ensures c == a || c == LONE
    decreases |p|
  {
    hide InListLen, InHead, ReplaceAll, Written, HoleRow, RowsHere, TupleHere, HoleTuple;
    LoneHere();
    if p == "" {
      t, c := "", a;
      InListAtTuple(inWord, a, x);
      InListAtTuple(inWord, LONE, y);
      assert p + (a + x) == a + x && p + (LONE + y) == LONE + y;
    } else if InHead(inWord, p) == |p| {
      t, c := "IN ", LONE;
      InListOverRow(inWord, p, a, x);
      InListOverRow(inWord, p, LONE, y);
    } else {
      var n := InListLen(inWord, p);
      InListBeforeRow(inWord, p, a, x);
      InListBeforeRow(inWord, p, LONE, y);
      var u;
      u, c := InListKeepsRow(IsWord(p[Width(n) - 1]), p[Width(n)..], a, x, y);
      t := Written(InList, n, p) + u;
    }
  }

  lemma InListOverRow(inWord: bool, p: string, a: string, x: string)
    requires p != "" && InHead(inWord, p) == |p| && HoleRow(a)
    ensures ReplaceAll(InList, inWord, p + (a + x)) == "IN " + (LONE + ReplaceAll(InList, false, x))
  {
    OpensTuple(a);
    hide InListLen, InHead, ReplaceAll, TupleHere, AllInner;
    InListBeforeTuple(inWord, p, a, x);
    WrittenOverRow(inWord, p, a, x);
  }

  lemma WrittenOverRow(inWord: bool, p: string, a: string, x: string)
    requires p != "" && a != "" && a[|a| - 1] == ')' && InListLen(inWord, p + (a + x)) == |p| + |a|
    ensures ReplaceAll(InList, inWord, p + (a + x)) == "IN " + (LONE + ReplaceAll(InList, false, x))
  {
    hide InListLen, ReplaceAll;
    StepOver(InList, inWord, p, a, x, 0);
    var r := ReplaceAll(InList, false, x);
    assert x[0..] == x && "IN " + (LONE + r) == "IN (?)" + r;
  }

  lemma InListBeforeRow(inWord: bool, p: string, a: string, x: string)
    requires p != "" && InHead(inWord, p) < |p| && HoleRow(a)
    ensures var n := InListLen(inWord, p);
      Width(n) <= |p| && ReplaceAll(InList, inWord, p + (a + x))
      == Written(InList, n, p) + ReplaceAll(InList, IsWord(p[Width(n) - 1]), p[Width(n)..] + (a + x))
  {
    hide InListLen, InHead, ReplaceAll, TupleHere, Written;
    InListBeforeTuple(inWord, p, a, x);
    StepBefore(InList, inWord, p, a + x, InListLen(inWord, p));
  }

  lemma SecondRowPassive(w: string, v: string, b: string)
    requires AllBlank(w) && AllBlank(v) && HoleRow(b)
    ensures AllPassive(InList, SecondRow(w, v, b))
    ensures !EndsInWord(false, SecondRow(w, v, b))
  {
    hide TupleHere;
    OpensTuple(b);
    assert b == ['('] + b[1..];
    var s := SecondRow(w, v, b);
    assert s[|s| - 1] == b[|b| - 1];
  }

  lemma InListKeepsRows(p: string, a: string, w: string, v: string, b: string, q: string)
      returns (t: string, c: string)
    requires AllBlank(w) && AllBlank(v) && HoleRow(a) && HoleRow(b)
    ensures HoleRow(c)
    ensures Around(Apply(InList, p + (TwoRows(a, w, v, b) + q)), Apply(InList, p + (LONE + q)),
              t, TwoRows(c, w, v, b), LONE, Apply(InList, q))
  {
    hide ReplaceAll, AllPassive, HoleRow, HoleTuple, TupleHere, RowsHere;
    var s := SecondRow(w, v, b);
    assert TwoRows(a, w, v, b) + q == a + (s + q);
    LoneHere();
    t, c := InListKeepsRow(false, p, a, s + q, q);
    SecondRowPassive(w, v, b);
    CopyPassive(InList, false, s, q);
    assert c + (s + Apply(InList, q)) == TwoRows(c, w, v, b) + Apply(InList, q);
  }

  lemma RowsAgnosticAlong(p: string, b: string, c: string, q: string)
    requires RowsHere(b) && RowsHere(c)
    ensures AgnosticAlong(TuplesMany, p, b, c, q)
  {
    hide TuplesManyLen, RowsHere;
    forall i: nat, f: bool | i < |p| ensures Agnostic(TuplesMany, f, p[i..], b, c, q) {
      TuplesManyAgnostic(p[i..], b, c, q);
    }
  }

  lemma TwoRowsOpen(a: string, w: string, v: string, b: string)
    requires HoleRow(a) && HoleRow(b)
    ensures var s := TwoRows(a, w, v, b); Opens(s) && s[|s| - 1] == ')'
  {
    OpensTuple(a);
    hide TupleHere;
    var s := TwoRows(a, w, v, b);
    assert s[|s| - 1] == b[|b| - 1];
  }

  lemma TuplesManyAtRows(inWord: bool, a: string, w: string, v: string, b: string, q: string)
    requires AllBlank(w) && AllBlank(v) && HoleRow(a) && HoleRow(b)
    ensures ReplaceAll(TuplesMany, inWord, TwoRows(a, w, v, b) + q) == ReplaceAll(TuplesMany, inWord, LONE + q)
  {
    hide TupleLen, MoreTuples, ReplaceAll, HoleTuple, TupleHere, TwoRows, RowsHere;
    TwoRowsLength(a, w, v, b, q);
    TwoRowsOpen(a, w, v, b);
    LoneHere();
    var k := MoreTuples(q);
    RowsMatch(inWord, a, w, v, b, q);
    SwallowBlock(TuplesMany, inWord, TwoRows(a, w, v, b), q, k);
    TuplesManyAtTuple(inWord, LONE, q);
    if k == 0 {
      CopyTuple(TuplesMany, inWord, LONE, q);
      assert q[0..] == q;
    } else {
      SwallowBlock(TuplesMany, inWord, LONE, q, k);
    }
  }

  lemma RowsMatch(inWord: bool, a: string, w: string, v: string, b: string, q: string)
    requires AllBlank(w) && AllBlank(v) && HoleRow(a) && HoleRow(b)
    ensures MatchLen(TuplesMany, inWord, TwoRows(a, w, v, b) + q) == |TwoRows(a, w, v, b)| + MoreTuples(q)
  {
    OpensTuple(a);
    hide TupleLen, MoreTuples, TupleHere;
    TwoRowsLength(a, w, v, b, q);
  }

  lemma TuplesManyMerges(p: string, a: string, w: string, v: string, b: string, q: string)
    requires AllBlank(w) && AllBlank(v) && HoleRow(a) && HoleRow(b)
    ensures Apply(TuplesMany, p + (TwoRows(a, w, v, b) + q)) == Apply(TuplesMany, p + (LONE + q))
  {
    hide ReplaceAll, AgnosticAlong, RowsHere, TupleHere, HoleTuple, TwoRows;
    TwoRowsHere(a, w, v, b);
    TwoRowsOpen(a, w, v, b);
    LoneHere();
    var s := TwoRows(a, w, v, b);
    RowsAgnosticAlong(p, s, LONE, q);
    var r := BlockScan(TuplesMany, false, p, s, LONE, q);
    if r.Some? { TuplesManyAtRows(EndsInWord(false, p), a, w, v, b, q); }
  }

  lemma CollapsedMergesRows(x: string, y: string, a: string, w: string, v: string, b: string)
    requires AllBlank(w) && AllBlank(v) && HoleRow(a) && HoleRow(b) && Similar(x, y, TwoRows(a, w, v, b), LONE)
    ensures Collapsed(x) == Collapsed(y)
  {
    CollapsedIs(x);
    CollapsedIs(y);
    if x != y {
      var p, q :| Around(x, y, p, TwoRows(a, w, v, b), LONE, q);
      hide Apply, TwoRows, HoleRow;
      var t, c := InListKeepsRows(p, a, w, v, b, q);
      TuplesManyMerges(t, c, w, v, b, Apply(InList, q));
    }
  }
}
