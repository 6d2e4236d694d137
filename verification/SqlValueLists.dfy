/** Value lists share a template whatever the length of the tuples and the number of rows. */
module SqlValueLists {
  import opened Sql
  import opened SqlLists
  import opened SqlCollapse
  import opened SqlRows
  import opened SqlInLists

  lemma PlainTuplesShareTemplate(p: string, cells: seq<Cell>, others: seq<Cell>, q: string)
    requires IsTuple(cells) && IsTuple(others) && !Padded(cells) && !Padded(others)
    ensures Normalize(p + TupleText(cells) + q) == Normalize(p + TupleText(others) + q)
  {
    hide IsTuple, TupleText, IsBlock, Kept, Turns, HoleRow, HoleTuple, Holes, AllHoles, Padded, Stripped, Collapsed;
    TuplesAreBlocks(cells);
    TuplesAreBlocks(others);
    HolesAreTuple(cells);
    HolesAreTuple(others);
    var b, c := TupleText(cells), TupleText(others);
    var b', c' := TupleText(Holes(cells)), TupleText(Holes(others));
    HoleTupleText(Holes(cells));
    HoleTupleText(Holes(others));
    assert p + b + q == p + (b + q) && p + c + q == p + (c + q);
    SimilarAround(p + b + q, p + c + q, p, b, c, q);
    StrippedKeepsSimilar(p + b + q, p + c + q, b, c, b', c');
    CollapsedIgnoresTuple(Stripped(p + b + q), Stripped(p + c + q), b', c');
    SameCollapsed(p + b + q, p + c + q);
  }

  /** Grouping by length: a tuple of placeholders and numbers, anywhere in a query, can be replaced by one
      of any other length, and the template stays the same. Blanks around a lone value do not matter behind
      IN. */
  lemma TuplesShareTemplate(p: string, cells: seq<Cell>, others: seq<Cell>, q: string)
    requires IsTuple(cells) && IsTuple(others)
    requires Padded(cells) || Padded(others) ==> BehindIn(p)
    ensures Normalize(p + TupleText(cells) + q) == Normalize(p + TupleText(others) + q)
  {
    hide IsTuple, Padded, BehindIn, TupleText, Normalize;
    if Padded(cells) || Padded(others) {
      InListsShareTemplate(p, cells, others, q);
    } else {
      PlainTuplesShareTemplate(p, cells, others, q);
    }
  }

  /** Two rows share the template of one lone placeholder, whatever their blanks. */
  lemma TwoRowsShareTemplate(p: string, cells: seq<Cell>, w: string, v: string, others: seq<Cell>, q: string)
    requires IsTuple(cells) && IsTuple(others) && AllBlank(w) && AllBlank(v)
    ensures Normalize(p + TwoRows(TupleText(cells), w, v, TupleText(others)) + q) == Normalize(p + LONE + q)
  {
    hide TupleText, IsBlock, Kept, Turns, HoleRow, Holes, AllHoles, Stripped, Collapsed, TwoRows, AllBlank, IsCell;
    TuplesAreBlocks(cells);
    TuplesAreBlocks(others);
    LoneIsBlock();
    var b, c := TupleText(cells), TupleText(others);
    var b', c' := TupleText(Holes(cells)), TupleText(Holes(others));
    TwoRowsAreBlock(b, w, v, c, b', c');
    var s, s' := TwoRows(b, w, v, c), TwoRows(b', w, v, c');
    assert p + s + q == p + (s + q) && p + LONE + q == p + (LONE + q);
    SimilarAround(p + s + q, p + LONE + q, p, s, LONE, q);
    StrippedKeepsSimilar(p + s + q, p + LONE + q, s, LONE, s', LONE);
    CollapsedMergesRows(Stripped(p + s + q), Stripped(p + LONE + q), b', w, v, c');
    SameCollapsed(p + s + q, p + LONE + q);
  }

  lemma LoneIsBlock()
    ensures IsBlock(LONE) && Kept(LONE) && Turns(Int, LONE, LONE)
  {
    LoneIsTuple();
    assert Holes(LONE_CELL) == LONE_CELL;
    hide Turns, IsBlock, Kept, HoleRow;
    TuplesAreBlocks(LONE_CELL);
  }

  // ---------- any number of rows ----------

  /** A row of a value list, with the blanks between it and the commas next to it. */
  datatype Row = Row(before: string, cells: seq<Cell>, after: string)

  predicate IsRow(row: Row) {
    AllBlank(row.before) && AllBlank(row.after) && IsTuple(row.cells)
  }

  predicate IsList(rows: seq<Row>) {
    rows != [] && forall i :: 0 <= i < |rows| ==> IsRow(rows[i])
  }

  /** One row of one value with blanks around it. */
  predicate PaddedList(rows: seq<Row>) {
    |rows| == 1 && Padded(rows[0].cells)
  }

  /** The list in a query; the blanks before its first and after its last row are not part of it. */
  function ListText(rows: seq<Row>): string
    requires IsList(rows)
    decreases |rows|, 1
  {
    TupleText(rows[0].cells) + RestText(rows)
  }

  /** What comes after the first row. */
  function RestText(rows: seq<Row>): string
    requires IsList(rows)
    decreases |rows|, 0
  {
    if |rows| == 1 then "" else rows[0].after + ("," + (rows[1].before + ListText(rows[1..])))
  }

  /** The list with a lone placeholder for its first two rows. */
  function Merged(rows: seq<Row>): (r: seq<Row>)
    requires |rows| >= 2
    ensures |r| == |rows| - 1
  {
    [Row("", LONE_CELL, rows[1].after)] + rows[2..]
  }

  lemma MergedIsList(rows: seq<Row>)
    requires IsList(rows) && |rows| >= 2
    ensures IsList(Merged(rows)) && !PaddedList(Merged(rows))
    ensures ListText(Merged(rows)) == LONE + RestText(rows[1..])
  {
    LoneIsTuple();
    hide TupleText, AllBlank, IsTuple;
    var m, t := Merged(rows), rows[1..];
    assert |rows| > 2 ==> t[1] == m[1] && t[1..] == rows[2..] == m[1..];
  }

  /** The first two rows of a list. */
  function FirstTwo(rows: seq<Row>): string
    requires IsList(rows) && |rows| >= 2
  {
    TwoRows(TupleText(rows[0].cells), rows[0].after, rows[1].before, TupleText(rows[1].cells))
  }

  lemma ListIsTwoAndRest(rows: seq<Row>)
    requires IsList(rows) && |rows| >= 2
    ensures ListText(rows) == FirstTwo(rows) + RestText(rows[1..])
  {
    hide TupleText, AllBlank, IsCell, TwoRows;
    var t := rows[1..];
    assert t[0] == rows[1] && IsTuple(rows[0].cells) && IsTuple(t[0].cells);
    assert ListText(t) == TupleText(rows[1].cells) + RestText(t);
    TwoJoined(TupleText(rows[0].cells), rows[0].after, rows[1].before, TupleText(rows[1].cells), RestText(t));
  }

  lemma TwoJoined(a: string, w: string, v: string, b: string, r: string)
    ensures a + (w + ("," + (v + (b + r)))) == TwoRows(a, w, v, b) + r
  {
  }

  lemma {:induction false} ListIsLone(p: string, rows: seq<Row>, q: string)
    requires IsList(rows) && (PaddedList(rows) ==> BehindIn(p))
    ensures Normalize(p + ListText(rows) + q) == Normalize(p + LONE + q)
    decreases |rows|
  {
    hide Normalize, TupleText, AllBlank, BehindIn, TwoRows, IsCell, FirstTwo;
    if |rows| == 1 {
      LoneIsTuple();
      var b := TupleText(rows[0].cells);
      assert ListText(rows) == b + "" == b;
      TuplesShareTemplate(p, rows[0].cells, LONE_CELL, q);
    } else {
      MergedIsList(rows);
      ListIsTwoAndRest(rows);
      var rest := RestText(rows[1..]);
      ListIsLone(p, Merged(rows), q);
      FirstTwoAreLone(p, rows, rest + q);
      hide *;
      assert p + ListText(rows) + q == p + FirstTwo(rows) + (rest + q);
      assert p + ListText(Merged(rows)) + q == p + LONE + (rest + q);
    }
  }

  lemma FirstTwoAreLone(p: string, rows: seq<Row>, q: string)
    requires IsList(rows) && |rows| >= 2
    ensures Normalize(p + FirstTwo(rows) + q) == Normalize(p + LONE + q)
  {
    hide Normalize, TupleText, AllBlank, TwoRows, IsCell;
    TwoRowsShareTemplate(p, rows[0].cells, rows[0].after, rows[1].before, rows[1].cells, q);
  }

  /** Grouping by list: whatever the number of rows and the length of each, queries that differ only in a
      value list share one template. */
  lemma ListsShareTemplate(p: string, rows: seq<Row>, others: seq<Row>, q: string)
    requires IsList(rows) && IsList(others)
    requires PaddedList(rows) || PaddedList(others) ==> BehindIn(p)
    ensures Normalize(p + ListText(rows) + q) == Normalize(p + ListText(others) + q)
  {
    hide Normalize, ListText, IsList, BehindIn;
    ListIsLone(p, rows, q);
    ListIsLone(p, others, q);
  }
}
