/** Value lists in a query: tuples of any length and any number of rows share one template. */
module SqlLists {
  import opened Ascii
  import opened Sql
  import opened SqlGrouping

  // ---------- value lists ----------

  /** A placeholder or a number in a tuple, with the blanks around it. */
  datatype Cell = Cell(before: string, value: string, after: string)

  predicate AllBlank(s: string) {
    forall i :: 0 <= i < |s| ==> IsBlank(s[i])
  }

  predicate IsCell(c: Cell) {
    AllBlank(c.before) && AllBlank(c.after) && (c.value == "?" || IsNumber(c.value))
  }

  predicate IsTuple(cells: seq<Cell>) {
    cells != [] && forall i :: 0 <= i < |cells| ==> IsCell(cells[i])
  }

  /** One value with blanks around it. */
  predicate Padded(cells: seq<Cell>) {
    |cells| == 1 && (cells[0].before != "" || cells[0].after != "")
  }

  /** What comes after the first value. */
  function TailText(cells: seq<Cell>): (s: string)
    requires cells != []
    ensures s != "" && s[|s| - 1] == ')'
    decreases |cells|, 0
  {
    cells[0].after + if |cells| == 1 then ")" else "," + ValueText(cells[1..])
  }

  /** A value with its blanks, and what is left of the tuple. */
  function ValueText(cells: seq<Cell>): (s: string)
    requires cells != []
    ensures s != "" && s[|s| - 1] == ')'
    decreases |cells|, 1
  {
    cells[0].before + (cells[0].value + TailText(cells))
  }

  function TupleText(cells: seq<Cell>): (s: string)
    requires cells != []
    ensures |s| > 1 && s[0] == '(' && s[|s| - 1] == ')'
  {
    "(" + ValueText(cells)
  }

  /** The same list with a placeholder for each value. */
  function Holes(cells: seq<Cell>): (r: seq<Cell>)
    ensures |r| == |cells|
    ensures forall i :: 0 <= i < |r| ==> r[i] == Hole(cells[i])
  {
    if cells == [] then [] else [Hole(cells[0])] + Holes(cells[1..])
  }

  function Hole(c: Cell): Cell {
    c.(value := "?")
  }

  // ---------- the literal passes on a list ----------

  predicate Punctuation(c: char) {
    c == '(' || c == ')' || c == ',' || IsBlank(c)
  }

  lemma CopyChar(pass: Pass, inWord: bool, c: char, z: string)
    requires Literally(pass) && Punctuation(c)
    ensures ReplaceAll(pass, inWord, [c] + z) == [c] + ReplaceAll(pass, false, z)
  {
    assert ([c] + z)[1..] == z && ([c] + z)[0] == c && !IsWord(c);
    assert MatchLen(pass, inWord, [c] + z) == 0;
  }

  /** What a pass makes of a value. */
  function Image(pass: Pass, c: Cell): Cell {
    if pass.Int? then Hole(c) else c
  }

  lemma NoMatchAtNumber(pass: Pass, d: string, z: string)
    requires Literally(pass) && !pass.Int? && IsNumber(d) && z != "" && Punctuation(z[0])
    ensures MatchLen(pass, false, d + z) == 0
  {
    NumberRuns(d, z);
    if pass.Hex? { NoHexAtNumber(d, z); }
    if pass.Decimal? { assert (d + z)[|d|] == z[0]; }
    hide DigitRun;
  }

  lemma CopyHole(pass: Pass, z: string)
    requires Literally(pass) && z != "" && Punctuation(z[0])
    ensures ReplaceAll(pass, false, "?" + z) == "?" + ReplaceAll(pass, false, z)
  {
    assert ("?" + z)[1..] == z && ("?" + z)[0] == '?';
    assert MatchLen(pass, false, "?" + z) == 0;
  }

  lemma CopyValue(pass: Pass, c: Cell, z: string) returns (f: bool)
    requires Literally(pass) && IsCell(c) && z != "" && Punctuation(z[0])
    ensures ReplaceAll(pass, false, c.value + z) == Image(pass, c).value + ReplaceAll(pass, f, z)
  {
    hide MatchLen, ReplaceAll;
    f := c.value != "?";
    if c.value == "?" {
      CopyHole(pass, z);
    } else if pass.Int? {
      AtNumber(pass, c.value, c.value, z);
      SwallowNumber(pass, c.value, z, 0);
    } else {
      NoMatchAtNumber(pass, c.value, z);
      CopyNumber(pass, c.value, z);
    }
  }

  function Images(pass: Pass, cells: seq<Cell>): (r: seq<Cell>)
    ensures |r| == |cells|
  {
    if pass.Int? then Holes(cells) else cells
  }

  lemma FrontOfTail(cells: seq<Cell>)
    requires cells != [] && AllBlank(cells[0].after)
    ensures Punctuation(TailText(cells)[0])
  {
  }

  lemma ImagesTail(pass: Pass, cells: seq<Cell>)
    requires cells != []
    ensures var c := Images(pass, cells)[0];
      c == Image(pass, cells[0]) && c.before == cells[0].before && c.after == cells[0].after
    ensures Images(pass, cells[1..]) == Images(pass, cells)[1..]
  {
  }

  /** A pass with all it does to `b`, whatever stands around it. */
  ghost predicate Turns(pass: Pass, b: string, image: string) {
    forall f: bool, q: string :: ReplaceAll(pass, f, b + q) == image + ReplaceAll(pass, false, q)
  }

  lemma TurnsPunctuation(pass: Pass, c: char, b: string, image: string)
    requires Literally(pass) && Punctuation(c) && Turns(pass, b, image)
    ensures Turns(pass, [c] + b, [c] + image)
  {
    hide ReplaceAll, Literally, Punctuation;
    forall f: bool, q: string ensures ReplaceAll(pass, f, [c] + b + q) == [c] + image + ReplaceAll(pass, false, q) {
      CopyChar(pass, f, c, b + q);
      assert [c] + b + q == [c] + (b + q);
      assert ReplaceAll(pass, false, b + q) == image + ReplaceAll(pass, false, q);
    }
  }

  lemma {:induction false} TurnsBlanks(pass: Pass, w: string, b: string, image: string)
    requires Literally(pass) && AllBlank(w) && Turns(pass, b, image)
    ensures Turns(pass, w + b, w + image)
  {
    hide Literally, Turns;
    if w == "" {
      assert w + b == b && w + image == image;
    } else {
      TurnsBlanks(pass, w[1..], b, image);
      TurnsPunctuation(pass, w[0], w[1..] + b, w[1..] + image);
      assert w + b == [w[0]] + (w[1..] + b) && w + image == [w[0]] + (w[1..] + image);
    }
  }

  lemma TurnsEnd(pass: Pass)
    requires Literally(pass)
    ensures Turns(pass, ")", ")")
  {
    hide ReplaceAll, Literally;
    forall f: bool, q: string ensures ReplaceAll(pass, f, ")" + q) == ")" + ReplaceAll(pass, false, q) {
      CopyChar(pass, f, ')', q);
    }
  }

  /** A value after a comma, a bracket or a blank. */
  lemma TurnsValue(pass: Pass, c: char, v: Cell, b: string, image: string)
    requires Literally(pass) && Punctuation(c) && IsCell(v) && b != "" && Punctuation(b[0]) && Turns(pass, b, image)
    ensures Turns(pass, [c] + (v.value + b), [c] + (Image(pass, v).value + image))
  {
    hide ReplaceAll, Literally, Punctuation, IsCell, Image;
    forall f: bool, q: string
      ensures ReplaceAll(pass, f, [c] + (v.value + b) + q)
           == [c] + (Image(pass, v).value + image) + ReplaceAll(pass, false, q)
    {
      assert [c] + (v.value + b) + q == [c] + (v.value + (b + q));
      CopyChar(pass, f, c, v.value + (b + q));
      var g := CopyValue(pass, v, b + q);
      assert ReplaceAll(pass, g, b + q) == image + ReplaceAll(pass, false, q);
    }
  }

  /** A bracket or a comma, blanks, and a value. */
  lemma TurnsCell(pass: Pass, c: char, v: Cell, b: string, image: string)
    requires Literally(pass) && Punctuation(c) && IsCell(v) && b != "" && Punctuation(b[0]) && Turns(pass, b, image)
    ensures Turns(pass, [c] + (v.before + (v.value + b)), [c] + (v.before + (Image(pass, v).value + image)))
  {
    hide Literally, Turns, Image;
    if v.before == "" {
      TurnsValue(pass, c, v, b, image);
      assert v.before + (v.value + b) == v.value + b;
      assert v.before + (Image(pass, v).value + image) == Image(pass, v).value + image;
    } else {
      var k := |v.before| - 1;
      var w, l := v.before[..k], v.before[k];
      TurnsValue(pass, l, v, b, image);
      TurnsBlanks(pass, w, [l] + (v.value + b), [l] + (Image(pass, v).value + image));
      TurnsPunctuation(pass, c, w + ([l] + (v.value + b)), w + ([l] + (Image(pass, v).value + image)));
      assert w + [l] == v.before;
      assert w + ([l] + (v.value + b)) == v.before + (v.value + b);
      assert w + ([l] + (Image(pass, v).value + image)) == v.before + (Image(pass, v).value + image);
    }
  }

  lemma {:induction false} TurnsTail(pass: Pass, cells: seq<Cell>)
    requires Literally(pass) && cells != []
    requires forall i :: 0 <= i < |cells| ==> IsCell(cells[i])
    ensures Turns(pass, TailText(cells), TailText(Images(pass, cells)))
    decreases |cells|
  {
    hide Literally, Turns, Images, Image;
    ImagesTail(pass, cells);
    if |cells| == 1 {
      TurnsEnd(pass);
      TurnsBlanks(pass, cells[0].after, ")", ")");
    } else {
      var rest := cells[1..];
      TurnsTail(pass, rest);
      FrontOfTail(rest);
      ImagesTail(pass, rest);
      TurnsCell(pass, ',', rest[0], TailText(rest), TailText(Images(pass, rest)));
      TurnsBlanks(pass, cells[0].after, [','] + ValueText(rest), [','] + ValueText(Images(pass, rest)));
    }
  }

  lemma TurnsTuple(pass: Pass, cells: seq<Cell>)
    requires Literally(pass) && IsTuple(cells)
    ensures Turns(pass, TupleText(cells), TupleText(Images(pass, cells)))
  {
    hide Literally, Turns, Images, Image;
    TurnsTail(pass, cells);
    FrontOfTail(cells);
    ImagesTail(pass, cells);
    TurnsCell(pass, '(', cells[0], TailText(cells), TailText(Images(pass, cells)));
  }
}
