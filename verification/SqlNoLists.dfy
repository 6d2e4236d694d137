/** Nothing is left to collapse: a template has no tuple of several placeholders, no two rows with a comma
    between them, and every IN list is `in (?)`. */
module SqlNoLists {
  import opened Ascii
  import opened Sql
  import opened SqlTemplate
  import opened SqlBlocks
  import opened SqlCollapse
  import opened SqlRows

  /** The passes that work on lists and blanks. */
  predicate Late(pass: Pass) {
    pass.InList? || pass.TuplesMany? || pass.TupleMulti? || pass.Blanks?
  }

  // ---------- a list before and after a pass ----------

  /** Such characters are copied, whatever the pass. */
  predicate Mark(c: char) {
    c == ',' || c == '?' || c == ')'
  }

  lemma MarkUnder(pass: Pass, inWord: bool, s: string, c: char)
    requires Late(pass) && Mark(c)
    ensures var out := ReplaceAll(pass, inWord, s);
      && (out != "" && out[0] == c <==> s != "" && s[0] == c)
      && (out != "" && out[0] == c ==> out[1..] == ReplaceAll(pass, false, s[1..]))
  {
    if s == "" {
      EmptyScan(pass, inWord);
    } else {
      ScanStep(pass, inWord, s);
      if MatchLen(pass, inWord, s) > 0 { MatchEdges(pass, inWord, s); MatchStart(pass, inWord, s); }
      hide MatchLen, ReplaceAll;
    }
  }

  lemma MatchStart(pass: Pass, inWord: bool, s: string)
    requires Late(pass) && MatchLen(pass, inWord, s) > 0
    ensures s != "" && !Mark(s[0])
    ensures pass.TuplesMany? || pass.TupleMulti? ==> s[0] == '('
    ensures pass.InList? ==> Lower(s[0]) == 'i'
    ensures pass.Blanks? ==> IsBlank(s[0])
  {
    hide TupleTail, SeparatorLen, MoreTuples;
  }

  lemma BlanksUnder(pass: Pass, inWord: bool, s: string)
    requires Late(pass)
    ensures var out := ReplaceAll(pass, inWord, s); var b := BlankRun(s);
      out[BlankRun(out)..] == ReplaceAll(pass, inWord && b == 0, s[b..])
    decreases |s|
  {
    hide MatchLen, ReplaceAll;
    var out := ReplaceAll(pass, inWord, s);
    if s == "" || !IsBlank(s[0]) {
      if s == "" { EmptyScan(pass, inWord); } else { HeadKept(pass, inWord, s); }
      assert s[0..] == s && out[0..] == out;
    } else if pass.Blanks? {
      SquashedBlanks(inWord, s);
    } else {
      if MatchLen(pass, inWord, s) > 0 { MatchEdges(pass, inWord, s); }
      ScanStep(pass, inWord, s);
      BlanksUnder(pass, false, s[1..]);
      assert out[1..] == ReplaceAll(pass, false, s[1..]);
      assert s[1..][BlankRun(s[1..])..] == s[BlankRun(s)..];
      assert out[1..][BlankRun(out[1..])..] == out[BlankRun(out)..];
    }
  }

  lemma SquashedBlanks(inWord: bool, s: string)
    requires s != "" && IsBlank(s[0])
    ensures var out := ReplaceAll(Blanks, inWord, s);
      BlankRun(out) == 1 && out[1..] == ReplaceAll(Blanks, false, s[BlankRun(s)..])
  {
    var b := BlankRun(s);
    var rest := s[b..];
    assert !IsWord(s[b - 1]);
    ScanStep(Blanks, inWord, s);
    var out := ReplaceAll(Blanks, inWord, s);
    var tail := ReplaceAll(Blanks, false, rest);
    if rest != "" { HeadKept(Blanks, false, rest); } else { EmptyScan(Blanks, false); }
    hide ReplaceAll;
    assert out == " " + tail && out[1..] == tail;
    assert BlankRun(tail) == 0;
  }

  predicate MarkAt(s: string, k: nat, c: char) {
    k < |s| && s[k] == c
  }

  /** The same behind equal beginnings. */
  lemma MarkThere(pass: Pass, inWord: bool, s: string, k: nat, out: string, m: nat, c: char)
    requires Late(pass) && Mark(c) && k <= |s| && m <= |out| && out[m..] == ReplaceAll(pass, inWord, s[k..])
    ensures MarkAt(s, k, c) <==> MarkAt(out, m, c)
    ensures MarkAt(s, k, c) ==> out[m + 1..] == ReplaceAll(pass, false, s[k + 1..])
  {
    hide ReplaceAll, Late, Mark;
    MarkUnder(pass, inWord, s[k..], c);
    if k < |s| { assert s[k..][0] == s[k] && s[k..][1..] == s[k + 1..]; }
    if m < |out| { assert out[m..][0] == out[m] && out[m..][1..] == out[m + 1..]; }
  }

  lemma HoleThere(pass: Pass, inWord: bool, s: string, k: nat, out: string, m: nat)
    requires Late(pass) && k <= |s| && m <= |out| && out[m..] == ReplaceAll(pass, inWord, s[k..])
    ensures HoleAt(s, k) <==> HoleAt(out, m)
    ensures HoleAt(s, k) ==> out[m + 1..] == ReplaceAll(pass, false, s[k + 1..])
  {
    hide ReplaceAll, Late;
    MarkThere(pass, inWord, s, k, out, m, '?');
  }

  lemma SeparatorGoes(s: string, b: nat)
    requires b == BlankRun(s)
    ensures SeparatorLen(s) == if MarkAt(s, b, ',') then b + 1 + BlankRun(s[b + 1..]) else 0
    ensures CloseLen(s) == if MarkAt(s, b, ')') then b + 1 else 0
  {
    hide BlankRun;
  }

  lemma BlanksBehind(pass: Pass, s: string, k: nat, out: string, m: nat)
    requires Late(pass) && k <= |s| && m <= |out| && out[m..] == ReplaceAll(pass, false, s[k..])
    ensures out[m + BlankRun(out[m..])..] == ReplaceAll(pass, false, s[k + BlankRun(s[k..])..])
  {
    hide ReplaceAll, BlankRun, Late;
    BlanksUnder(pass, false, s[k..]);
    assert s[k..][BlankRun(s[k..])..] == s[k + BlankRun(s[k..])..];
    assert out[m..][BlankRun(out[m..])..] == out[m + BlankRun(out[m..])..];
  }

  lemma SeparatorStill(pass: Pass, s: string, b: nat, out: string, d: nat)
    requires Late(pass) && b == BlankRun(s) && d == BlankRun(out)
    requires MarkAt(s, b, ',') <==> MarkAt(out, d, ',')
    requires MarkAt(s, b, ',') ==> out[d + 1..] == ReplaceAll(pass, false, s[b + 1..])
    ensures Still(pass, s, SeparatorLen(s), out, SeparatorLen(out))
  {
    hide ReplaceAll, BlankRun, Late, SeparatorLen, CloseLen;
    SeparatorGoes(s, b);
    SeparatorGoes(out, d);
    if MarkAt(s, b, ',') { BlanksBehind(pass, s, b + 1, out, d + 1); }
  }

  lemma CloseStill(pass: Pass, s: string, b: nat, out: string, d: nat)
    requires b == BlankRun(s) && d == BlankRun(out)
    requires MarkAt(s, b, ')') <==> MarkAt(out, d, ')')
    requires MarkAt(s, b, ')') ==> out[d + 1..] == ReplaceAll(pass, false, s[b + 1..])
    ensures Still(pass, s, CloseLen(s), out, CloseLen(out))
  {
    hide ReplaceAll, BlankRun, SeparatorLen, CloseLen;
    SeparatorGoes(s, b);
    SeparatorGoes(out, d);
  }

  /** `\s*,\s*` is found before and after, and so is what follows it. */
  lemma SeparatorUnder(pass: Pass, inWord: bool, s: string)
    requires Late(pass)
    ensures Still(pass, s, SeparatorLen(s), ReplaceAll(pass, inWord, s), SeparatorLen(ReplaceAll(pass, inWord, s)))
  {
    hide ReplaceAll, BlankRun, Late, MarkAt, SeparatorLen, CloseLen;
    var out := ReplaceAll(pass, inWord, s);
    var b := BlankRun(s);
    BlanksUnder(pass, inWord, s);
    MarkThere(pass, inWord && b == 0, s, b, out, BlankRun(out), ',');
    SeparatorStill(pass, s, b, out, BlankRun(out));
  }

  /** `\s*\)` likewise. */
  lemma CloseUnder(pass: Pass, inWord: bool, s: string)
    requires Late(pass)
    ensures Still(pass, s, CloseLen(s), ReplaceAll(pass, inWord, s), CloseLen(ReplaceAll(pass, inWord, s)))
  {
    hide ReplaceAll, BlankRun, Late, MarkAt, SeparatorLen, CloseLen;
    var out := ReplaceAll(pass, inWord, s);
    var b := BlankRun(s);
    BlanksUnder(pass, inWord, s);
    MarkThere(pass, inWord && b == 0, s, b, out, BlankRun(out), ')');
    CloseStill(pass, s, b, out, BlankRun(out));
  }

  /** A part of a list is found before and after the pass, and so is what follows it. */
  predicate Still(pass: Pass, s: string, k: nat, out: string, m: nat) {
    && k <= |s| && m <= |out|
    && (m > 0 <==> k > 0)
    && (k > 0 ==> out[m..] == ReplaceAll(pass, false, s[k..]))
  }

  lemma StillFurther(pass: Pass, s: string, k: nat, out: string, m: nat, i: nat, j: nat)
    requires k <= |s| && m <= |out| && Still(pass, s[k..], i, out[m..], j)
    ensures Still(pass, s, if i == 0 then 0 else k + i, out, if j == 0 then 0 else m + j)
  {
    hide ReplaceAll;
    if i > 0 { assert s[k..][i..] == s[k + i..] && out[m..][j..] == out[m + j..]; }
  }

  lemma {:induction false} TailUnder(pass: Pass, inWord: bool, s: string)
    requires Late(pass)
    ensures Still(pass, s, TupleTail(s), ReplaceAll(pass, inWord, s), TupleTail(ReplaceAll(pass, inWord, s)))
    decreases |s|
  {
    hide ReplaceAll, SeparatorLen, CloseLen, TupleTail, Late, HoleAt;
    var out := ReplaceAll(pass, inWord, s);
    var k, m := SeparatorLen(s), SeparatorLen(out);
    SeparatorUnder(pass, inWord, s);
    if k == 0 {
      CloseUnder(pass, inWord, s);
      TailCloses(s);
      TailCloses(out);
    } else {
      HoleThere(pass, false, s, k, out, m);
      if HoleAt(s, k) {
        InFront(s, k);
        TailUnder(pass, false, s[k + 1..]);
        InFront(out, m);
        TailGoesOn(pass, s, k, out, m);
      } else {
        TailGoes(s, k);
        TailGoes(out, m);
      }
    }
  }

  lemma TailGoesOn(pass: Pass, s: string, k: nat, out: string, m: nat)
    requires k == SeparatorLen(s) && m == SeparatorLen(out) && k > 0 && m > 0 && HoleAt(s, k) && HoleAt(out, m)
    requires Still(pass, s[k + 1..], TupleTail(s[k + 1..]), out[m + 1..], TupleTail(out[m + 1..]))
    ensures Still(pass, s, TupleTail(s), out, TupleTail(out))
  {
    hide ReplaceAll, SeparatorLen, CloseLen, TupleTail;
    TailGoes(s, k);
    TailGoes(out, m);
    StillFurther(pass, s, k + 1, out, m + 1, TupleTail(s[k + 1..]), TupleTail(out[m + 1..]));
  }

  lemma InFront(s: string, k: nat)
    requires HoleAt(s, k)
    ensures k < |s|
  {
  }

  lemma HeadUnder(pass: Pass, inWord: bool, s: string)
    requires Late(pass) && MatchLen(pass, inWord, s) == 0
    ensures Still(pass, s, TupleHead(s), ReplaceAll(pass, inWord, s), TupleHead(ReplaceAll(pass, inWord, s)))
  {
    hide ReplaceAll, MatchLen, BlankRun;
    var out := ReplaceAll(pass, inWord, s);
    if s == "" {
      EmptyScan(pass, inWord);
    } else {
      ScanStep(pass, inWord, s);
      if s[0] == '(' { HeadAtBracket(pass, s, out); }
    }
  }

  lemma HeadAtBracket(pass: Pass, s: string, out: string)
    requires Late(pass) && s != "" && out != "" && s[0] == '(' == out[0] && out[1..] == ReplaceAll(pass, false, s[1..])
    ensures Still(pass, s, TupleHead(s), out, TupleHead(out))
  {
    hide ReplaceAll, MatchLen, BlankRun, Late;
    var t, u := s[1..], out[1..];
    BlanksUnder(pass, false, t);
    var b, d := BlankRun(t), BlankRun(u);
    HoleThere(pass, false, t, b, u, d);
    assert HoleAt(t, b) ==> s[2 + b..] == t[b + 1..];
    assert HoleAt(u, d) ==> out[2 + d..] == u[d + 1..];
  }

  /** A tuple the pass does not match is still one afterwards. */
  lemma TupleCopied(pass: Pass, inWord: bool, s: string)
    requires Late(pass) && MatchLen(pass, inWord, s) == 0
    ensures Still(pass, s, TupleLen(s), ReplaceAll(pass, inWord, s), TupleLen(ReplaceAll(pass, inWord, s)))
  {
    hide ReplaceAll, MatchLen, TupleHead, TupleTail;
    var out := ReplaceAll(pass, inWord, s);
    HeadUnder(pass, inWord, s);
    var h, g := TupleHead(s), TupleHead(out);
    if h > 0 {
      TailUnder(pass, false, s[h..]);
      StillFurther(pass, s, h, out, g, TupleTail(s[h..]), TupleTail(out[g..]));
    }
  }

  /** Whatever a pass does with it, a tuple stays a tuple, and nothing else becomes one. */
  lemma TupleUnder(pass: Pass, inWord: bool, s: string)
    requires Late(pass)
    ensures TupleLen(ReplaceAll(pass, inWord, s)) > 0 <==> TupleLen(s) > 0
  {
    if MatchLen(pass, inWord, s) == 0 {
      hide ReplaceAll, MatchLen, TupleLen;
      TupleCopied(pass, inWord, s);
    } else {
      TupleReplaced(pass, inWord, s);
    }
  }

  lemma TupleReplaced(pass: Pass, inWord: bool, s: string)
    requires Late(pass) && MatchLen(pass, inWord, s) > 0
    ensures TupleLen(ReplaceAll(pass, inWord, s)) > 0 <==> TupleLen(s) > 0
    ensures TupleLen(s) > 0 <==> pass.TuplesMany? || pass.TupleMulti?
  {
    hide *;
    MatchedTuple(pass, inWord, s);
    ScanStep(pass, inWord, s);
    var n := MatchLen(pass, inWord, s);
    ReplacementTuple(pass, ReplaceAll(pass, IsWord(s[n - 1]), s[n..]));
  }

  lemma ReplacementTuple(pass: Pass, z: string)
    requires Late(pass)
    ensures TupleLen(Replacement(pass) + z) > 0 <==> pass.TuplesMany? || pass.TupleMulti?
  {
    hide TupleLen;
    match pass
    case InList => NoTupleAhead("IN (?)" + z);
    case TuplesMany | TupleMulti => LoneLength(z);
    case Blanks => NoTupleAhead(" " + z);
  }

  lemma NoTupleAhead(s: string)
    requires s != "" && s[0] != '('
    ensures TupleLen(s) == 0
  {
    hide TupleTail;
  }

  lemma MatchedTuple(pass: Pass, inWord: bool, s: string)
    requires Late(pass) && MatchLen(pass, inWord, s) > 0
    ensures TupleLen(s) > 0 <==> pass.TuplesMany? || pass.TupleMulti?
  {
    MatchStart(pass, inWord, s);
    hide TupleTail, MoreTuples, SeparatorLen;
  }

  /** Likewise for rows after a tuple. */
  lemma MoreUnder(pass: Pass, inWord: bool, s: string)
    requires Late(pass)
    ensures MoreTuples(ReplaceAll(pass, inWord, s)) > 0 <==> MoreTuples(s) > 0
  {
    hide ReplaceAll, TupleLen, SeparatorLen, MoreTuples;
    var out := ReplaceAll(pass, inWord, s);
    var k, m := SeparatorLen(s), SeparatorLen(out);
    SeparatorUnder(pass, inWord, s);
    MoreTuplesUnfolds(s, k, TupleLen(s[k..]));
    MoreTuplesUnfolds(out, m, TupleLen(out[m..]));
    if k > 0 { TupleUnder(pass, false, s[k..]); }
  }

  lemma RowsCopied(pass: Pass, inWord: bool, s: string)
    requires Late(pass) && MatchLen(pass, inWord, s) == 0
    ensures TuplesManyLen(ReplaceAll(pass, inWord, s)) > 0 <==> TuplesManyLen(s) > 0
  {
    hide ReplaceAll, MatchLen, TupleLen, MoreTuples;
    TupleCopied(pass, inWord, s);
    if TupleLen(s) > 0 { MoreUnder(pass, false, s[TupleLen(s)..]); }
  }

  lemma MultiCopied(pass: Pass, inWord: bool, s: string)
    requires Late(pass) && MatchLen(pass, inWord, s) == 0
    ensures TupleMultiLen(ReplaceAll(pass, inWord, s)) > 0 <==> TupleMultiLen(s) > 0
  {
    hide ReplaceAll, MatchLen, TupleHead, SeparatorLen;
    TupleUnder(pass, inWord, s);
    HeadUnder(pass, inWord, s);
    hide TupleLen;
    if TupleHead(s) > 0 {
      SeparatorUnder(pass, false, s[TupleHead(s)..]);
    } else {
      TupleNeedsHead(s);
      TupleNeedsHead(ReplaceAll(pass, inWord, s));
    }
  }

  lemma TupleNeedsHead(s: string)
    requires TupleHead(s) == 0
    ensures TupleLen(s) == 0
  {
  }

  // ---------- what the passes leave nowhere ----------

  datatype ListRule = NoMulti | NoRows | PlainIn

  /** An IN list in the form the normalizer gives it. */
  predicate StartsPlain(s: string) {
    |s| >= 6 && Lower(s[0]) == 'i' && Lower(s[1]) == 'n' && s[2..6] == " (?)"
  }

  predicate OkAt(rule: ListRule, inWord: bool, s: string) {
    match rule
    case NoMulti => TupleMultiLen(s) == 0
    case NoRows => TuplesManyLen(s) == 0
    case PlainIn => InListLen(inWord, s) > 0 ==> StartsPlain(s)
  }

  predicate Clean(rule: ListRule, inWord: bool, s: string)
    decreases |s|
  {
    s == "" || (OkAt(rule, inWord, s) && Clean(rule, IsWord(s[0]), s[1..]))
  }

  predicate Cleans(pass: Pass, rule: ListRule) {
    match rule
    case NoMulti => pass.TupleMulti?
    case NoRows => pass.TuplesMany?
    case PlainIn => pass.InList?
  }

  predicate Later(pass: Pass, rule: ListRule) {
    match rule
    case NoMulti => pass.Blanks?
    case NoRows => pass.TupleMulti? || pass.Blanks?
    case PlainIn => pass.TuplesMany? || pass.TupleMulti? || pass.Blanks?
  }

  lemma {:induction false} CleanTail(rule: ListRule, inWord: bool, s: string, k: nat)
    requires Clean(rule, inWord, s) && 0 < k <= |s|
    ensures Clean(rule, IsWord(s[k - 1]), s[k..])
    decreases |s|
  {
    hide OkAt, IsWord;
    if k == 1 {
    } else {
      CleanTail(rule, IsWord(s[0]), s[1..], k - 1);
      assert s[1..][k - 1..] == s[k..] && s[1..][k - 2] == s[k - 1];
    }
  }

  /** At other characters there is nothing to find. */
  lemma OkElsewhere(rule: ListRule, inWord: bool, s: string)
    requires s != "" && s[0] != '(' && Lower(s[0]) != 'i'
    ensures OkAt(rule, inWord, s)
  {
    hide TupleTail, SeparatorLen, MoreTuples;
  }

  lemma OkBracket(inWord: bool, s: string)
    requires s != "" && s[0] == '('
    ensures OkAt(PlainIn, inWord, s)
  {
  }

  /** In front of `z`, the text of a collapsed list is clean. */
  lemma LoneClean(rule: ListRule, inWord: bool, z: string)
    requires Clean(rule, false, z)
    requires rule.NoRows? ==> MoreTuples(z) == 0
    ensures Clean(rule, inWord, "(?)" + z)
  {
    hide Clean, OkAt, MoreTuples;
    LoneOk(rule, inWord, z);
    OkElsewhere(rule, false, "?)" + z);
    OkElsewhere(rule, false, ")" + z);
    assert ['?'] + (")" + z) == "?)" + z && ['('] + ("?)" + z) == "(?)" + z;
    CleanStep(rule, false, ')', z);
    CleanStep(rule, false, '?', ")" + z);
    CleanStep(rule, inWord, '(', "?)" + z);
  }

  lemma CleanStep(rule: ListRule, inWord: bool, c: char, z: string)
    requires OkAt(rule, inWord, [c] + z) && Clean(rule, IsWord(c), z)
    ensures Clean(rule, inWord, [c] + z)
  {
    hide OkAt, IsWord;
    assert ([c] + z)[1..] == z;
  }

  lemma LoneOk(rule: ListRule, inWord: bool, z: string)
    requires rule.NoRows? ==> MoreTuples(z) == 0
    ensures OkAt(rule, inWord, "(?)" + z)
  {
    hide TupleLen, MoreTuples, TupleMultiLen, InListLen;
    match rule
    case NoMulti => LoneIsNoMulti(z);
    case NoRows =>
      LoneLength(z);
      assert ("(?)" + z)[3..] == z;
    case PlainIn => OkBracket(inWord, "(?)" + z);
  }

  lemma InClean(inWord: bool, z: string)
    requires Clean(PlainIn, false, z)
    ensures Clean(PlainIn, inWord, "IN (?)" + z)
  {
    hide Clean, OkAt;
    LoneClean(PlainIn, false, z);
    var t := "(?)" + z;
    OkElsewhere(PlainIn, true, " " + t);
    CleanStep(PlainIn, true, ' ', t);
    OkElsewhere(PlainIn, true, "N" + (" " + t));
    CleanStep(PlainIn, true, 'N', " " + t);
    var s := "N" + (" " + t);
    assert ['I'] + s == "IN (?)" + z;
    PlainOk(inWord, z);
    CleanStep(PlainIn, inWord, 'I', s);
  }

  lemma PlainOk(inWord: bool, z: string)
    ensures OkAt(PlainIn, inWord, "IN (?)" + z)
  {
    hide InListLen;
    assert ("IN (?)" + z)[2..6] == " (?)";
  }

  // ---------- the passes, one match at a time ----------

  /** Behind the rows a match took there are no more. */
  lemma {:induction false} NoMoreBehind(s: string)
    ensures MoreTuples(s[MoreTuples(s)..]) == 0
    decreases |s|
  {
    hide SeparatorLen, TupleLen, MoreTuples;
    var k := SeparatorLen(s);
    var n := TupleLen(s[k..]);
    MoreTuplesUnfolds(s, k, n);
    if k > 0 && n > 0 {
      NoMoreBehind(s[k + n..]);
      assert s[k + n..][MoreTuples(s[k + n..])..] == s[MoreTuples(s)..];
    } else {
      assert s[0..] == s;
    }
  }

  /** What follows a match that the pass turns into `(?)` has no rows in front. */
  lemma NoRowsBehind(pass: Pass, inWord: bool, s: string)
    requires pass.TuplesMany? || pass.TupleMulti?
    ensures var n := MatchLen(pass, inWord, s);
      n > 0 && (pass.TuplesMany? || OkAt(NoRows, inWord, s)) ==> MoreTuples(s[n..]) == 0
  {
    hide TupleLen, MoreTuples, SeparatorLen, TupleHead;
    var t := s[TupleLen(s)..];
    NoMoreBehind(t);
    if pass.TuplesMany? && MatchLen(pass, inWord, s) > 0 {
      assert t[MoreTuples(t)..] == s[MatchLen(pass, inWord, s)..];
    }
  }

  lemma ReplacedClean(pass: Pass, rule: ListRule, inWord: bool, s: string, n: nat, z: string)
    requires n == MatchLen(pass, inWord, s) > 0 && z == ReplaceAll(pass, false, s[n..])
    requires Cleans(pass, rule) || (Later(pass, rule) && OkAt(rule, inWord, s))
    requires Clean(rule, false, z)
    ensures Clean(rule, inWord, Replacement(pass) + z)
  {
    hide MatchLen, ReplaceAll, Clean, OkAt, MoreTuples;
    match pass
    case InList => InClean(inWord, z);
    case TuplesMany | TupleMulti =>
      if rule.NoRows? {
        NoRowsBehind(pass, inWord, s);
        MoreUnder(pass, false, s[n..]);
      }
      LoneClean(rule, inWord, z);
    case Blanks =>
      OkElsewhere(rule, inWord, [' '] + z);
      CleanStep(rule, inWord, ' ', z);
  }

  /** A letter is only ever a copy. */
  lemma LetterUnder(pass: Pass, t: string)
    requires Late(pass) && var out := ReplaceAll(pass, true, t); out != "" && Lower(out[0]) == 'n'
    ensures t != "" && ReplaceAll(pass, true, t)[0] == t[0]
    ensures ReplaceAll(pass, true, t)[1..] == ReplaceAll(pass, true, t[1..])
  {
    if t == "" { EmptyScan(pass, true); } else { ScanStep(pass, true, t); }
    if t != "" && MatchLen(pass, true, t) > 0 { MatchEdges(pass, true, t); MatchStart(pass, true, t); }
    hide MatchLen, ReplaceAll;
  }

  /** An `in` with its blanks is found before when it is found after. */
  lemma InHeadUnder(pass: Pass, inWord: bool, s: string)
    requires Late(pass) && s != "" && MatchLen(pass, inWord, s) == 0
    requires InHead(inWord, ReplaceAll(pass, inWord, s)) > 0
    ensures InHead(inWord, s) > 0
    ensures var out := ReplaceAll(pass, inWord, s);
      && out[2..] == ReplaceAll(pass, true, s[2..])
      && exists f :: out[InHead(inWord, out)..] == ReplaceAll(pass, f, s[InHead(inWord, s)..])
  {
    hide ReplaceAll, MatchLen, BlankRun;
    var out := ReplaceAll(pass, inWord, s);
    ScanStep(pass, inWord, s);
    assert IsWord(s[0]) && out[1..] == ReplaceAll(pass, true, s[1..]);
    assert out[1..][0] == out[1];
    LetterUnder(pass, s[1..]);
    assert s[1..][1..] == s[2..] && out[1..][1..] == out[2..] && s[1..][0] == s[1];
    var t, u := s[2..], out[2..];
    BlanksUnder(pass, true, t);
    var b, d := BlankRun(t), BlankRun(u);
    assert s[2 + b..] == t[b..] && out[2 + d..] == u[d..];
  }

  lemma InListUnder(pass: Pass, inWord: bool, s: string)
    requires Late(pass) && s != "" && MatchLen(pass, inWord, s) == 0
    requires InListLen(inWord, ReplaceAll(pass, inWord, s)) > 0
    ensures InListLen(inWord, s) > 0
    ensures ReplaceAll(pass, inWord, s)[2..] == ReplaceAll(pass, true, s[2..])
    ensures |s| > 1 && Lower(ReplaceAll(pass, inWord, s)[0]) == 'i' && Lower(ReplaceAll(pass, inWord, s)[1]) == 'n'
  {
    hide ReplaceAll, MatchLen, TupleLen;
    var out := ReplaceAll(pass, inWord, s);
    InHeadUnder(pass, inWord, s);
    var f :| out[InHead(inWord, out)..] == ReplaceAll(pass, f, s[InHead(inWord, s)..]);
    TupleUnder(pass, f, s[InHead(inWord, s)..]);
    hide BlankRun;
  }

  /** The bracket, the placeholder and the blank of a plain IN list stay. */
  lemma LoneStays(pass: Pass, inWord: bool, z: string)
    requires pass.TuplesMany? || pass.TupleMulti? || pass.Blanks?
    ensures var out := ReplaceAll(pass, inWord, "(?)" + z); |out| >= 3 && out[..3] == "(?)"
  {
    var s := "(?)" + z;
    ScanStep(pass, inWord, s);
    if MatchLen(pass, inWord, s) == 0 {
      CopiedLone(pass, inWord, z);
    } else {
      MatchStart(pass, inWord, s);
    }
    hide MatchLen, ReplaceAll;
  }

  lemma CopiedLone(pass: Pass, inWord: bool, z: string)
    requires Late(pass) && MatchLen(pass, inWord, "(?)" + z) == 0
    ensures var out := ReplaceAll(pass, inWord, "(?)" + z); |out| >= 3 && out[..3] == "(?)"
  {
    hide MatchLen, ReplaceAll, Late;
    var s := "(?)" + z;
    var out := ReplaceAll(pass, inWord, s);
    ScanStep(pass, inWord, s);
    assert s[1..] == "?)" + z && out[1..] == ReplaceAll(pass, IsWord('('), s[1..]);
    MarkUnder(pass, IsWord('('), s[1..], '?');
    assert s[1..][1..] == ")" + z;
    MarkUnder(pass, false, ")" + z, ')');
    assert out[1..][1..] == out[2..] && out[2..][0] == out[2];
  }

  lemma BlankStays(pass: Pass, s: string)
    requires (pass.TuplesMany? || pass.TupleMulti?) && s != "" && s[0] == ' '
    ensures ReplaceAll(pass, true, s) == " " + ReplaceAll(pass, false, s[1..])
  {
    if MatchLen(pass, true, s) > 0 { MatchStart(pass, true, s); }
    hide MatchLen, ReplaceAll;
    ScanStep(pass, true, s);
  }

  lemma BlankSquashed(s: string)
    requires |s| > 1 && s[0] == ' ' && !IsBlank(s[1])
    ensures ReplaceAll(Blanks, true, s) == " " + ReplaceAll(Blanks, false, s[1..])
  {
    assert BlankRun(s[1..]) == 0;
    assert BlankRun(s) == 1;
    hide BlankRun, ReplaceAll;
    ScanStep(Blanks, true, s);
  }

  lemma PlainStays(pass: Pass, s: string)
    requires pass.TuplesMany? || pass.TupleMulti? || pass.Blanks?
    requires |s| >= 4 && s[..4] == " (?)"
    ensures var out := ReplaceAll(pass, true, s); |out| >= 4 && out[..4] == " (?)"
  {
    hide MatchLen, ReplaceAll;
    var t := s[1..];
    assert s[0] == s[..4][0] && s[1] == s[..4][1];
    assert t == "(?)" + s[4..];
    if pass.Blanks? { BlankSquashed(s); } else { BlankStays(pass, s); }
    LoneStays(pass, false, s[4..]);
    BlankThenLone(ReplaceAll(pass, false, t));
  }

  lemma BlankThenLone(u: string)
    requires |u| >= 3 && u[..3] == "(?)"
    ensures (" " + u)[..4] == " (?)"
  {
  }

  lemma CopiedOk(pass: Pass, rule: ListRule, inWord: bool, s: string)
    requires s != "" && MatchLen(pass, inWord, s) == 0
    requires Cleans(pass, rule) || (Later(pass, rule) && OkAt(rule, inWord, s))
    ensures OkAt(rule, inWord, ReplaceAll(pass, inWord, s))
  {
    hide ReplaceAll, TuplesManyLen, TupleMultiLen, InListLen;
    match rule
    case NoMulti => MultiCopied(pass, inWord, s);
    case NoRows => RowsCopied(pass, inWord, s);
    case PlainIn =>
      if InListLen(inWord, ReplaceAll(pass, inWord, s)) > 0 {
        InListUnder(pass, inWord, s);
        PlainCopied(pass, s, ReplaceAll(pass, inWord, s));
      }
  }

  lemma PlainCopied(pass: Pass, s: string, out: string)
    requires pass.TuplesMany? || pass.TupleMulti? || pass.Blanks?
    requires |s| > 1 && |out| > 1 && out[2..] == ReplaceAll(pass, true, s[2..])
    requires StartsPlain(s) && Lower(out[0]) == 'i' && Lower(out[1]) == 'n'
    ensures StartsPlain(out)
  {
    hide ReplaceAll, Lower;
    PlainMiddle(s);
    PlainStays(pass, s[2..]);
    PlainMiddle(out);
  }

  lemma PlainMiddle(s: string)
    ensures StartsPlain(s) ==> |s| >= 6 && s[2..][..4] == " (?)"
    ensures |s| >= 6 && s[2..][..4] == " (?)" && Lower(s[0]) == 'i' && Lower(s[1]) == 'n' ==> StartsPlain(s)
  {
    if |s| >= 6 { assert s[2..][..4] == s[2..6]; }
  }

  /** Each collapsing pass leaves nothing for itself, and the later ones bring nothing back. */
  lemma {:induction false} PassCleans(pass: Pass, rule: ListRule, inWord: bool, s: string)
    requires Cleans(pass, rule) || (Later(pass, rule) && Clean(rule, inWord, s))
    ensures Clean(rule, inWord, ReplaceAll(pass, inWord, s))
    decreases |s|
  {
    hide MatchLen, ReplaceAll, OkAt, Replacement;
    if s == "" {
      EmptyScan(pass, inWord);
    } else {
      var n := MatchLen(pass, inWord, s);
      ScanStep(pass, inWord, s);
      var k := Width(n);
      if !Cleans(pass, rule) { CleanTail(rule, inWord, s, k); }
      PassCleans(pass, rule, IsWord(s[k - 1]), s[k..]);
      if n > 0 {
        AfterIntEnds(pass, inWord, s);
        ReplacedClean(pass, rule, inWord, s, n, ReplaceAll(pass, false, s[n..]));
      } else {
        CopiedOk(pass, rule, inWord, s);
        CleanStep(rule, inWord, s[0], ReplaceAll(pass, IsWord(s[0]), s[1..]));
      }
    }
  }

  lemma SquashedIsClean(sql: string, rule: ListRule)
    ensures Clean(rule, false, Squashed(sql))
  {
    CollapsedIs(Stripped(sql));
    hide ReplaceAll, Clean;
    var s6 := Stripped(sql);
    var s7 := Apply(InList, s6);
    var s8 := Apply(TuplesMany, s7);
    var s9 := Apply(TupleMulti, s8);
    match rule
    case PlainIn =>
      PassCleans(InList, rule, false, s6);
      PassCleans(TuplesMany, rule, false, s7);
      PassCleans(TupleMulti, rule, false, s8);
      PassCleans(Blanks, rule, false, s9);
    case NoRows =>
      PassCleans(TuplesMany, rule, false, s7);
      PassCleans(TupleMulti, rule, false, s8);
      PassCleans(Blanks, rule, false, s9);
    case NoMulti =>
      PassCleans(TupleMulti, rule, false, s8);
      PassCleans(Blanks, rule, false, s9);
  }

  // ---------- trimming: a match in a beginning is a match in the whole ----------

  lemma CloseExtends(x: string, z: string)
    requires CloseLen(x) > 0
    ensures CloseLen(x + z) == CloseLen(x) && SeparatorLen(x + z) == 0
  {
    BlankRunOver(x, z);
    hide BlankRun;
  }

  lemma SeparatorExtends(x: string, z: string, c: nat)
    requires c == SeparatorLen(x) && 0 < c < |x|
    ensures SeparatorLen(x + z) == c
  {
    var b := BlankRun(x);
    BlankRunOver(x, z);
    BlankRunOver(x[b + 1..], z);
    assert (x + z)[b + 1..] == x[b + 1..] + z;
    hide BlankRun, IsBlank;
  }

  lemma {:induction false} TailExtends(x: string, z: string)
    requires TupleTail(x) > 0
    ensures TupleTail(x + z) == TupleTail(x)
    decreases |x|
  {
    hide SeparatorLen, CloseLen, TupleTail;
    var c := SeparatorLen(x);
    if c == 0 {
      TailCloses(x);
      CloseExtends(x, z);
      TailCloses(x + z);
    } else {
      TailGoes(x, c);
      SeparatorExtends(x, z, c);
      TailGoes(x + z, c);
      TailExtends(x[c + 1..], z);
      assert (x + z)[c + 1..] == x[c + 1..] + z;
    }
  }

  lemma HeadExtends(x: string, z: string)
    requires TupleHead(x) > 0
    ensures TupleHead(x + z) == TupleHead(x)
  {
    BlankRunOver(x[1..], z);
    assert (x + z)[1..] == x[1..] + z;
    hide BlankRun;
  }

  lemma TupleExtends(x: string, z: string)
    requires TupleLen(x) > 0
    ensures TupleLen(x + z) == TupleLen(x)
  {
    hide TupleHead, TupleTail;
    var h := TupleHead(x);
    HeadExtends(x, z);
    TailExtends(x[h..], z);
    assert (x + z)[h..] == x[h..] + z;
  }

  lemma MultiExtends(x: string, z: string)
    requires TupleMultiLen(x) > 0
    ensures TupleMultiLen(x + z) > 0
  {
    hide TupleHead, TupleTail, SeparatorLen;
    TupleExtends(x, z);
    var h := TupleHead(x);
    HeadExtends(x, z);
    var t := x[h..];
    TailGoes(t, SeparatorLen(t));
    SeparatorExtends(t, z, SeparatorLen(t));
    assert (x + z)[h..] == t + z;
  }

  lemma MoreExtends(x: string, z: string)
    ensures MoreTuples(x) > 0 ==> MoreTuples(x + z) > 0
  {
    hide SeparatorLen, TupleLen, MoreTuples;
    var c := SeparatorLen(x);
    MoreTuplesUnfolds(x, c, TupleLen(x[c..]));
    if MoreTuples(x) > 0 {
      SeparatorExtends(x, z, c);
      TupleExtends(x[c..], z);
      assert (x + z)[c..] == x[c..] + z;
      MoreTuplesUnfolds(x + z, c, TupleLen((x + z)[c..]));
    }
  }

  lemma RowsExtend(x: string, z: string)
    ensures TuplesManyLen(x) > 0 ==> TuplesManyLen(x + z) > 0
  {
    hide TupleLen, MoreTuples;
    var n := TupleLen(x);
    if n > 0 {
      TupleExtends(x, z);
      MoreExtends(x[n..], z);
      assert (x + z)[n..] == x[n..] + z;
    }
  }

  lemma InListExtends(inWord: bool, x: string, z: string)
    requires InListLen(inWord, x) > 0
    ensures InListLen(inWord, x + z) == InListLen(inWord, x)
  {
    hide TupleLen, BlankRun;
    var h := InHead(inWord, x);
    BlankRunOver(x[2..], z);
    assert (x + z)[2..] == x[2..] + z;
    assert TupleLen(x[h..]) <= |x[h..]|;
    TupleExtends(x[h..], z);
    assert (x + z)[h..] == x[h..] + z;
  }

  lemma BlankAndLone(t: string)
    requires |t| >= 4 && t[..4] == " (?)"
    ensures BlankRun(t) == 1 && TupleLen(t[1..]) == 3
  {
    hide TupleLen;
    assert t[0] == t[..4][0] && t[1] == t[..4][1];
    assert t[1..] == "(?)" + t[4..];
    LoneLength(t[4..]);
    assert BlankRun(t[1..]) == 0;
  }

  lemma PlainIsSix(inWord: bool, s: string)
    requires InListLen(inWord, s) > 0 && StartsPlain(s)
    ensures InListLen(inWord, s) == 6
  {
    hide TupleLen, BlankRun;
    PlainMiddle(s);
    BlankAndLone(s[2..]);
    assert s[3..] == s[2..][1..];
  }

  lemma ShorterOk(rule: ListRule, inWord: bool, x: string, z: string)
    requires OkAt(rule, inWord, x + z)
    ensures OkAt(rule, inWord, x)
  {
    hide TupleMultiLen, TuplesManyLen, InListLen;
    match rule
    case NoMulti => if TupleMultiLen(x) > 0 { MultiExtends(x, z); }
    case NoRows => RowsExtend(x, z);
    case PlainIn =>
      if InListLen(inWord, x) > 0 {
        InListExtends(inWord, x, z);
        PlainIsSix(inWord, x + z);
        assert x[2..6] == (x + z)[2..6];
      }
  }

  // ---------- lower case: lists have no letters ----------

  lemma LowerTail(s: string, k: nat)
    requires k <= |s|
    ensures ToLower(s)[k..] == ToLower(s[k..])
  {
    hide ToLower, Lower;
  }

  lemma {:induction false} BlanksLower(s: string)
    ensures BlankRun(ToLower(s)) == BlankRun(s)
  {
    if s == "" {
    } else {
      LowerTail(s, 1);
      BlanksLower(s[1..]);
    }
  }

  lemma SeparatorLower(s: string)
    ensures SeparatorLen(ToLower(s)) == SeparatorLen(s) && CloseLen(ToLower(s)) == CloseLen(s)
  {
    hide BlankRun, ToLower, IsBlank;
    BlanksLower(s);
    var b := BlankRun(s);
    if b < |s| {
      LowerTail(s, b + 1);
      BlanksLower(s[b + 1..]);
      assert ToLower(s)[b] == Lower(s[b]);
    }
  }

  lemma {:induction false} TailLower(s: string)
    ensures TupleTail(ToLower(s)) == TupleTail(s)
    decreases |s|
  {
    hide SeparatorLen, CloseLen, TupleTail, ToLower;
    var c := SeparatorLen(s);
    SeparatorLower(s);
    if c == 0 {
      TailCloses(s);
      TailCloses(ToLower(s));
    } else {
      TailGoes(s, c);
      TailGoes(ToLower(s), c);
      if c < |s| {
        assert ToLower(s)[c] == Lower(s[c]);
        TailLower(s[c + 1..]);
        LowerTail(s, c + 1);
      }
    }
  }

  lemma HeadLower(s: string)
    ensures TupleHead(ToLower(s)) == TupleHead(s)
  {
    hide BlankRun, ToLower;
    if s != "" {
      var t := s[1..];
      LowerTail(s, 1);
      BlanksLower(t);
      assert ToLower(s)[0] == Lower(s[0]);
      if BlankRun(t) < |t| { assert ToLower(s)[1 + BlankRun(t)] == Lower(s[1 + BlankRun(t)]); }
    }
  }

  lemma TupleLower(s: string)
    ensures TupleLen(ToLower(s)) == TupleLen(s) && TupleMultiLen(ToLower(s)) == TupleMultiLen(s)
  {
    hide TupleHead, TupleTail, SeparatorLen, ToLower;
    var h := TupleHead(s);
    HeadLower(s);
    LowerTail(s, h);
    TailLower(s[h..]);
    SeparatorLower(s[h..]);
  }

  lemma MoreLower(s: string)
    ensures MoreTuples(ToLower(s)) > 0 <==> MoreTuples(s) > 0
  {
    hide TupleLen, SeparatorLen, MoreTuples, ToLower;
    var c := SeparatorLen(s);
    SeparatorLower(s);
    LowerTail(s, c);
    TupleLower(s[c..]);
    MoreTuplesUnfolds(s, c, TupleLen(s[c..]));
    MoreTuplesUnfolds(ToLower(s), c, TupleLen(s[c..]));
  }

  lemma RowsLower(s: string)
    ensures TuplesManyLen(ToLower(s)) > 0 <==> TuplesManyLen(s) > 0
  {
    hide TupleLen, MoreTuples, ToLower;
    TupleLower(s);
    LowerTail(s, TupleLen(s));
    MoreLower(s[TupleLen(s)..]);
  }

  lemma InListLower(inWord: bool, s: string)
    ensures InListLen(inWord, ToLower(s)) == InListLen(inWord, s)
  {
    InHeadLower(inWord, s);
    hide TupleLen, InHead, ToLower;
    var h := InHead(inWord, s);
    LowerTail(s, h);
    TupleLower(s[h..]);
  }

  lemma InHeadLower(inWord: bool, s: string)
    ensures InHead(inWord, ToLower(s)) == InHead(inWord, s)
  {
    hide BlankRun, ToLower;
    if |s| > 1 {
      LowerTail(s, 2);
      BlanksLower(s[2..]);
      assert ToLower(s)[0] == Lower(s[0]) && ToLower(s)[1] == Lower(s[1]);
    }
  }

  lemma OkLower(rule: ListRule, inWord: bool, s: string)
    requires OkAt(rule, inWord, s)
    ensures OkAt(rule, inWord, ToLower(s))
  {
    hide TupleMultiLen, TuplesManyLen, InListLen, ToLower;
    match rule
    case NoMulti => TupleLower(s);
    case NoRows => RowsLower(s);
    case PlainIn =>
      InListLower(inWord, s);
      if InListLen(inWord, s) > 0 { PlainLower(s); }
  }

  lemma PlainLower(s: string)
    requires StartsPlain(s)
    ensures StartsPlain(ToLower(s))
  {
    hide ToLower;
    var l := ToLower(s);
    assert forall i :: 2 <= i < 6 ==> s[i] == s[2..6][i - 2];
    assert forall i :: 2 <= i < 6 ==> l[i] == Lower(s[i]) == s[i];
    assert l[2..6] == s[2..6];
  }

  // ---------- the template ----------

  lemma CleanEverywhere(rule: ListRule, s: string, i: nat)
    requires i < |s|
    ensures Clean(rule, false, s) ==> OkAt(rule, i > 0 && IsWord(s[i - 1]), s[i..])
  {
    hide OkAt;
    assert s[0..] == s;
    if Clean(rule, false, s) && i > 0 {
      CleanTail(rule, false, s, i);
      assert s[i..] != "";
    }
  }

  lemma TemplateOkAt(sql: string, rule: ListRule, i: nat)
    requires i < |Normalize(sql)|
    ensures var t := Normalize(sql); OkAt(rule, i > 0 && IsWord(t[i - 1]), t[i..])
  {
    hide Normalize, Squashed, OkAt, Clean, ToLower, TrimSpace;
    var u := Squashed(sql);
    LastSteps(sql);
    SquashedIsClean(sql, rule);
    var a, b := TrimSpaceCuts(u);
    var t := u[a..b];
    CleanEverywhere(rule, u, a + i);
    assert u[a + i..] == t[i..] + u[b..];
    var f := a + i > 0 && IsWord(u[a + i - 1]);
    ShorterOk(rule, f, t[i..], u[b..]);
    OkLower(rule, f, t[i..]);
    LowerTail(t, i);
    assert Normalize(sql) == ToLower(t);
    if i > 0 { assert ToLower(t)[i - 1] == Lower(u[a + i - 1]); }
  }

  /** Nowhere in a template is there a tuple of several placeholders or a second row, and an IN list is
      always `in (?)`: all that the list passes look for has been found, for any text. */
  lemma NothingLeftToCollapse(sql: string, i: nat)
    requires i < |Normalize(sql)|
    ensures var t := Normalize(sql);
      && TupleMultiLen(t[i..]) == 0
      && TuplesManyLen(t[i..]) == 0
      && (InListLen(i > 0 && IsWord(t[i - 1]), t[i..]) > 0 ==> i + 6 <= |t| && t[i..i + 6] == "in (?)")
  {
    hide Normalize, InListLen, TuplesManyLen, TupleMultiLen;
    TemplateOkAt(sql, NoMulti, i);
    TemplateOkAt(sql, NoRows, i);
    TemplateOkAt(sql, PlainIn, i);
    NormalizeIsTemplate(sql);
    var t := Normalize(sql);
    if StartsPlain(t[i..]) {
      assert t[i + 2..i + 6] == t[i..][2..6];
      assert t[i..i + 6] == [t[i]] + [t[i + 1]] + t[i + 2..i + 6];
      assert !IsUpper(t[i]) && !IsUpper(t[i + 1]);
    }
  }
}
