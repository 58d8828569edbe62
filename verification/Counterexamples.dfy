/** Inputs on which the engine does not do what a reader of SQL would expect. For each family the
    exact condition is proved where the function is modelled. */
module Counterexamples {
  import opened CText
  import opened Tuples
  import opened Filter
  import opened HashTable
  import opened JoinSpec
  import opened HashJoinSpec
  import opened HashJoinServed
  import opened FilterPlanner
  import opened Evaluator
  import opened Readings
  import opened Bottom
  import opened JoinQuery
  import Comparison
  import Precedence
  import JoinPlanner
  import TdbInsert
  import SelectPlanner
  import Aggregate

  /** A row with the one column `s`. */
  function OneColumn(s: string): Row {
    Row(TPL_DELIMITED, s + [NUL], [0])
  }

  lemma OneColumnReads(s: string)
    requires NUL !in s
    ensures OneColumn(s).StrCol(0) == s
  {
    var m := s + [NUL];
    assert m[0..0 + |s|] == s;
    CStringReads(m, 0, s);
  }

  /** `left.column0 = right.column0`. */
  const EQUALITY: FilterOp :=
    Comparison(Side(0, DTYPE_STR, "", 0), -1, Side(0, DTYPE_STR, "", 0), CMP_COL_COL, AND)

  lemma EqualityIsTyped()
    ensures StringEquality([EQUALITY], 0, 0) && Typed([EQUALITY])
  {
    EqualityHolds([EQUALITY], 0, 0, ZEROED, ZEROED);
  }

  lemma Pairs(l: Row, r: Row)
    requires l.StrCol(0) != r.StrCol(0)
    ensures Typed([EQUALITY]) && Matches(l, [r, l], [EQUALITY]) == [(l, l)]
  {
    EqualityIsTyped();
    EqualityHolds([EQUALITY], 0, 0, l, r);
    EqualityHolds([EQUALITY], 0, 0, l, l);
    assert [r, l][1..] == [l] && [l][1..] == [] && Matches(l, [], [EQUALITY]) == [];
    hide On;
    assert Matches(l, [l], [EQUALITY]) == [(l, l)];
  }

  /** Two left tuples with the key of the second right tuple, which shares its bucket with the
      first: the hash join emits one pair, the nested loop two. */
  lemma ChainedDuplicateIsLost()
    ensures Typed([EQUALITY])
    ensures var a, b := OneColumn("a"), OneColumn("b");
            && Join([b, b], [a, b], [EQUALITY]) == [(b, b), (b, b)]
            && HashJoinRun([b, b], [a, b], [EQUALITY], 0, 0, _ => 0, 1) == [(b, b)]
  {
    var a, b := OneColumn("a"), OneColumn("b");
    var h: Hash, rights := _ => 0, [a, b];
    OneColumnReads("a");
    OneColumnReads("b");
    EqualityIsTyped();
    Pairs(b, a);
    HashJoinServes([b, b], rights, 0, 0, [EQUALITY], h, 1);
    ServedOnce(a, b, h);
    hide Matches, OneColumn, HashJoinRun, Row.StrCol, HashJoinServed.Served;
    assert [b, b][1..] == [b] && [b][1..] == [];
    assert Join([], rights, [EQUALITY]) == [] && Join([b], rights, [EQUALITY]) == [(b, b)];
  }

  lemma ServedOnce(a: Row, b: Row, h: Hash)
    requires a.StrCol(0) == "a" && b.StrCol(0) == "b" && h("a") == h("b")
    ensures Served([b, b], 0, Keys([a, b], 0), h, {}) == [b]
  {
    var keys := Keys([a, b], 0);
    assert keys[0] == "a" && keys[1] == "b" && Chained(keys, h, "b");
    hide Chained, Row.StrCol;
    assert [b, b][1..] == [b] && [b][1..] == [] && Served([], 0, keys, h, {"b"}) == [];
    assert Served([b], 0, keys, h, {} + {"b"}) == [];
  }

  /** `left.column1 = right.column0`, on numbers. */
  const NUMBERS: FilterOp :=
    Comparison(Side(1, DTYPE_LONG, "", 0), -1, Side(0, DTYPE_LONG, "", 0), CMP_COL_COL, AND)

  lemma NumbersMatch(l: Row, r: Row)
    requires l.LongCol(1) == r.LongCol(0)
    ensures KeyEquality([NUMBERS], 1, 0) && Typed([NUMBERS]) && On(l, r, [NUMBERS])
  {
    EqualityTyped([NUMBERS], 1, 0);
    assert LongDifference(l.LongCol(1), r.LongCol(0)) == 0;
    assert EvalOp(NUMBERS, Flat(l), Flat(r));
    assert [NUMBERS][1..] == [];
    assert Fold([NUMBERS], true, AND, Flat(l), Flat(r)) ==
           Fold([NUMBERS][1..], Combine(AND, EvalOp(NUMBERS, Flat(l), Flat(r)), true), AND, Flat(l), Flat(r));
    hide EvalOp, Row.LongCol;
  }

  /** The left line `x;1` twice, the right line `1`, and the numbers in the second and the first
      column compared: once the first left tuple is cast, its bucket is not rewound, and the second
      one finds nothing. The nested loop emits both pairs. */
  lemma RepeatedNumberIsLost()
    ensures Typed([NUMBERS])
    ensures var l, r, h := LineRow("x;1"), LineRow("1"), (k: string) => if k == "x" then 1 else 0;
            && Join([l, l], [r], [NUMBERS]) == [(l, r), (l, r)]
            && HashJoinRun([l, l], [r], [NUMBERS], 1, 0, h, 2) == [(l, r)]
  {
    var l, r, h := LineRow("x;1"), LineRow("1"), (k: string) => if k == "x" then 1 else 0;
    LinesOfNumbers();
    NumbersMatch(l, r);
    BothMatch(l, r);
    NumbersRun(l, r, h);
    hide *;
  }

  lemma BothMatch(l: Row, r: Row)
    requires Typed([NUMBERS]) && On(l, r, [NUMBERS])
    ensures Join([l, l], [r], [NUMBERS]) == [(l, r), (l, r)]
  {
    OneMatch(l, r);
    hide On, Matches;
    assert [l, l][1..] == [l] && [l][1..] == [];
    assert Join([], [r], [NUMBERS]) == [] && Join([l], [r], [NUMBERS]) == [(l, r)];
  }

  lemma NumbersRun(l: Row, r: Row, h: Hash)
    requires Typed([NUMBERS]) && On(l, r, [NUMBERS]) && h("1") == 0 && h("x") == 1 && Fits(h, 2)
    requires JoinValue(l, 1, false) == "1" && JoinValue(l, 1, true) == "x" && r.StrCol(0) == "1"
    ensures HashJoinRun([l, l], [r], [NUMBERS], 1, 0, h, 2) == [(l, r)]
  {
    FirstProbe([l, l], [r], [NUMBERS], 1, 0, h, 2);
    OneKey(r, h);
    var t := Build(Keys([r], 0), h, 2);
    var t' := Advance(t, h, "1");
    HitRun(t, h, l, false, [l], [r], [NUMBERS], 1, 0);
    MissRun(t', h, l, true, [l], [r], [NUMBERS], 1, Keys([r], 0));
    MissRun(t', h, l, false, [], [r], [NUMBERS], 1, Keys([r], 0));
    assert [l, l][1..] == [l] && [l][1..] == [];
    assert [r][0] == r && Casts([NUMBERS]);
    hide *;
  }

  lemma LinesOfNumbers()
    ensures var l, r := LineRow("x;1"), LineRow("1");
            && JoinValue(l, 1, false) == "1" && JoinValue(l, 1, true) == "x" && r.StrCol(0) == "1"
            && l.LongCol(1) == r.LongCol(0)
  {
    SplitsJoined(["1"], 0);
    RowReadsColumns("1", 0);
    assert ["x", "1"][1..] == ["1"] && JoinColumns(["x", "1"]) == "x;1";
    SplitsJoined(["x", "1"], 0);
    SplitsJoined(["x", "1"], 1);
    RowReadsColumns("x;1", 0);
    RowReadsColumns("x;1", 1);
    assert LineRow("x;1").Offset(0) == 0;
    hide Column, ColumnCount, JoinColumns, Atol;
  }

  lemma OneMatch(l: Row, r: Row)
    requires Typed([NUMBERS]) && On(l, r, [NUMBERS])
    ensures Matches(l, [r], [NUMBERS]) == [(l, r)]
  {
    hide On;
    assert [r][1..] == [] && Matches(l, [], [NUMBERS]) == [];
  }

  /** The hashmap of the one right key, and what is left once it was served. */
  lemma OneKey(r: Row, h: Hash)
    requires r.StrCol(0) == "1" && h("1") == 0 && h("x") == 1 && Fits(h, 2)
    ensures var t := Build(Keys([r], 0), h, 2);
            var t' := Advance(t, h, "1");
            && Pending(t, h, "1") == [0] && Pending(t', h, "1") == [] && Pending(t', h, "x") == []
            && Rewind(t', h, "x") == t'
  {
    assert Keys([r], 0) == ["1"] && ["1"][..0] == [];
    var t := Build(["1"], h, 2);
    var empty: Table := EmptyTable(2);
    assert Build([], h, 2) == empty && empty[0] == [] && empty[1] == [];
    var none: Bucket := [];
    assert Index(none, "1") == 0 && InsertBucket(none, "1", 0) == [Entry("1", [0], 0)];
    assert t == Insert(empty, h, "1", 0) == empty[0 := [Entry("1", [0], 0)]];
    assert t[0] == [Entry("1", [0], 0)] && t[1] == [];
    assert Index(t[0], "1") == 0;
    var t' := Advance(t, h, "1");
    assert t'[0] == [Entry("1", [0], 1)] && t'[1] == [];
    hide Row.StrCol;
  }

  /** `column < 'b'` on a tuple whose column is `a`: the evaluator swaps the operands. */
  lemma SwappedStringComparison()
    ensures var op := Comparison(Side(0, DTYPE_STR, "", 0), -3, Side(-1, DTYPE_STR, "b", 0), CMP_COL_CONST, AND);
            var t := Flat(OneColumn("a"));
            Comparison.Meaning(op, t, t) && !EvalComparison(op, t, t)
  {
    OneColumnReads("a");
  }

  /** `2147483648 > 0`: the difference is negative as an `int`. */
  lemma FarLongsCompareWrong(t: View)
    ensures var l, r := Side(-1, DTYPE_LONG, "", TWO31), Side(-1, DTYPE_LONG, "", 0);
            var op := Comparison(l, -4, r, CMP_CONST_CONST, AND);
            Comparison.Meaning(op, t, t) && !EvalComparison(op, t, t)
  {
    assert LongDifference(TWO31, 0) == -TWO31;
  }

  /** A comparison of the two numbers for equality. */
  function Same(m: int, n: int, conn: Connector): FilterOp {
    Comparison(Side(-1, DTYPE_LONG, "", m), -1, Side(-1, DTYPE_LONG, "", n), CMP_CONST_CONST, conn)
  }

  /** `WHERE 1 = 1 OR 1 = 1 AND 1 = 2`: no tuple passes, though with AND binding tighter all do. */
  lemma OrThenAnd(t: View)
    ensures var ops := [Same(1, 1, OR), Same(1, 1, AND), Same(1, 2, AND)];
            && Typed(ops) && !Holds(ops, t, t)
            && var r := Precedence.Results(ops, t, t);
               Precedence.AndFirst(r[0], Precedence.Connectors(ops), r[1..])
  {
    var a, b, c := Same(1, 1, OR), Same(1, 1, AND), Same(1, 2, AND);
    var ops := [a, b, c];
    assert ops[1..] == [b, c] && [b, c][1..] == [c] && [c][1..] == [];
    assert TypedOp(a) && TypedOp(b) && TypedOp(c) && Typed([c]) && Typed([b, c]) && Typed(ops);
    assert EvalOp(a, t, t) && EvalOp(b, t, t) && !EvalOp(c, t, t);
    assert Precedence.Results([c], t, t) == [false] && Precedence.Results([b, c], t, t) == [true, false];
    assert Precedence.Results(ops, t, t) == [true, true, false] && [true, true, false][1..] == [true, false];
    assert Precedence.Connectors([c]) == [] && Precedence.Connectors([b, c]) == [AND];
    assert Precedence.Connectors(ops) == [OR, AND] && [OR, AND][1..] == [AND] && [true, false][1..] == [false];
    Precedence.FoldIsLeftToRight(ops, true, AND, t, t);
    hide EvalOp;
    assert !Precedence.LeftToRight(true, [OR, AND], [true, false]);
  }

  /** The left line `a`, the right line `a;b`, and `l.column0 = r.column0`: what is compared is the
      second right column, and the pair is not found. */
  lemma FirstRightColumnNotShifted()
    ensures var op := Comparison(Side(0, DTYPE_STR, "", 0), -1, Side(1, DTYPE_STR, "", 0), CMP_COL_COL, AND);
            var l, r := LineRow("a"), LineRow("a;b");
            && |l.offsets| == 1 && |r.offsets| == 2 && JoinPlanner.RelocatedOp(op, 1) == op
            && EvalComparison(op, Joined(1, l, r), Joined(1, l, r)) && !EvalComparison(op, Flat(l), Flat(r))
  {
    SplitsJoined(["a"], 0);
    RowReadsColumns("a", 0);
    assert ["a", "b"][1..] == ["b"] && JoinColumns(["a", "b"]) == "a;b";
    SplitsJoined(["a", "b"], 0);
    SplitsJoined(["a", "b"], 1);
    RowReadsColumns("a;b", 0);
    RowReadsColumns("a;b", 1);
    hide LineRow, Column, Row.StrCol, ColumnStart, JoinColumns;
    assert LineRow("a").StrCol(0) == "a" && LineRow("a;b").StrCol(0) == "a" && LineRow("a;b").StrCol(1) == "b";
    assert Strcmp("a", "b") != 0;
  }

  /** A line of two columns. */
  lemma TwoColumns(a: string, b: string)
    requires DELIMITER !in a && NUL !in a && DELIMITER !in b && NUL !in b
    ensures var line := a + [DELIMITER] + b;
            && ColumnCount(line) == 2 && NUL !in line
            && LineRow(line).StrCol(0) == a && LineRow(line).StrCol(1) == b
            && LineRow(line).Offset(0) == 0 == LineRow(line).Offset(2)
            && Terminated(LineRow(line).data, 0)
            && LineRow(line).data == a + [NUL] + b + [NUL]
  {
    var line := a + [DELIMITER] + b;
    assert [a, b][1..] == [b] && JoinColumns([a, b]) == line;
    SplitsJoined([a, b], 0);
    SplitsJoined([a, b], 1);
    RowReadsColumns(line, 0);
    RowReadsColumns(line, 1);
    FirstColumn(line);
    hide Column, ColumnCount, JoinColumns, ColumnStart;
  }

  lemma DigitReads(d: char)
    requires '0' <= d <= '9'
    ensures Atol([d]) == d as int - '0' as int
  {
    assert SkipSpace([d]) == [d] && DigitsValue([d], 0) == DigitsValue([d][1..], d as int - '0' as int);
  }

  /** `SELECT SUM(k) FROM l JOIN r ON l.k = r.k` with the text column `k`, the left line `1;5x`, and two
      right lines that match: before the sum reads its number ON reads `5x`, and after that `1`, so the
      second pair is lost. */
  method SumMovesText() returns (before: string, num: int, after: string)
    ensures before == "5x" && num == LineRow("1;5x").LongCol(1) && after == "1"
  {
    SumLine();
    hide LineRow, Atol, ColumnCount, Recorded, Row.StrCol, Row.LongCol, CString;
    var t := new Tuple(TUPLESIZE);
    t.ScanLine("1;5x");
    assert t.ColumnOk(1);
    before := t.GetTupleColByIndex(1);
    num := t.GetTupleLongColByIndex(1);
    assert t.slots == [1] && t.ColumnOk(1) && t.offsets[1] == 0;
    after := t.GetTupleColByIndex(1);
    CStringPrefix(t.row.data, t.data[..], 0);
  }

  lemma SumLine()
    ensures ColumnCount("1;5x") == 2 && NUL !in "1;5x" && |"1;5x"| < LINEBUFF
    ensures var row := LineRow("1;5x");
            && row.kind == TPL_DELIMITED && |row.offsets| == 2 && Terminated(row.data, 0)
            && CString(row.data, 0) == "1" && row.StrCol(1) == "5x"
  {
    TwoColumns("1", "5x");
    assert "1" + [DELIMITER] + "5x" == "1;5x";
  }

  /** `l.k = r.k`, on texts in second columns. */
  const SECOND_TEXTS: FilterOp :=
    Comparison(Side(1, DTYPE_STR, "", 0), -1, Side(1, DTYPE_STR, "", 0), CMP_COL_COL, AND)

  /** This join reads the text that is summed, which is not in a first column. */
  lemma SummedTextIsRead()
    ensures Typed([SECOND_TEXTS]) && LeftReadsText([SECOND_TEXTS], 1) && RightReadsText([SECOND_TEXTS], 1)
  {
    assert TypedOp(SECOND_TEXTS) && Typed([SECOND_TEXTS][1..]);
  }

  /** `ON l.b = r.d AND r.c = l.a` with numbers, `l(a, b)` and `r(c, d)`: as planned, and as relocated. */
  const B_IS_D: FilterOp :=
    Comparison(Side(1, DTYPE_LONG, "", 0), -1, Side(3, DTYPE_LONG, "", 0), CMP_COL_COL, AND)

  const C_IS_A: FilterOp :=
    Comparison(Side(2, DTYPE_LONG, "", 0), -1, Side(0, DTYPE_LONG, "", 0), CMP_COL_COL, AND)

  /** Relocation preserves the list as far as it goes, but the column number past the left width is
      not the first number that is read there; written the other way around, it is. */
  lemma PastNumberComesSecond()
    ensures JoinPlanner.AllRelocatable([B_IS_D, C_IS_A], 2, 2)
    ensures var ops := JoinPlanner.Relocated([B_IS_D, C_IS_A], 2);
            ReadsLeft(ops, 2) && FirstLeft(ops) == Some(1)
    ensures FirstLeft(JoinPlanner.Relocated([C_IS_A, B_IS_D], 2)) == Some(2)
  {
    assert [B_IS_D, C_IS_A][1..] == [C_IS_A] && [C_IS_A][1..] == [] && [C_IS_A, B_IS_D][1..] == [B_IS_D];
    var ops := JoinPlanner.Relocated([B_IS_D, C_IS_A], 2);
    assert JoinPlanner.Relocated([C_IS_A], 2) == [C_IS_A];
    assert ops[0].left.idx == 1 && ops[1..] == [C_IS_A];
    assert JoinPlanner.AllRelocatable([C_IS_A], 2, 2);
    assert ReadsLeft([C_IS_A], 2);
  }

  /** In both tables the lines `1;7` and `3;7`: for the first left line both comparisons read its own
      numbers, 7 and 1; for the second one the number past the width is read at the slot it was
      given before, where there is nothing, and the pair of the second lines is lost. */
  method PastNumberKeepsSlot() returns (first: int, second: int)
    ensures first == LineRow("1;7").LongCol(2) == 1
    ensures second == 0 && LineRow("3;7").LongCol(2) == 3
  {
    PastLines();
    hide LineRow, Atol, ColumnCount;
    var t := new Tuple(TUPLESIZE);
    first := CastPast(t);
    t.ScanLine("3;7");
    var _ := t.GetTupleLongColByIndex(1);
    assert t.row.data <= t.data[..] && t.data[..][1] == NUL && t.offsets[2] == 1;
    second := Atol(CString(t.data[..], t.offsets[2]));
  }

  /** On the first of the two lines. */
  method CastPast(t: Tuple) returns (first: int)
    requires t.Shape() && t.data.Length == TUPLESIZE && t.offsets[2] == 0
    modifies t, t.data
    ensures t.Shape() && t.data == old(t.data) && t.offsets[2] == 1 && first == LineRow("1;7").LongCol(2)
  {
    PastLines();
    hide LineRow, Atol, ColumnCount;
    t.ScanLine("1;7");
    t.Pad();
    var _ := t.GetTupleLongColByIndex(1);
    first := t.GetTupleLongColByIndex(2);
    assert t.slots == [1, 2] && t.ColumnOk(2) && t.offsets[2] == 1;
  }

  lemma PastLines()
    ensures ColumnCount("1;7") == ColumnCount("3;7") == 2 && NUL !in "1;7" && NUL !in "3;7" && Atol("") == 0
    ensures Terminated(LineRow("1;7").data, 0) && LineRow("1;7").LongCol(2) == 1 && LineRow("3;7").LongCol(2) == 3
    ensures |LineRow("3;7").data| > 1 && LineRow("3;7").data[1] == NUL
    ensures LineRow("1;7").kind == LineRow("3;7").kind == TPL_DELIMITED
    ensures |LineRow("1;7").offsets| == |LineRow("3;7").offsets| == 2
  {
    PastLine('1');
    PastLine('3');
    assert "1;7" == ['1'] + [DELIMITER] + "7" && "3;7" == ['3'] + [DELIMITER] + "7";
    hide ColumnCount, LineRow, DigitsValue;
  }

  lemma PastLine(d: char)
    requires '0' <= d <= '9'
    ensures var line := [d] + [DELIMITER] + "7";
            && ColumnCount(line) == 2 && NUL !in line && Terminated(LineRow(line).data, 0)
            && LineRow(line).LongCol(2) == d as int - '0' as int
            && |LineRow(line).data| > 1 && LineRow(line).data[1] == NUL
            && LineRow(line).kind == TPL_DELIMITED && |LineRow(line).offsets| == 2
  {
    TwoColumns([d], "7");
    DigitReads(d);
    hide ColumnStart, DigitsValue, ColumnCount, Cut;
  }

  /** CHAR(20) before a number: the scan looks for the number at byte 20, INSERT puts it at 50. */
  lemma ShortCharMovesColumns()
    ensures var columns := [TdbInsert.Declared("a", DTYPE_STR, 20), TdbInsert.Declared("b", DTYPE_LONG, 0)];
            var t := TdbInsert.ConstructTDB(columns);
            OffsetOf(TdbInsert.Lengths(t), 1) == 20 && OffsetOf(TdbInsert.Widths(TdbInsert.Types(t)), 1) == 50
  {
  }

  /** The columns `a` and `b`. */
  const BASE: ResultSet :=
    ResultSet([ColumnMetadata("a", "", DTYPE_STR, true), ColumnMetadata("b", "", DTYPE_STR, true)], [0, 1])

  /** `SELECT * FROM (SELECT b, a FROM t)` shows `a` first. */
  lemma StarForgetsOrder(bottom: Bottom)
    ensures var scan := SelectPlanner.OpScan(bottom, BASE);
            var refs := [SelectPlanner.ColumnRef("", "b"), SelectPlanner.ColumnRef("", "a")];
            var inner := SelectPlanner.Select(SelectPlanner.Columns(refs), SelectPlanner.Base, None);
            var outer := SelectPlanner.Select(SelectPlanner.Star, SelectPlanner.Sub(inner), None);
            var plan, sub := SelectPlanner.PlanSelect(outer, scan), SelectPlanner.PlanSelect(inner, scan);
            && sub.Some? && SelectPlanner.Shown(sub.value.desc) == [1, 0]
            && plan.Some? && SelectPlanner.Shown(plan.value.desc) == [0, 1]
  {
    var refs := [SelectPlanner.ColumnRef("", "b"), SelectPlanner.ColumnRef("", "a")];
    hide FindColIdxInResDesc, SelectPlanner.Resolve, SelectPlanner.ShownFrom;
    FindsBothColumns();
    SelectPlanner.ResolveOne(refs[0], BASE.columns);
    SelectPlanner.ResolveOne(refs[1], BASE.columns);
    SelectPlanner.ResolveAppend([refs[0]], [refs[1]], BASE.columns);
    assert [refs[0]] + [refs[1]] == refs && [1] + [0] == [1, 0];
    var d := SelectPlanner.ListProjection([1, 0], BASE);
    ShownPair(d.columns, 1, 0);
    ShownPair(SelectPlanner.StarProjection(d).columns, 0, 1);
    assert SelectPlanner.Identity(2) == [0, 1];
  }

  lemma FindsBothColumns()
    ensures FindColIdxInResDesc(BASE.columns, "a", "") == Some(0)
    ensures FindColIdxInResDesc(BASE.columns, "b", "") == Some(1)
  {
    assert BASE.columns[1..][0].name == "b" && BASE.columns[0].name == "a";
  }

  lemma ShownPair(cols: seq<ColumnMetadata>, i: nat, j: nat)
    requires i < |cols| && j < |cols| && cols[i].active && cols[j].active
    ensures SelectPlanner.ShownFrom(cols, [i, j]) == [i, j]
  {
    assert [i, j][1..] == [j] && SelectPlanner.ShownFrom(cols, [j]) == [j];
  }

  lemma AggregatesMisled()
    ensures Aggregate.Emitted(Aggregate.MAX, [-1]) == Aggregate.Value(0)
    ensures Aggregate.Emitted(Aggregate.SUM, [LONG_MAX, 1]) == Aggregate.Value(LONG_MIN)
    ensures Aggregate.Emitted(Aggregate.AVG, [-3, 0]) == Aggregate.Value(0x7FFF_FFFF_FFFF_FFFE)
  {
    assert [LONG_MAX, 1][1..] == [1] && [1][1..] == [];
    assert Aggregate.Add(Aggregate.Add(0, LONG_MAX), 1) == LONG_MIN;
    assert Aggregate.FoldColumn(Aggregate.SUM, Aggregate.Add(0, LONG_MAX), [1]) == LONG_MIN;
    assert Aggregate.FoldColumn(Aggregate.AVG, 0, [-3, 0]) == -3 by {
      assert [-3, 0][1..] == [0] && Aggregate.FoldColumn(Aggregate.AVG, -3, [0]) == -3;
    }
  }
}
