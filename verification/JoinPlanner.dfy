/** Planning a join: the ON list is planned against the concatenated columns and then relocated,
    so that its column numbers point into the left and the right tuple; and the join is chosen. */
module JoinPlanner {
  import opened Arithmetic
  import opened CText
  import opened Tuples
  import opened Filter
  import opened Comparison
  import opened FilterPlanner

  // ----- the columns of a join -----

  function JoinDescription(left: ResultSet, right: ResultSet): ResultSet {
    ResultSet(left.columns + right.columns, left.columnOrder + right.columnOrder)
  }

  // ----- relocation -----

  /** Column numbers behind the left columns become numbers of right columns. The first right
      column is not shifted; the -1 of a constant is, as an unsigned number beyond every column. */
  function RelocatedSide(s: Side, n: nat): Side {
    if s.idx < 0 || s.idx > n then s.(idx := s.idx - n) else s
  }

  function RelocatedOp(op: FilterOp, n: nat): FilterOp {
    match op
    case Comparison(l, o, r, t, next) => Comparison(RelocatedSide(l, n), o, RelocatedSide(r, n), t, next)
    case Parenthesis(_, _) => op
  }

  function Relocated(ops: seq<FilterOp>, n: nat): (r: seq<FilterOp>)
    ensures |r| == |ops|
  {
    if ops == [] then [] else [RelocatedOp(ops[0], n)] + Relocated(ops[1..], n)
  }

  /** The loop over the planned ON list; parentheses are not entered. */
  method RelocateOps(ops: seq<FilterOp>, leftColumnCount: nat) returns (r: seq<FilterOp>)
    ensures r == Relocated(ops, leftColumnCount)
  {
    r := [];
    var i := 0;
    assert ops[0..] == ops;
    while i < |ops|
      invariant i <= |ops| && r + Relocated(ops[i..], leftColumnCount) == Relocated(ops, leftColumnCount)
    {
      assert ops[i..][0] == ops[i] && ops[i..][1..] == ops[i + 1..];
      r := r + [RelocatedOp(ops[i], leftColumnCount)];
      i := i + 1;
    }
  }

  // ----- where a relocated comparison is right -----

  /** The column that a number reads in a row of that width. That a kept tuple still reads so past its
      width is for `JoinFits` to say. */
  function Place(i: int, width: nat): nat {
    if 0 <= i < width then i else 0
  }

  /** Where the relocated operands are read: the left one in the left tuple, of `n` columns, the
      right one in the right tuple, of `m` columns. */
  function LeftPlace(op: FilterOp, n: nat): nat
    requires op.Comparison?
  {
    Place(RelocatedSide(op.left, n).idx, n)
  }

  function RightPlace(op: FilterOp, n: nat, m: nat): nat
    requires op.Comparison?
  {
    Place(RelocatedSide(op.right, n).idx, m)
  }

  /** A comparison planned against `n` left and `m` right columns. */
  predicate Planned(op: FilterOp, n: nat, m: nat) {
    && op.Comparison? && Comparable(op)
    && (LeftIsColumn(op) ==> op.left.idx < n + m) && (RightIsColumn(op) ==> op.right.idx < n + m)
  }

  /** A column on the left of the operator is a left one, and a column on its right a right one,
      though not the first one, unless that is read as the first one for being past the width; or
      `=` or `!=` is between columns at the same place, written right before left. */
  predicate Relocatable(op: FilterOp, n: nat, m: nat)
    requires op.Comparison?
  {
    var a, b, p, q := op.left.idx, op.right.idx, LeftPlace(op, n), RightPlace(op, n, m);
    || ((LeftIsColumn(op) ==> a < n) && (RightIsColumn(op) ==> b >= n && q == b - n))
    || (op.compType == CMP_COL_COL && a >= n && b < n && p == b && q == a - n && op.boolOp in {-1, -2})
  }

  predicate ColumnComparison(op: FilterOp) {
    op.Comparison? && Comparable(op) && op.compType == CMP_COL_COL
  }

  /** How two columns of the same type compare. */
  function CompareColumns(dtype: Datatype, t1: View, i: nat, t2: View, j: nat): int {
    if dtype == DTYPE_STR then Strcmp(t1.StrCol(i), t2.StrCol(j))
    else LongDifference(t1.LongCol(i), t2.LongCol(j))
  }

  lemma ColumnsCompared(op: FilterOp, t1: View, t2: View)
    requires ColumnComparison(op)
    ensures EvalComparison(op, t1, t2) ==
            Decide(op.boolOp, CompareColumns(op.left.dtype, t1, op.left.idx, t2, op.right.idx))
  {
  }

  lemma LongDifferenceSymmetric(a: int, b: int)
    ensures LongDifference(a, b) == 0 <==> LongDifference(b, a) == 0
  {
    CutDifference(a - b);
    CutDifference(b - a);
    if (a - b) % TWO32 == 0 {
      ModShift(0, -((a - b) / TWO32), TWO32);
    }
    if (b - a) % TWO32 == 0 {
      ModShift(0, -((b - a) / TWO32), TWO32);
    }
  }

  lemma CompareSymmetric(dtype: Datatype, t1: View, i: nat, t2: View, j: nat)
    ensures CompareColumns(dtype, t1, i, t2, j) == 0 <==> CompareColumns(dtype, t2, j, t1, i) == 0
  {
    LongDifferenceSymmetric(t1.LongCol(i), t2.LongCol(j));
  }

  lemma PlaceReads(row: Row, i: nat, width: nat)
    requires HasWidth(row, width)
    ensures row.StrCol(i) == row.StrCol(Place(i, width)) && row.LongCol(i) == row.LongCol(Place(i, width))
  {
  }

  /** A column of the concatenation is one of the left or of the right tuple. */
  lemma JoinedReads(n: nat, l: Row, r: Row, a: nat)
    ensures var j := Joined(n, l, r);
            if a < n then j.StrCol(a) == l.StrCol(a) && j.LongCol(a) == l.LongCol(a)
            else j.StrCol(a) == r.StrCol(a - n) && j.LongCol(a) == r.LongCol(a - n)
  {
  }

  lemma RelocatesColumns(op: FilterOp, n: nat, m: nat, l: Row, r: Row)
    requires op.Comparison? && ColumnComparison(op) && Planned(op, n, m) && Relocatable(op, n, m)
    requires HasWidth(l, n) && HasWidth(r, m)
    ensures ColumnComparison(RelocatedOp(op, n))
    ensures EvalComparison(RelocatedOp(op, n), Flat(l), Flat(r)) ==
            EvalComparison(op, Joined(n, l, r), Joined(n, l, r))
  {
    hide *;
    var a, b, j, rel, dtype := op.left.idx, op.right.idx, Joined(n, l, r), RelocatedOp(op, n), op.left.dtype;
    var p, q := LeftPlace(op, n), RightPlace(op, n, m);
    RelocatablePlaces(op, n, m);
    ColumnsCompared(op, j, j);
    ColumnsCompared(rel, Flat(l), Flat(r));
    PlacesCompared(dtype, l, rel.left.idx, n, r, rel.right.idx, m);
    if a < n {
      JoinedCompared(dtype, n, l, r, a, b - n);
    } else {
      JoinedCrossed(dtype, n, l, r, a - n, b);
      CompareSymmetric(dtype, Flat(l), p, Flat(r), q);
      DecidesEqual(op.boolOp, CompareColumns(dtype, Flat(l), p, Flat(r), q),
                   CompareColumns(dtype, Flat(r), q, Flat(l), p));
    }
  }

  lemma RelocatablePlaces(op: FilterOp, n: nat, m: nat)
    requires ColumnComparison(op) && Planned(op, n, m) && Relocatable(op, n, m)
    ensures var rel := RelocatedOp(op, n);
            && ColumnComparison(rel) && rel.left.dtype == op.left.dtype && rel.boolOp == op.boolOp
            && rel.left.idx >= 0 && LeftPlace(op, n) == Place(rel.left.idx, n)
            && rel.right.idx >= 0 && RightPlace(op, n, m) == Place(rel.right.idx, m)
    ensures var a, b, p, q := op.left.idx, op.right.idx, LeftPlace(op, n), RightPlace(op, n, m);
            || (0 <= a < n && b >= n && p == a && q == b - n)
            || (a >= n && 0 <= b < n && p == b && q == a - n && op.boolOp in {-1, -2})
  {
  }

  lemma DecidesEqual(boolOp: int, c: int, d: int)
    requires boolOp in {-1, -2} && (c == 0 <==> d == 0)
    ensures Decide(boolOp, c) == Decide(boolOp, d)
  {
  }

  lemma JoinedCompared(dtype: Datatype, n: nat, l: Row, r: Row, a: nat, b: nat)
    requires a < n
    ensures var j := Joined(n, l, r);
            CompareColumns(dtype, j, a, j, n + b) == CompareColumns(dtype, Flat(l), a, Flat(r), b)
  {
    JoinedReads(n, l, r, a);
    JoinedReads(n, l, r, n + b);
    hide Row.StrCol, Row.LongCol, Strcmp, LongDifference;
  }

  lemma JoinedCrossed(dtype: Datatype, n: nat, l: Row, r: Row, a: nat, b: nat)
    requires b < n
    ensures var j := Joined(n, l, r);
            CompareColumns(dtype, j, n + a, j, b) == CompareColumns(dtype, Flat(r), a, Flat(l), b)
  {
    JoinedReads(n, l, r, n + a);
    JoinedReads(n, l, r, b);
    hide Row.StrCol, Row.LongCol, Strcmp, LongDifference;
  }

  lemma PlacesCompared(dtype: Datatype, l: Row, i: nat, n: nat, r: Row, k: nat, m: nat)
    requires HasWidth(l, n) && HasWidth(r, m)
    ensures CompareColumns(dtype, Flat(l), i, Flat(r), k) ==
            CompareColumns(dtype, Flat(l), Place(i, n), Flat(r), Place(k, m))
  {
    PlaceReads(l, i, n);
    PlaceReads(r, k, m);
    hide Row.StrCol, Row.LongCol, Strcmp, LongDifference;
  }

  lemma RelocatesConstant(op: FilterOp, n: nat, m: nat, l: Row, r: Row)
    requires Planned(op, n, m) && Relocatable(op, n, m) && HasWidth(l, n) && HasWidth(r, m)
    requires op.compType != CMP_COL_COL
    ensures Comparable(RelocatedOp(op, n))
    ensures EvalComparison(RelocatedOp(op, n), Flat(l), Flat(r)) ==
            EvalComparison(op, Joined(n, l, r), Joined(n, l, r))
  {
    if op.compType == CMP_COL_CONST {
      JoinedReads(n, l, r, op.left.idx);
    } else if op.compType == CMP_CONST_COL {
      JoinedReads(n, l, r, op.right.idx);
      PlaceReads(r, RelocatedSide(op.right, n).idx, m);
    }
    hide LongDifference, Strcmp, Row.StrCol, Row.LongCol;
  }

  /** A relocatable comparison says on the two tuples what it says on their concatenation. */
  lemma RelocatesOp(op: FilterOp, n: nat, m: nat, l: Row, r: Row)
    requires Planned(op, n, m) && Relocatable(op, n, m) && HasWidth(l, n) && HasWidth(r, m)
    ensures Comparable(RelocatedOp(op, n))
    ensures EvalComparison(RelocatedOp(op, n), Flat(l), Flat(r)) ==
            EvalComparison(op, Joined(n, l, r), Joined(n, l, r))
  {
    if op.compType == CMP_COL_COL {
      RelocatesColumns(op, n, m, l, r);
    } else {
      RelocatesConstant(op, n, m, l, r);
    }
    hide EvalComparison, Relocatable, HasWidth;
  }

  /** Every operator of the list is a relocatable comparison. */
  predicate AllRelocatable(ops: seq<FilterOp>, n: nat, m: nat) {
    ops == [] || (Planned(ops[0], n, m) && Relocatable(ops[0], n, m) && AllRelocatable(ops[1..], n, m))
  }

  lemma {:induction false} RelocatedTyped(ops: seq<FilterOp>, n: nat, m: nat)
    requires AllRelocatable(ops, n, m)
    ensures Typed(ops) && Typed(Relocated(ops, n))
  {
    if ops != [] {
      RelocatedTyped(ops[1..], n, m);
      var rel := Relocated(ops, n);
      assert rel[1..] == Relocated(ops[1..], n) && rel[0] == RelocatedOp(ops[0], n);
    }
  }

  lemma {:induction false} RelocatesFold(ops: seq<FilterOp>, n: nat, m: nat, l: Row, r: Row, acc: bool, conn: Connector)
    requires AllRelocatable(ops, n, m) && HasWidth(l, n) && HasWidth(r, m)
    ensures Typed(ops) && Typed(Relocated(ops, n))
    ensures Fold(Relocated(ops, n), acc, conn, Flat(l), Flat(r)) ==
            Fold(ops, acc, conn, Joined(n, l, r), Joined(n, l, r))
  {
    hide Relocatable, EvalComparison;
    RelocatedTyped(ops, n, m);
    if ops != [] {
      var rel, j := Relocated(ops, n), Joined(n, l, r);
      RelocatesOp(ops[0], n, m, l, r);
      var acc' := Combine(conn, EvalOp(ops[0], j, j), acc);
      RelocatesFold(ops[1..], n, m, l, r, acc', ops[0].operatorNext);
      assert rel[1..] == Relocated(ops[1..], n) && rel[0] == RelocatedOp(ops[0], n);
      assert EvalOp(rel[0], Flat(l), Flat(r)) == EvalOp(ops[0], j, j);
      assert Fold(rel, acc, conn, Flat(l), Flat(r)) == Fold(rel[1..], acc', ops[0].operatorNext, Flat(l), Flat(r));
    }
  }

  /** Relocation preserves the meaning of the ON list: on the two tuples it says what the planned
      list says of the concatenation. */
  lemma RelocationPreserves(ops: seq<FilterOp>, n: nat, m: nat, l: Row, r: Row)
    requires AllRelocatable(ops, n, m) && HasWidth(l, n) && HasWidth(r, m)
    ensures Typed(ops) && Typed(Relocated(ops, n))
    ensures Holds(Relocated(ops, n), Flat(l), Flat(r)) == Holds(ops, Joined(n, l, r), Joined(n, l, r))
  {
    RelocatesFold(ops, n, m, l, r, true, AND);
  }

  // ----- and only there: two columns -----

  function Bit(x: bool): string { if x then "1" else "" }

  function BitValue(x: bool): int { if x then 1 else 0 }

  ghost predicate Reads(t: View, i: nat, x: bool) {
    t.StrCol(i) == Bit(x) && t.LongCol(i) == BitValue(x)
  }

  /** Which bit a column holds: `x` is that of column `k`, `y` that of all others. */
  datatype Bits = Bits(k: nat, x: bool, y: bool) {
    function At(i: nat): bool {
      if i == k then x else y
    }
  }

  /** The line of a table with `width` columns that hold these bits. */
  function BitLine(width: nat, bits: Bits): string
    requires width > 0
  {
    JoinColumns(BitColumns(width, bits))
  }

  function BitColumns(width: nat, bits: Bits): (cols: seq<string>)
    ensures |cols| == width
  {
    seq(width, i requires 0 <= i => Bit(bits.At(i)))
  }

  /** A line that a scan can read, with that many columns. */
  ghost predicate IsLine(line: string, width: nat) {
    |line| < LINEBUFF && NUL !in line && ColumnCount(line) == width
  }

  lemma {:induction false} ShortColumnsFit(cols: seq<string>)
    requires cols != [] && forall i :: 0 <= i < |cols| ==> |cols[i]| <= 1 && NUL !in cols[i]
    ensures |JoinColumns(cols)| <= 2 * |cols| - 1 && NUL !in JoinColumns(cols)
  {
    if |cols| > 1 {
      ShortColumnsFit(cols[1..]);
    }
  }

  lemma AtolBit(x: bool)
    ensures Atol(Bit(x)) == BitValue(x)
  {
    assert SkipSpace("1") == "1" && DigitsValue("1", 0) == DigitsValue("1"[1..], 1) == 1;
  }

  lemma BitLineReads(width: nat, bits: Bits, i: nat)
    requires i < width <= MAXCOLS
    ensures IsLine(BitLine(width, bits), width) && HasWidth(LineRow(BitLine(width, bits)), width)
    ensures Reads(Flat(LineRow(BitLine(width, bits))), i, bits.At(i))
  {
    var cols := BitColumns(width, bits);
    ShortColumnsFit(cols);
    SplitsJoined(cols, i);
    RowReadsColumns(JoinColumns(cols), i);
    AtolBit(bits.At(i));
    hide JoinColumns, ColumnCount, Column, Atol, Row.StrCol, Cut, ColumnStart;
    assert cols[i] == Bit(bits.At(i));
  }

  lemma CompareBits(dtype: Datatype, t1: View, i: nat, x: bool, t2: View, j: nat, y: bool)
    requires Reads(t1, i, x) && Reads(t2, j, y)
    ensures var c := CompareColumns(dtype, t1, i, t2, j);
            (c == 0 <==> x == y) && (c < 0 <==> !x && y) && (c > 0 <==> x && !y)
  {
    CutDifference(BitValue(x) - BitValue(y));
  }

  /** The first of two different bits that `op` tells apart from two equal ones. */
  function Telling(boolOp: int): bool {
    boolOp == -4 || boolOp == -6
  }

  /** Bits for the two tables on which relocation changes the answer. */
  function WitnessBits(op: FilterOp, n: nat, m: nat): (Bits, Bits)
    requires ColumnComparison(op)
  {
    var a, b, p, q, u := op.left.idx, op.right.idx, LeftPlace(op, n), RightPlace(op, n, m), Telling(op.boolOp);
    if a < n && b >= n then (Bits(0, u, u), Bits(q, !u, u))
    else if a < n || b >= n || op.boolOp !in {-1, -2} then (Bits(0, u, u), Bits(0, !u, !u))
    else if p != b then (Bits(p, u, !u), Bits(0, !u, !u))
    else (Bits(0, u, u), Bits(q, !u, u))
  }

  function WitnessLines(op: FilterOp, n: nat, m: nat): (string, string)
    requires ColumnComparison(op) && n > 0 && m > 0
  {
    var (x, y) := WitnessBits(op, n, m);
    (BitLine(n, x), BitLine(m, y))
  }

  lemma PlaceBit(row: Row, i: nat, width: nat, x: bool)
    requires HasWidth(row, width) && Reads(Flat(row), Place(i, width), x)
    ensures Reads(Flat(row), i, x)
  {
    PlaceReads(row, i, width);
  }

  lemma JoinedBit(n: nat, l: Row, r: Row, a: nat, x: bool)
    requires if a < n then Reads(Flat(l), a, x) else Reads(Flat(r), a - n, x)
    ensures Reads(Joined(n, l, r), a, x)
  {
    JoinedReads(n, l, r, a);
  }

  /** Tuples whose columns read as these bits get different answers before and after relocation. */
  lemma BitsTell(op: FilterOp, n: nat, m: nat, l: Row, r: Row, x: bool, y: bool)
    requires ColumnComparison(op) && HasWidth(l, n) && HasWidth(r, m) && ColumnComparison(RelocatedOp(op, n))
    requires Reads(Joined(n, l, r), op.left.idx, x) && Reads(Joined(n, l, r), op.right.idx, y)
    requires x == y || (x != Telling(op.boolOp) && op.boolOp !in {-1, -2})
    requires Reads(Flat(l), LeftPlace(op, n), Telling(op.boolOp))
    requires Reads(Flat(r), RightPlace(op, n, m), !Telling(op.boolOp))
    ensures EvalComparison(RelocatedOp(op, n), Flat(l), Flat(r)) !=
            EvalComparison(op, Joined(n, l, r), Joined(n, l, r))
  {
    var j, u, rel := Joined(n, l, r), Telling(op.boolOp), RelocatedOp(op, n);
    PlaceBit(l, rel.left.idx, n, u);
    PlaceBit(r, rel.right.idx, m, !u);
    ColumnsCompared(op, j, j);
    ColumnsCompared(rel, Flat(l), Flat(r));
    CompareBits(op.left.dtype, j, op.left.idx, x, j, op.right.idx, y);
    CompareBits(op.left.dtype, Flat(l), rel.left.idx, u, Flat(r), rel.right.idx, !u);
    hide EvalComparison, CompareColumns, Reads;
  }

  /** For a comparison of columns that is not relocatable: one line of each table on which
      relocation changes the answer. */
  lemma WitnessTells(op: FilterOp, n: nat, m: nat)
    requires ColumnComparison(op) && Planned(op, n, m) && !Relocatable(op, n, m)
    requires 0 < n <= MAXCOLS && 0 < m <= MAXCOLS
    ensures ColumnComparison(RelocatedOp(op, n))
    ensures var (x, y) := WitnessLines(op, n, m);
            && IsLine(x, n) && IsLine(y, m) && HasWidth(LineRow(x), n) && HasWidth(LineRow(y), m)
            && EvalComparison(RelocatedOp(op, n), Flat(LineRow(x)), Flat(LineRow(y))) !=
               EvalComparison(op, Joined(n, LineRow(x), LineRow(y)), Joined(n, LineRow(x), LineRow(y)))
  {
    var (x, y) := WitnessBits(op, n, m);
    var l, r := LineRow(BitLine(n, x)), LineRow(BitLine(m, y));
    WitnessBitsDiffer(op, n, m);
    hide *;
    BitLineReads(n, x, LeftPlace(op, n));
    BitLineReads(m, y, RightPlace(op, n, m));
    BitReads(n, m, x, y, op.left.idx);
    BitReads(n, m, x, y, op.right.idx);
    BitsTell(op, n, m, l, r, BitAt(n, x, y, op.left.idx), BitAt(n, x, y, op.right.idx));
  }

  /** The bit of a column of the concatenation. */
  function BitAt(n: nat, x: Bits, y: Bits, i: nat): bool {
    if i < n then x.At(i) else y.At(i - n)
  }

  lemma BitReads(n: nat, m: nat, x: Bits, y: Bits, i: nat)
    requires i < n + m && 0 < n <= MAXCOLS && 0 < m <= MAXCOLS
    ensures Reads(Joined(n, LineRow(BitLine(n, x)), LineRow(BitLine(m, y))), i, BitAt(n, x, y, i))
  {
    if i < n {
      BitLineReads(n, x, i);
    } else {
      BitLineReads(m, y, i - n);
    }
    JoinedBit(n, LineRow(BitLine(n, x)), LineRow(BitLine(m, y)), i, BitAt(n, x, y, i));
    hide BitLine, LineRow, Reads;
  }

  lemma WitnessBitsDiffer(op: FilterOp, n: nat, m: nat)
    requires ColumnComparison(op) && Planned(op, n, m) && !Relocatable(op, n, m) && n > 0 && m > 0
    ensures ColumnComparison(RelocatedOp(op, n)) && LeftPlace(op, n) < n && RightPlace(op, n, m) < m
    ensures 0 <= op.left.idx < n + m && 0 <= op.right.idx < n + m
    ensures var (x, y) := WitnessBits(op, n, m);
            var u, v, t := BitAt(n, x, y, op.left.idx), BitAt(n, x, y, op.right.idx), Telling(op.boolOp);
            && x.At(LeftPlace(op, n)) == t && y.At(RightPlace(op, n, m)) == !t
            && (u == v || (u != t && op.boolOp !in {-1, -2}))
  {
  }

  /** Relocation preserves a comparison of columns on all tuples of the two tables, and on all
      pairs of lines, exactly when it is relocatable. */
  lemma RelocatesIff(op: FilterOp, n: nat, m: nat)
    requires ColumnComparison(op) && Planned(op, n, m) && 0 < n <= MAXCOLS && 0 < m <= MAXCOLS
    ensures ColumnComparison(RelocatedOp(op, n))
    ensures (forall l, r | HasWidth(l, n) && HasWidth(r, m) ::
               EvalComparison(RelocatedOp(op, n), Flat(l), Flat(r)) ==
               EvalComparison(op, Joined(n, l, r), Joined(n, l, r)))
            <==> Relocatable(op, n, m)
    ensures (forall x, y | IsLine(x, n) && IsLine(y, m) ::
               EvalComparison(RelocatedOp(op, n), Flat(LineRow(x)), Flat(LineRow(y))) ==
               EvalComparison(op, Joined(n, LineRow(x), LineRow(y)), Joined(n, LineRow(x), LineRow(y))))
            <==> Relocatable(op, n, m)
  {
    assert ColumnComparison(RelocatedOp(op, n));
    hide EvalComparison, LineRow, Relocatable, RelocatedOp, Planned, IsLine, HasWidth;
    if Relocatable(op, n, m) {
      forall l, r | HasWidth(l, n) && HasWidth(r, m)
        ensures EvalComparison(RelocatedOp(op, n), Flat(l), Flat(r)) ==
                EvalComparison(op, Joined(n, l, r), Joined(n, l, r))
      {
        RelocatesOp(op, n, m, l, r);
      }
      forall x, y | IsLine(x, n) && IsLine(y, m)
        ensures EvalComparison(RelocatedOp(op, n), Flat(LineRow(x)), Flat(LineRow(y))) ==
                EvalComparison(op, Joined(n, LineRow(x), LineRow(y)), Joined(n, LineRow(x), LineRow(y)))
      {
        LineHasWidth(x, n);
        LineHasWidth(y, m);
        RelocatesOp(op, n, m, LineRow(x), LineRow(y));
      }
    } else {
      WitnessTells(op, n, m);
      var (x, y) := WitnessLines(op, n, m);
    }
  }

  lemma LineHasWidth(line: string, width: nat)
    requires IsLine(line, width)
    ensures HasWidth(LineRow(line), width)
  {
  }

  // ----- and only there: a column and a constant -----

  predicate ConstantComparison(op: FilterOp) {
    op.Comparison? && Comparable(op) && op.compType in {CMP_COL_CONST, CMP_CONST_COL}
  }

  /** The constant of such a comparison. */
  function ConstantSide(op: FilterOp): (s: Side)
    requires ConstantComparison(op)
  {
    if op.compType == CMP_COL_CONST then op.right else op.left
  }

  /** A constant as the parser leaves it. */
  predicate IsConstant(s: Side) {
    NUL !in s.text && IsLong(s.num)
  }

  predicate IsValue(v: Value, dtype: Datatype) {
    match v
    case Text(s) => dtype == DTYPE_STR && NUL !in s
    case Number(n) => dtype == DTYPE_LONG && IsLong(n)
  }

  ghost predicate Holding(t: View, i: nat, v: Value) {
    match v
    case Text(s) => t.StrCol(i) == s
    case Number(n) => t.LongCol(i) == n
  }

  /** The answer when the column holds `v`. */
  predicate AnswerFor(op: FilterOp, v: Value)
    requires ConstantComparison(op) && IsValue(v, op.left.dtype)
  {
    match v
    case Text(s) => Decide(op.boolOp, Strcmp(ConstantSide(op).text, s))
    case Number(n) =>
      Decide(op.boolOp,
             if op.compType == CMP_COL_CONST then LongDifference(n, op.right.num) else LongDifference(op.left.num, n))
  }

  lemma AnswersFor(op: FilterOp, t1: View, t2: View, v: Value)
    requires ConstantComparison(op) && IsValue(v, op.left.dtype)
    requires if op.compType == CMP_COL_CONST then Holding(t1, op.left.idx, v) else Holding(t2, op.right.idx, v)
    ensures EvalComparison(op, t1, t2) == AnswerFor(op, v)
  {
  }

  /** Some columns are answered yes, and some no: only nothing is greater than, and all is at least,
      a text constant that is empty, given that its operands are swapped. */
  predicate Discriminates(op: FilterOp)
    requires ConstantComparison(op)
  {
    op.left.dtype == DTYPE_LONG || ConstantSide(op).text != "" || op.boolOp !in {-4, -6}
  }

  /** A long whose difference from the constant is cut to that sign. */
  function LongBeside(op: FilterOp, positive: bool): int
    requires ConstantComparison(op)
  {
    var c, sign := ConstantSide(op).num, if op.compType == CMP_COL_CONST then 1 else -1;
    var near, far := if positive then 1 else -1, if positive then -TWO31 - 1 else TWO31;
    if IsLong(c + sign * near) then c + sign * near else c + sign * far
  }

  /** Two values that such a comparison answers differently. */
  function TellingValues(op: FilterOp): (Value, Value)
    requires ConstantComparison(op)
  {
    var c := ConstantSide(op);
    if op.left.dtype == DTYPE_LONG then (Number(c.num), Number(LongBeside(op, op.boolOp in {-4, -6})))
    else (Text(c.text), if op.boolOp in {-4, -6} then Text("") else Text(c.text + "a"))
  }

  lemma {:induction false} LongerIsGreater(s: string)
    ensures Strcmp(s, s) == 0 && Strcmp(s, s + "a") < 0
  {
    if s != "" {
      assert (s + "a")[1..] == s[1..] + "a";
      LongerIsGreater(s[1..]);
    }
  }

  lemma LongBesideDiffers(op: FilterOp, positive: bool)
    requires ConstantComparison(op) && IsConstant(ConstantSide(op))
    ensures var c, n := ConstantSide(op).num, LongBeside(op, positive);
            var d := if op.compType == CMP_COL_CONST then LongDifference(n, c) else LongDifference(c, n);
            IsLong(n) && (if positive then d > 0 else d < 0)
  {
    var c, n := ConstantSide(op).num, LongBeside(op, positive);
    CutDifference(if op.compType == CMP_COL_CONST then n - c else c - n);
  }

  lemma ValuesTell(op: FilterOp)
    requires ConstantComparison(op) && IsConstant(ConstantSide(op)) && Discriminates(op)
    ensures var (v, w) := TellingValues(op);
            && IsValue(v, op.left.dtype) && IsValue(w, op.left.dtype) && AnswerFor(op, v) != AnswerFor(op, w)
  {
    var c := ConstantSide(op);
    if op.left.dtype == DTYPE_LONG {
      LongBesideDiffers(op, op.boolOp in {-4, -6});
      CutDifference(0);
    } else {
      LongerIsGreater(c.text);
    }
    hide LongBeside, ToInt32, ToInt64;
  }

  function FieldOf(v: Value): string {
    match v
    case Text(s) => s + [NUL]
    case Number(n) => EncodeLong(n)
  }

  /** A record whose column `k` holds `v` and all others `w`. */
  function ValueRow(width: nat, k: nat, v: Value, w: Value): Row {
    FieldRow(seq(width, i => FieldOf(if i == k then v else w)))
  }

  lemma ValueRowHolds(width: nat, k: nat, v: Value, w: Value, i: nat, dtype: Datatype)
    requires i < width && IsValue(v, dtype) && IsValue(w, dtype)
    ensures HasWidth(ValueRow(width, k, v, w), width)
    ensures Holding(Flat(ValueRow(width, k, v, w)), i, if i == k then v else w)
  {
    var fields := seq(width, i => FieldOf(if i == k then v else w));
    FieldOfRow(fields, i);
    var held := if i == k then v else w;
    assert fields[i] == FieldOf(held);
    match held {
      case Text(s) => TextField(fields, i, s);
      case Number(n) => LongField(fields, i, n);
    }
  }

  lemma PlaceHolds(row: Row, i: nat, width: nat, v: Value)
    requires HasWidth(row, width) && Holding(Flat(row), Place(i, width), v)
    ensures Holding(Flat(row), i, v)
  {
    PlaceReads(row, i, width);
  }

  lemma JoinedHolds(n: nat, l: Row, r: Row, a: nat, v: Value)
    requires if a < n then Holding(Flat(l), a, v) else Holding(Flat(r), a - n, v)
    ensures Holding(Joined(n, l, r), a, v)
  {
    JoinedReads(n, l, r, a);
  }

  /** Records of the two tables on which relocation changes the answer. */
  function WitnessRows(op: FilterOp, n: nat, m: nat): (Row, Row)
    requires ConstantComparison(op)
  {
    var (v, w) := TellingValues(op);
    if op.compType == CMP_COL_CONST then (ValueRow(n, 0, v, v), ValueRow(m, 0, w, w))
    else (ValueRow(n, 0, w, w), ValueRow(m, RightPlace(op, n, m), v, w))
  }

  lemma WitnessRowsTell(op: FilterOp, n: nat, m: nat)
    requires ConstantComparison(op) && IsConstant(ConstantSide(op)) && Planned(op, n, m) && n > 0 && m > 0
    requires !Relocatable(op, n, m) && Discriminates(op)
    ensures Comparable(RelocatedOp(op, n))
    ensures var (l, r) := WitnessRows(op, n, m);
            && HasWidth(l, n) && HasWidth(r, m)
            && EvalComparison(RelocatedOp(op, n), Flat(l), Flat(r)) !=
               EvalComparison(op, Joined(n, l, r), Joined(n, l, r))
  {
    var (v, w) := TellingValues(op);
    var (l, r) := WitnessRows(op, n, m);
    var j, rel, dtype := Joined(n, l, r), RelocatedOp(op, n), op.left.dtype;
    var a, b, p, q := op.left.idx, op.right.idx, LeftPlace(op, n), RightPlace(op, n, m);
    ValuesTell(op);
    assert Comparable(rel) && ConstantComparison(rel) && AnswerFor(rel, v) == AnswerFor(op, v);
    hide EvalComparison, AnswerFor, ValueRow, TellingValues, Holding, IsValue, HasWidth;
    if op.compType == CMP_COL_CONST {
      ValueRowHolds(n, 0, v, v, p, dtype);
      ValueRowHolds(m, 0, w, w, a - n, dtype);
      PlaceHolds(l, rel.left.idx, n, v);
      JoinedHolds(n, l, r, a, w);
    } else {
      ValueRowHolds(m, q, v, w, q, dtype);
      ValueRowHolds(n, 0, w, w, if b < n then b else 0, dtype);
      ValueRowHolds(m, q, v, w, if b < n then q else b - n, dtype);
      PlaceHolds(r, rel.right.idx, m, v);
      JoinedHolds(n, l, r, b, w);
    }
    AnswersFor(rel, Flat(l), Flat(r), v);
    AnswersFor(op, j, j, w);
  }

  lemma NeverTells(op: FilterOp, n: nat, m: nat, l: Row, r: Row)
    requires ConstantComparison(op) && Planned(op, n, m) && !Discriminates(op)
    ensures Comparable(RelocatedOp(op, n))
    ensures EvalComparison(RelocatedOp(op, n), Flat(l), Flat(r)) == EvalComparison(op, Joined(n, l, r), Joined(n, l, r))
  {
    hide Row.StrCol;
  }

  /** Relocation preserves a comparison of a column with a constant on all tuples of the two tables
      exactly when it is relocatable or answers all columns alike. */
  lemma RelocatesConstantIff(op: FilterOp, n: nat, m: nat)
    requires ConstantComparison(op) && IsConstant(ConstantSide(op)) && Planned(op, n, m) && n > 0 && m > 0
    ensures Comparable(RelocatedOp(op, n))
    ensures (forall l, r | HasWidth(l, n) && HasWidth(r, m) ::
               EvalComparison(RelocatedOp(op, n), Flat(l), Flat(r)) ==
               EvalComparison(op, Joined(n, l, r), Joined(n, l, r)))
            <==> Relocatable(op, n, m) || !Discriminates(op)
  {
    assert Comparable(RelocatedOp(op, n));
    hide EvalComparison, Relocatable, RelocatedOp, Planned, HasWidth, Discriminates;
    if Relocatable(op, n, m) || !Discriminates(op) {
      forall l, r | HasWidth(l, n) && HasWidth(r, m)
        ensures EvalComparison(RelocatedOp(op, n), Flat(l), Flat(r)) ==
                EvalComparison(op, Joined(n, l, r), Joined(n, l, r))
      {
        if Relocatable(op, n, m) {
          RelocatesOp(op, n, m, l, r);
        } else {
          NeverTells(op, n, m, l, r);
        }
      }
    } else {
      WitnessRowsTell(op, n, m);
      var (l, r) := WitnessRows(op, n, m);
    }
  }

  // ----- the choice of the join -----

  datatype JoinType = OP_JOIN | OP_HASHJOIN

  /** The planner's decision: one comparison, an equality, and hash joins enabled. */
  function DeduceJoinType(ops: seq<FilterOp>, hashJoinEnabled: bool): JoinType
    requires ops != []
  {
    if |ops| > 1 then OP_JOIN
    else if ops[0].Parenthesis? then OP_JOIN
    else if ops[0].boolOp != -1 then OP_JOIN
    else if !hashJoinEnabled then OP_JOIN
    else OP_HASHJOIN
  }
}
