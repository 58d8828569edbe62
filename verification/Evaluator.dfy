/** The evaluator of filter operators, on the tuples that operators share. Reading a number casts its
    column in place; the answer is the one on the rows as values, and what can be read stays so. */
module Evaluator {
  import opened CText
  import opened Tuples
  import opened Filter
  import opened Comparison

  /** A tuple, or the pair of tuples that a join hands on. */
  datatype TupleRef = Single(t: Tuple) | Pair(leftColumnCount: nat, left: Tuple, right: Tuple) {
    ghost function Repr(): set<Tuple> {
      match this
      case Single(t) => {t}
      case Pair(_, left, right) => {left, right}
    }
  }

  ghost function ViewOf(ref: TupleRef): View
    reads ref.Repr()
  {
    match ref
    case Single(t) => Flat(t.row)
    case Pair(n, left, right) => Joined(n, left.row, right.row)
  }

  /** All of a tuple but its cache of numbers; of the offsets those from a column number on. */
  datatype Fixed =
    Fixed(row: Row, kind: TupleKind, data: array<char>, size: nat, pad: nat, tdbOffsets: bool, beyond: seq<nat>)

  ghost function FixedOf(t: Tuple, n: nat): Fixed
    reads t
  {
    Fixed(t.row, t.kind, t.data, t.size, t.pad, t.tdbOffsets, if n <= |t.offsets| then t.offsets[n..] else [])
  }

  /** Of a tuple whose first `width` columns may be read. */
  ghost function FixedParts(ref: TupleRef, width: nat): seq<Fixed>
    reads ref.Repr()
  {
    match ref
    case Single(t) => [FixedOf(t, width)]
    case Pair(n, left, right) => [FixedOf(left, n), FixedOf(right, if n <= width then width - n else 0)]
  }

  ghost function SlotsOf(ref: TupleRef): seq<seq<nat>>
    reads ref.Repr()
  {
    match ref
    case Single(t) => [t.slots]
    case Pair(_, left, right) => [left.slots, right.slots]
  }

  /** Casts are only added. */
  ghost predicate Grown(before: seq<seq<nat>>, after: seq<seq<nat>>) {
    |before| == |after| && forall i :: 0 <= i < |before| ==> before[i] <= after[i]
  }

  lemma GrownAtAll(a: seq<seq<nat>>)
    ensures Grown(a, a)
  {
  }

  lemma GrownThrough(a: seq<seq<nat>>, b: seq<seq<nat>>, c: seq<seq<nat>>)
    requires Grown(a, b) && Grown(b, c)
    ensures Grown(a, c)
  {
  }

  // ----- how columns are read -----

  /** What a column is read as: as both only where the cast leaves the text alone. */
  datatype Reading = Unread | AsText | AsLong | AsBoth {
    predicate Text() { AsText? || AsBoth? }
    predicate Long() { AsLong? || AsBoth? }
  }

  function ReadingOf(d: Datatype): Reading {
    if d == DTYPE_LONG then AsLong else AsText
  }

  function ReadingsOf(types: seq<Datatype>): (r: seq<Reading>)
    ensures |r| == |types|
  {
    seq(|types|, i requires 0 <= i < |types| => ReadingOf(types[i]))
  }

  /** Column `i` can be read so. A text of a line is at its offset still; a column that is read as
      both starts the block, and has the first slot or none is taken. A stored text ends with its
      record, and a stored long is all there. */
  ghost predicate ReadyColumn(t: Tuple, rd: Reading, i: nat)
    requires t.Shape() && i < t.Extent() <= MAXCOLS
    reads t, t.data
  {
    if t.kind == TPL_DELIMITED then
      && (rd.Text() ==> t.offsets[i] == t.row.Offset(i))
      && (rd.AsBoth? ==> t.row.Offset(i) == 0 && (t.slots == [] || t.slots == [i]))
    else
      && (rd.Text() ==> t.Ends(i))
      && (rd.Long() ==> t.row.Offset(i) + 8 <= |t.row.data|)
  }

  /** A column that is read as both is the only number. */
  ghost predicate Compatible(rds: seq<Reading>) {
    forall i, j :: 0 <= i < |rds| && 0 <= j < |rds| && i != j && rds[i].AsBoth? ==> !rds[j].Long()
  }

  ghost predicate ReadyTuple(t: Tuple, rds: seq<Reading>)
    reads t, t.data
  {
    && t.Valid() && |rds| <= t.Extent() && (t.kind == TPL_DELIMITED ==> Compatible(rds))
    && forall i :: 0 <= i < |rds| ==> ReadyColumn(t, rds[i], i)
  }

  ghost predicate Ready(ref: TupleRef, rds: seq<Reading>)
    reads ref.Repr(), set t | t in ref.Repr() :: t.data
  {
    match ref
    case Single(t) => ReadyTuple(t, rds)
    case Pair(n, left, right) =>
      n <= |rds| && left != right && ReadyTuple(left, rds[..n]) && ReadyTuple(right, rds[n..])
  }

  /** The column of an operand is read as what its type says. */
  predicate SideReadsAs(s: Side, rds: seq<Reading>) {
    0 <= s.idx < |rds| && (s.dtype == DTYPE_STR ==> rds[s.idx].Text()) && (s.dtype == DTYPE_LONG ==> rds[s.idx].Long())
  }

  /** Every column of the list is read as its type says. */
  predicate ReadsAs(ops: seq<FilterOp>, rds1: seq<Reading>, rds2: seq<Reading>) {
    ops == [] || (OpReadsAs(ops[0], rds1, rds2) && ReadsAs(ops[1..], rds1, rds2))
  }

  predicate OpReadsAs(op: FilterOp, rds1: seq<Reading>, rds2: seq<Reading>) {
    match op
    case Comparison(l, _, r, _, _) =>
      (LeftIsColumn(op) ==> SideReadsAs(l, rds1)) && (RightIsColumn(op) ==> SideReadsAs(r, rds2))
    case Parenthesis(child, _) => ReadsAs(child, rds1, rds2)
  }

  /** The first column that the list reads as a number on its left sides. */
  function FirstLeft(ops: seq<FilterOp>): Option<nat> {
    if ops == [] then None
    else
      match FirstLeftOf(ops[0])
      case Some(i) => Some(i)
      case None => FirstLeft(ops[1..])
  }

  function FirstLeftOf(op: FilterOp): Option<nat> {
    match op
    case Comparison(l, _, _, _, _) =>
      if LeftIsColumn(op) && l.dtype == DTYPE_LONG && l.idx >= 0 then Some(l.idx) else None
    case Parenthesis(child, _) => FirstLeft(child)
  }

  /** The columns of a row can be read so, the ones past its width at the start of the block. */
  ghost predicate RowReads(row: Row, rds: seq<Reading>) {
    && |rds| <= MAXCOLS
    && if row.kind == TPL_DELIMITED then
         && Compatible(rds) && (forall i :: 0 <= i < |rds| && rds[i].AsBoth? ==> row.Offset(i) == 0)
         && (|rds| > |row.offsets| ==> Terminated(row.data, 0))
       else forall i :: 0 <= i < |rds| && rds[i].Long() ==> row.Offset(i) + 8 <= |row.data|
  }

  ghost predicate RowsRead(rows: seq<Row>, rds: seq<Reading>) {
    forall i :: 0 <= i < |rows| ==> RowReads(rows[i], rds)
  }

  // ----- reading -----

  /** Where column `i` is, in the tuple or in one of the pair. */
  method Locate(ref: TupleRef, i: nat, ghost rds: seq<Reading>)
    returns (t: Tuple, index: nat, ghost own: seq<Reading>)
    requires Ready(ref, rds) && i < |rds|
    ensures t in ref.Repr() && ReadyTuple(t, own) && index < |own| && own[index] == rds[i]
    ensures ViewOf(ref).StrCol(i) == t.row.StrCol(index) && ViewOf(ref).LongCol(i) == t.row.LongCol(index)
    ensures match ref
            case Single(s) => t == s && own == rds && index == i
            case Pair(n, left, right) => (t == left && own == rds[..n]) || (t == right && own == rds[n..])
  {
    match ref {
      case Single(s) =>
        t, index, own := s, i, rds;
      case Pair(n, left, right) =>
        if i < n {
          t, index, own := left, i, rds[..n];
        } else {
          t, index, own := right, i - n, rds[n..];
        }
    }
  }

  method TextColumn(ref: TupleRef, i: nat, ghost rds: seq<Reading>) returns (s: string)
    requires Ready(ref, rds) && i < |rds| && rds[i].Text()
    ensures s == ViewOf(ref).StrCol(i)
  {
    var t, index;
    ghost var own;
    t, index, own := Locate(ref, i, rds);
    assert ReadyColumn(t, own[index], index);
    s := t.GetTupleColByIndex(index);
  }

  /** A number, cast on its first reading. */
  method LongColumn(ref: TupleRef, i: nat, ghost rds: seq<Reading>) returns (n: int)
    requires Ready(ref, rds) && i < |rds| && rds[i].Long()
    modifies ref.Repr()
    ensures Ready(ref, rds) && FixedParts(ref, |rds|) == old(FixedParts(ref, |rds|)) && ViewOf(ref) == old(ViewOf(ref))
    ensures Grown(old(SlotsOf(ref)), SlotsOf(ref)) && n == ViewOf(ref).LongCol(i)
    ensures ref.Single? && ref.t.kind == TPL_DELIMITED ==> ref.t.slots == AfterRead(old(ref.t.slots), i)
  {
    var t, index;
    ghost var own;
    t, index, own := Locate(ref, i, rds);
    n := ReadLong(t, index, own);
  }

  method ReadLong(t: Tuple, index: nat, ghost own: seq<Reading>) returns (n: int)
    requires ReadyTuple(t, own) && index < |own| && own[index].Long()
    modifies t
    ensures ReadyTuple(t, own) && FixedOf(t, |own|) == old(FixedOf(t, |own|)) && n == t.row.LongCol(index)
    ensures if t.kind == TPL_DELIMITED then t.slots == AfterRead(old(t.slots), index) else t.slots == old(t.slots)
  {
    assert ReadyColumn(t, own[index], index);
    assert t.kind == TPL_DELIMITED ==> t.ColumnOk(index);
    n := t.GetTupleLongColByIndex(index);
    forall i | 0 <= i < |own|
      ensures ReadyColumn(t, own[i], i)
    {
      assert old(ReadyColumn(t, own[i], i));
      assert t.kind == TPL_DELIMITED ==> t.ColumnOk(i);
    }
  }

  /** What a reader wants of a column: its number, cast on the first reading, or what is printed of a
      column of that type, which casts nothing. */
  datatype Access = Casting | Printing(d: Datatype) {
    predicate Allowed(rd: Reading) {
      if this == Casting || d == DTYPE_LONG then rd.Long() else rd.Text()
    }

    function Value(text: string, num: int): Value {
      if this == Casting || d == DTYPE_LONG then Number(num) else Text(text)
    }
  }

  method ReadColumn(t: Tuple, index: nat, how: Access, ghost own: seq<Reading>) returns (v: Value)
    requires ReadyTuple(t, own) && index < |own| && how.Allowed(own[index])
    modifies t
    ensures ReadyTuple(t, own) && FixedOf(t, |own|) == old(FixedOf(t, |own|)) && old(t.slots) <= t.slots
    ensures v == how.Value(t.row.StrCol(index), t.row.LongCol(index))
  {
    assert ReadyColumn(t, own[index], index);
    if how == Casting {
      var n := ReadLong(t, index, own);
      return Number(n);
    }
    if how.d != DTYPE_LONG {
      var s := t.GetTupleColByIndex(index);
      return Text(s);
    }
    assert t.kind == TPL_DELIMITED ==> t.ColumnOk(index);
    if t.kind == TPL_DELIMITED && !t.casted[index] {
      var s := t.GetTupleColByIndex(index);
      return Number(Atol(s));
    }
    var n := ReadLong(t, index, own);
    return Number(n);
  }

  /** The two operands of a comparison read from one tuple (WHERE) or from two different ones (ON). */
  ghost predicate Sharing(ref1: TupleRef, rds1: seq<Reading>, ref2: TupleRef, rds2: seq<Reading>) {
    (ref1 == ref2 && rds1 == rds2) || ref1.Repr() !! ref2.Repr()
  }

  /** Both can be read. */
  ghost predicate BothReady(ref1: TupleRef, rds1: seq<Reading>, ref2: TupleRef, rds2: seq<Reading>)
    reads ref1.Repr(), ref2.Repr(), set t | t in ref1.Repr() + ref2.Repr() :: t.data
  {
    Ready(ref1, rds1) && Ready(ref2, rds2) && Sharing(ref1, rds1, ref2, rds2)
  }

  /** Both but their caches of numbers. */
  ghost function BothFixed(ref1: TupleRef, width1: nat, ref2: TupleRef, width2: nat): (seq<Fixed>, seq<Fixed>)
    reads ref1.Repr(), ref2.Repr()
  {
    (FixedParts(ref1, width1), FixedParts(ref2, width2))
  }

  ghost function BothViews(ref1: TupleRef, ref2: TupleRef): (View, View)
    reads ref1.Repr(), ref2.Repr()
  {
    (ViewOf(ref1), ViewOf(ref2))
  }

  /** The two tuples of a pair that is tried, the left one from a line. */
  ghost predicate LeftLine(ref1: TupleRef, ref2: TupleRef)
    reads ref1.Repr()
  {
    ref1.Single? && ref2.Single? && ref1 != ref2 && ref1.t.kind == TPL_DELIMITED
  }

  /** A text of one tuple; what can be read of both stays. */
  method TextOperand(ref: TupleRef, i: nat, other: TupleRef, ghost rds: seq<Reading>, ghost others: seq<Reading>)
    returns (s: string)
    requires Ready(ref, rds) && Ready(other, others) && i < |rds| && rds[i].Text()
    ensures Ready(ref, rds) && Ready(other, others)
    ensures ViewOf(ref) == old(ViewOf(ref)) && ViewOf(other) == old(ViewOf(other)) && s == ViewOf(ref).StrCol(i)
  {
    s := TextColumn(ref, i, rds);
  }

  /** A number of one tuple; what can be read of both stays. */
  method LongOperand(ref: TupleRef, i: nat, other: TupleRef, ghost rds: seq<Reading>, ghost others: seq<Reading>)
    returns (n: int)
    requires BothReady(ref, rds, other, others) && i < |rds| && rds[i].Long()
    modifies ref.Repr()
    ensures BothReady(ref, rds, other, others)
    ensures BothFixed(ref, |rds|, other, |others|) == old(BothFixed(ref, |rds|, other, |others|))
    ensures BothViews(ref, other) == old(BothViews(ref, other)) && n == ViewOf(ref).LongCol(i)
    ensures Grown(old(SlotsOf(ref)), SlotsOf(ref)) && Grown(old(SlotsOf(other)), SlotsOf(other))
    ensures LeftLine(ref, other) ==> ref.t.slots == AfterRead(old(ref.t.slots), i)
    ensures LeftLine(other, ref) ==> other.t.slots == old(other.t.slots)
  {
    n := LongColumn(ref, i, rds);
  }

  /** What the comparison of two texts or two numbers leaves in `cmpRes`, by the kind of its operands. */
  method CompareOperands(ref1: TupleRef, ref2: TupleRef, op: FilterOp,
                         ghost rds1: seq<Reading>, ghost rds2: seq<Reading>)
    returns (r: Option<int>)
    requires op.Comparison? && OpReadsAs(op, rds1, rds2) && BothReady(ref1, rds1, ref2, rds2)
    modifies ref1.Repr(), ref2.Repr()
    ensures BothReady(ref1, rds1, ref2, rds2)
    ensures BothFixed(ref1, |rds1|, ref2, |rds2|) == old(BothFixed(ref1, |rds1|, ref2, |rds2|))
    ensures BothViews(ref1, ref2) == old(BothViews(ref1, ref2))
    ensures Grown(old(SlotsOf(ref1)), SlotsOf(ref1)) && Grown(old(SlotsOf(ref2)), SlotsOf(ref2))
    ensures -6 <= op.boolOp <= -1 ==> (r.Some? <==> Comparable(op))
    ensures r.Some? && Comparable(op) ==> r.value == CompareSides(op, ViewOf(ref1), ViewOf(ref2))
    ensures r.Some? && LeftLine(ref1, ref2) ==>
              ref1.t.slots == match FirstLeftOf(op) case None => old(ref1.t.slots)
                                                    case Some(i) => AfterRead(old(ref1.t.slots), i)
  {
    hide Ready, ViewOf, FixedParts, SlotsOf, Grown, LongDifference;
    GrownAtAll(SlotsOf(ref1));
    GrownAtAll(SlotsOf(ref2));
    var dtype := op.left.dtype;
    if dtype != op.right.dtype {
      return None;
    }
    match dtype {
      case DTYPE_STR =>
        var cmpRes := CompareTexts(ref1, ref2, op, rds1, rds2);
        return Some(cmpRes);
      case DTYPE_LONG =>
        var cmpRes := CompareLongs(ref1, ref2, op, rds1, rds2);
        return Some(cmpRes);
      case _ =>
        return None;
    }
  }

  /** Two texts: a column against a constant is compared with the operands swapped. */
  method CompareTexts(ref1: TupleRef, ref2: TupleRef, op: FilterOp,
                      ghost rds1: seq<Reading>, ghost rds2: seq<Reading>)
    returns (cmpRes: int)
    requires op.Comparison? && op.left.dtype == op.right.dtype == DTYPE_STR && OpReadsAs(op, rds1, rds2)
    requires Ready(ref1, rds1) && Ready(ref2, rds2)
    ensures Ready(ref1, rds1) && Ready(ref2, rds2) && BothViews(ref1, ref2) == old(BothViews(ref1, ref2))
    ensures Comparable(op) ==> cmpRes == CompareSides(op, ViewOf(ref1), ViewOf(ref2))
  {
    hide Ready, ViewOf;
    match op.compType {
      case CMP_COL_COL =>
        var a := TextOperand(ref1, op.left.idx, ref2, rds1, rds2);
        var b := TextOperand(ref2, op.right.idx, ref1, rds2, rds1);
        cmpRes := Strcmp(a, b);
      case CMP_CONST_CONST =>
        cmpRes := Strcmp(op.left.text, op.right.text);
      case CMP_COL_CONST =>
        var a := TextOperand(ref1, op.left.idx, ref2, rds1, rds2);
        cmpRes := Strcmp(op.right.text, a);
      case CMP_CONST_COL =>
        var b := TextOperand(ref2, op.right.idx, ref1, rds2, rds1);
        cmpRes := Strcmp(op.left.text, b);
    }
  }

  /** Two numbers, cast on their first reading. */
  method CompareLongs(ref1: TupleRef, ref2: TupleRef, op: FilterOp,
                      ghost rds1: seq<Reading>, ghost rds2: seq<Reading>)
    returns (cmpRes: int)
    requires op.Comparison? && op.left.dtype == op.right.dtype == DTYPE_LONG && OpReadsAs(op, rds1, rds2)
    requires BothReady(ref1, rds1, ref2, rds2)
    modifies ref1.Repr(), ref2.Repr()
    ensures BothReady(ref1, rds1, ref2, rds2)
    ensures BothFixed(ref1, |rds1|, ref2, |rds2|) == old(BothFixed(ref1, |rds1|, ref2, |rds2|))
    ensures BothViews(ref1, ref2) == old(BothViews(ref1, ref2))
    ensures Grown(old(SlotsOf(ref1)), SlotsOf(ref1)) && Grown(old(SlotsOf(ref2)), SlotsOf(ref2))
    ensures Comparable(op) ==> cmpRes == CompareSides(op, ViewOf(ref1), ViewOf(ref2))
    ensures LeftLine(ref1, ref2) ==>
              ref1.t.slots == match FirstLeftOf(op) case None => old(ref1.t.slots)
                                                    case Some(i) => AfterRead(old(ref1.t.slots), i)
  {
    hide Ready, ViewOf, FixedParts, SlotsOf, Grown, LongDifference;
    ghost var slots1, slots2 := SlotsOf(ref1), SlotsOf(ref2);
    GrownAtAll(slots1);
    GrownAtAll(slots2);
    match op.compType {
      case CMP_COL_COL =>
        var a := LongOperand(ref1, op.left.idx, ref2, rds1, rds2);
        ghost var then1, then2 := SlotsOf(ref1), SlotsOf(ref2);
        var b := LongOperand(ref2, op.right.idx, ref1, rds2, rds1);
        GrownThrough(slots1, then1, SlotsOf(ref1));
        GrownThrough(slots2, then2, SlotsOf(ref2));
        cmpRes := LongDifference(a, b);
      case CMP_CONST_CONST =>
        cmpRes := LongDifference(op.left.num, op.right.num);
      case CMP_COL_CONST =>
        var a := LongOperand(ref1, op.left.idx, ref2, rds1, rds2);
        cmpRes := LongDifference(a, op.right.num);
      case CMP_CONST_COL =>
        var b := LongOperand(ref2, op.right.idx, ref1, rds2, rds1);
        cmpRes := LongDifference(op.left.num, b);
    }
  }

  // ----- evaluating -----

  /** One comparison: the answer is that of the written comparison exactly when that is faithful. */
  method EvaluateTupleAgainstFilterOp(ref1: TupleRef, ref2: TupleRef, op: FilterOp,
                                      ghost rds1: seq<Reading>, ghost rds2: seq<Reading>)
    returns (r: Option<bool>)
    requires op.Comparison? && OpReadsAs(op, rds1, rds2) && BothReady(ref1, rds1, ref2, rds2)
    modifies ref1.Repr(), ref2.Repr()
    ensures BothReady(ref1, rds1, ref2, rds2)
    ensures BothFixed(ref1, |rds1|, ref2, |rds2|) == old(BothFixed(ref1, |rds1|, ref2, |rds2|))
    ensures BothViews(ref1, ref2) == old(BothViews(ref1, ref2))
    ensures Grown(old(SlotsOf(ref1)), SlotsOf(ref1)) && Grown(old(SlotsOf(ref2)), SlotsOf(ref2))
    ensures r.Some? <==> Comparable(op)
    ensures r.Some? ==> (r.value == Meaning(op, ViewOf(ref1), ViewOf(ref2)) <==>
                         Faithful(op, ViewOf(ref1), ViewOf(ref2)))
    ensures r.Some? ==> r.value == EvalComparison(op, ViewOf(ref1), ViewOf(ref2))
    ensures r.Some? && LeftLine(ref1, ref2) ==>
              ref1.t.slots == match FirstLeftOf(op) case None => old(ref1.t.slots)
                                                    case Some(i) => AfterRead(old(ref1.t.slots), i)
  {
    hide BothReady, BothViews, ViewOf, BothFixed, SlotsOf, Grown, CompareSides, Meaning, Faithful;
    var cmpRes := CompareOperands(ref1, ref2, op, rds1, rds2);
    if cmpRes == None {
      return None;
    }
    if Comparable(op) {
      EvaluatesMeaningIffFaithful(op, ViewOf(ref1), ViewOf(ref2));
    }
    match op.boolOp {
      case -1 => return Some(cmpRes.value == 0);
      case -2 => return Some(cmpRes.value != 0);
      case -3 => return Some(cmpRes.value < 0);
      case -4 => return Some(cmpRes.value > 0);
      case -5 => return Some(cmpRes.value >= 0);
      case -6 => return Some(cmpRes.value <= 0);
      case _ => return None;
    }
  }

  /** A list of operators, with the groups in it: the answer on the rows, whatever is cast on the way;
      `None` is the exit on a comparison between different or unknown types. */
  method EvaluateTuplesAgainstFilterOps(ref1: TupleRef, ref2: TupleRef, ops: seq<FilterOp>,
                                        ghost rds1: seq<Reading>, ghost rds2: seq<Reading>)
    returns (r: Option<bool>)
    requires ReadsAs(ops, rds1, rds2) && BothReady(ref1, rds1, ref2, rds2)
    modifies ref1.Repr(), ref2.Repr()
    ensures BothReady(ref1, rds1, ref2, rds2)
    ensures BothFixed(ref1, |rds1|, ref2, |rds2|) == old(BothFixed(ref1, |rds1|, ref2, |rds2|))
    ensures BothViews(ref1, ref2) == old(BothViews(ref1, ref2))
    ensures Grown(old(SlotsOf(ref1)), SlotsOf(ref1)) && Grown(old(SlotsOf(ref2)), SlotsOf(ref2))
    ensures r == if Typed(ops) then Some(Holds(ops, ViewOf(ref1), ViewOf(ref2))) else None
    ensures r.Some? && LeftLine(ref1, ref2) ==> LeftSlots(old(ref1.t.slots), ref1.t.slots, FirstLeft(ops))
    decreases ops, 0
  {
    hide Comparable, EvalOp, BothReady, BothViews, ViewOf, BothFixed, SlotsOf, Grown, FirstLeftOf, OpReadsAs, TypedOp;
    ghost var t1, t2, slots1, slots2 := ViewOf(ref1), ViewOf(ref2), SlotsOf(ref1), SlotsOf(ref2);
    ghost var line := LeftLine(ref1, ref2);
    ViewsAre(ref1, ref2);
    LineIs(ref1, |rds1|, ref2, |rds2|);
    GrownAtAll(slots1);
    GrownAtAll(slots2);
    var rtrnValue := true;
    var boolOp := AND;
    var p := 0;
    while p < |ops|
      invariant p <= |ops| && ReadsAs(ops[p..], rds1, rds2)
      invariant BothReady(ref1, rds1, ref2, rds2)
      invariant BothFixed(ref1, |rds1|, ref2, |rds2|) == old(BothFixed(ref1, |rds1|, ref2, |rds2|))
      invariant BothViews(ref1, ref2) == old(BothViews(ref1, ref2)) && ViewOf(ref1) == t1 && ViewOf(ref2) == t2
      invariant Grown(slots1, SlotsOf(ref1)) && Grown(slots2, SlotsOf(ref2))
      invariant Typed(ops) <==> Typed(ops[p..])
      invariant Typed(ops) ==> Holds(ops, t1, t2) == Fold(ops[p..], rtrnValue, boolOp, t1, t2)
      invariant LeftLine(ref1, ref2) <==> line
      invariant line ==> old(ref1.t.slots) <= ref1.t.slots
      invariant line && old(ref1.t.slots) == [] ==> CastSoFar(ref1.t.slots, ops, p)
    {
      var op := ops[p];
      assert ops[p..][0] == op && ops[p..][1..] == ops[p + 1..];
      ghost var then1, then2 := SlotsOf(ref1), SlotsOf(ref2);
      var result := EvaluateOp(ref1, ref2, op, rds1, rds2);
      ViewsAre(ref1, ref2);
      LineIs(ref1, |rds1|, ref2, |rds2|);
      GrownThrough(slots1, then1, SlotsOf(ref1));
      GrownThrough(slots2, then2, SlotsOf(ref2));
      if result == None {
        return None;
      }
      match boolOp {
        case AND => rtrnValue := result.value && rtrnValue;
        case OR => rtrnValue := result.value || rtrnValue;
      }
      boolOp := op.operatorNext;
      p := p + 1;
    }
    return Some(rtrnValue);
  }

  /** After `p` operators: the first slot is taken by the first number of the list, or is still to come. */
  ghost predicate CastSoFar(slots: seq<nat>, ops: seq<FilterOp>, p: nat)
    requires p <= |ops|
  {
    FirstLeft(ops) == if slots == [] then FirstLeft(ops[p..]) else Some(slots[0])
  }

  lemma LineIs(ref1: TupleRef, width1: nat, ref2: TupleRef, width2: nat)
    ensures LeftLine(ref1, ref2) <==>
            ref1.Single? && ref2.Single? && ref1 != ref2
            && BothFixed(ref1, width1, ref2, width2).0[0].kind == TPL_DELIMITED
    ensures ref1.Single? ==> |BothFixed(ref1, width1, ref2, width2).0| == 1
  {
  }

  lemma ViewsAre(ref1: TupleRef, ref2: TupleRef)
    ensures BothViews(ref1, ref2) == (ViewOf(ref1), ViewOf(ref2))
  {
  }

  /** One operator: a comparison, or a group evaluated on its own. */
  method EvaluateOp(ref1: TupleRef, ref2: TupleRef, op: FilterOp, ghost rds1: seq<Reading>, ghost rds2: seq<Reading>)
    returns (r: Option<bool>)
    requires OpReadsAs(op, rds1, rds2) && BothReady(ref1, rds1, ref2, rds2)
    modifies ref1.Repr(), ref2.Repr()
    ensures BothReady(ref1, rds1, ref2, rds2)
    ensures BothFixed(ref1, |rds1|, ref2, |rds2|) == old(BothFixed(ref1, |rds1|, ref2, |rds2|))
    ensures BothViews(ref1, ref2) == old(BothViews(ref1, ref2))
    ensures Grown(old(SlotsOf(ref1)), SlotsOf(ref1)) && Grown(old(SlotsOf(ref2)), SlotsOf(ref2))
    ensures r == if TypedOp(op) then Some(EvalOp(op, ViewOf(ref1), ViewOf(ref2))) else None
    ensures r.Some? && LeftLine(ref1, ref2) ==> LeftSlots(old(ref1.t.slots), ref1.t.slots, FirstLeftOf(op))
    decreases op, 1
  {
    hide Comparable, EvalComparison, Meaning, Faithful, BothReady, BothViews, ViewOf, BothFixed, SlotsOf, Holds;
    match op {
      case Parenthesis(child, _) =>
        r := EvaluateTuplesAgainstFilterOps(ref1, ref2, child, rds1, rds2);
      case Comparison(_, _, _, _, _) =>
        r := EvaluateTupleAgainstFilterOp(ref1, ref2, op, rds1, rds2);
    }
  }

  /** How the slots of a left line grow over an operator: the first one is not lost, or is taken by the
      first number that the operator reads. */
  ghost predicate LeftSlots(before: seq<nat>, after: seq<nat>, first: Option<nat>) {
    && before <= after
    && (before == [] ==>
          match first
          case None => after == []
          case Some(i) => after != [] && after[0] == i)
  }
}
