/** A query over a join, from the written ON condition to the rows: planned against both tables'
    columns, relocated, run by whichever join the planner chooses, and selected from. */
module JoinQuery {
  import opened CText
  import opened Tuples
  import opened Filter
  import opened ParseTree
  import opened FilterPlanner
  import opened WhereMeaning
  import opened HashTable
  import opened JoinSpec
  import opened HashJoinSpec
  import opened HashJoinServed
  import opened HashJoinNumbers
  import opened JoinPlanner
  import opened Evaluator
  import opened Readings
  import opened Scan
  import opened JoinTuples
  import opened Bottom
  import NestedLoopJoin
  import HashJoin

  /** The ON condition, read on the concatenation of the two tuples. */
  predicate OnMeans(on: Condition, desc: ResultSet, n: nat, l: Row, r: Row)
    requires Resolves(on, desc)
  {
    Means(on, desc, Joined(n, l, r), Joined(n, l, r))
  }

  function MatchingViews(l: Row, rights: seq<Row>, on: Condition, desc: ResultSet, n: nat): seq<View>
    requires Resolves(on, desc)
  {
    if rights == [] then []
    else
      (if OnMeans(on, desc, n, l, rights[0]) then [Joined(n, l, rights[0])] else [])
      + MatchingViews(l, rights[1..], on, desc, n)
  }

  /** What SQL says the join is: left-major, the concatenations that satisfy the ON condition. */
  function JoinedRows(lefts: seq<Row>, rights: seq<Row>, on: Condition, desc: ResultSet, n: nat): seq<View>
    requires Resolves(on, desc)
  {
    if lefts == [] then []
    else MatchingViews(lefts[0], rights, on, desc, n) + JoinedRows(lefts[1..], rights, on, desc, n)
  }

  /** Every comparison of the ON condition is one the evaluator answers as written, on every pair. */
  ghost predicate OnFaithful(on: Condition, desc: ResultSet, n: nat, lefts: seq<Row>, rights: seq<Row>)
    requires Resolves(on, desc)
  {
    Typed(OpsOf(on, desc)) &&
    forall i, j :: 0 <= i < |lefts| && 0 <= j < |rights| ==>
      AllFaithful(OpsOf(on, desc), Joined(n, lefts[i], rights[j]), Joined(n, lefts[i], rights[j]))
  }

  /** The relocated list says of two tuples what the written condition says of their concatenation. */
  lemma RelocatedMeans(on: Condition, desc: ResultSet, n: nat, m: nat, l: Row, r: Row)
    requires Resolves(on, desc) && WellTyped(on, desc) && AllRelocatable(OpsOf(on, desc), n, m)
    requires HasWidth(l, n) && HasWidth(r, m)
    requires Typed(OpsOf(on, desc)) && AllFaithful(OpsOf(on, desc), Joined(n, l, r), Joined(n, l, r))
    ensures Typed(Relocated(OpsOf(on, desc), n))
    ensures On(l, r, Relocated(OpsOf(on, desc), n)) == OnMeans(on, desc, n, l, r)
  {
    var ops, j := OpsOf(on, desc), Joined(n, l, r);
    RelocationPreserves(ops, n, m, l, r);
    EvaluatesFrom(on, true, AND, desc, j, j);
    hide OpsOf, AllRelocatable, AllFaithful, Fold, MeansFrom, Relocated;
  }

  lemma ViewsAppend(a: seq<Pair>, b: seq<Pair>, n: nat)
    ensures Views(a + b, n) == Views(a, n) + Views(b, n)
  {
  }

  lemma {:induction false} MatchesAsWritten(l: Row, rights: seq<Row>, on: Condition, desc: ResultSet, n: nat,
                                            ops: seq<FilterOp>)
    requires Typed(ops) && Resolves(on, desc)
    requires forall j :: 0 <= j < |rights| ==> On(l, rights[j], ops) == OnMeans(on, desc, n, l, rights[j])
    ensures Views(Matches(l, rights, ops), n) == MatchingViews(l, rights, on, desc, n)
  {
    hide On, OnMeans;
    if rights != [] {
      MatchesAsWritten(l, rights[1..], on, desc, n, ops);
      var rest := Matches(l, rights[1..], ops);
      assert On(l, rights[0], ops) == OnMeans(on, desc, n, l, rights[0]);
      ViewsAppend([(l, rights[0])], rest, n);
      assert Views([(l, rights[0])], n) == [Joined(n, l, rights[0])];
      var views := MatchingViews(l, rights[1..], on, desc, n);
      assert [] + rest == rest && [] + views == views;
      hide Views;
    }
  }

  lemma {:induction false} JoinAsWritten(lefts: seq<Row>, rights: seq<Row>, on: Condition, desc: ResultSet, n: nat,
                                         ops: seq<FilterOp>)
    requires Typed(ops) && Resolves(on, desc)
    requires forall i, j :: 0 <= i < |lefts| && 0 <= j < |rights| ==>
               On(lefts[i], rights[j], ops) == OnMeans(on, desc, n, lefts[i], rights[j])
    ensures Views(Join(lefts, rights, ops), n) == JoinedRows(lefts, rights, on, desc, n)
  {
    hide On, OnMeans;
    if lefts != [] {
      MatchesAsWritten(lefts[0], rights, on, desc, n, ops);
      JoinAsWritten(lefts[1..], rights, on, desc, n, ops);
      ViewsAppend(Matches(lefts[0], rights, ops), Join(lefts[1..], rights, ops), n);
      hide Views, Matches, MatchingViews;
    }
  }

  /** The ON condition is one the planner handles: known columns of like types, no parentheses,
      and every comparison one that relocation preserves. */
  ghost predicate Joinable(on: Condition, desc: ResultSet, n: nat, m: nat) {
    && AllPlain(on) && Resolves(on, desc) && WellTyped(on, desc) && AllRelocatable(OpsOf(on, desc), n, m)
  }

  lemma {:induction false} PlainIsGroupsFirst(c: Condition)
    requires AllPlain(c)
    ensures GroupsFirst(c)
  {
  }

  /** The relocated list of a joinable condition. */
  lemma JoinablePlans(on: Condition, desc: ResultSet, n: nat, m: nat)
    requires Joinable(on, desc, n, m)
    ensures Typed(OpsOf(on, desc)) && Typed(Relocated(OpsOf(on, desc), n)) && Relocated(OpsOf(on, desc), n) != []
  {
    RelocatedTyped(OpsOf(on, desc), n, m);
    hide PlanOps, Typed, AllRelocatable;
  }

  function JoinOps(on: Condition, left: ResultSet, right: ResultSet): (ops: seq<FilterOp>)
    requires Resolves(on, JoinDescription(left, right))
    ensures ops != []
  {
    Relocated(OpsOf(on, JoinDescription(left, right)), |left.columns|)
  }

  /** The column that a hash join reads on one side. */
  function KeyColumn(s: Side): nat {
    if s.idx >= 0 then s.idx else 0
  }

  /** If the planner chooses the hash join, it compares two columns, and the values of the right one
      fit into the hashmap. */
  ghost predicate Hashable(ops: seq<FilterOp>, hashJoinEnabled: bool, rights: seq<Row>, h: Hash, size: nat)
    requires ops != []
  {
    DeduceJoinType(ops, hashJoinEnabled) == OP_HASHJOIN ==>
      && ops[0].Comparison? && ops[0].compType == CMP_COL_COL && Fits(h, size)
      && KeysFit(Keys(rights, KeyColumn(ops[0].right)))
  }

  /** The hash join loses no pair: either the values it looks up stay what they are, as for text, and
      every match is served; or the left tuples do not disturb each other, and each gets its matches. */
  ghost predicate HashJoinDelivers(lefts: seq<Row>, rights: seq<Row>, ops: seq<FilterOp>, lc: nat, rc: nat, h: Hash)
    requires Typed(ops)
  {
    || (AllSteady(lefts, lc, ops) && Complete(lefts, rights, ops, lc, rc, h, {}))
    || (Independent(lefts, lc, ops, Keys(rights, rc))
        && forall i :: 0 <= i < |lefts| ==> LoneComplete(lefts[i], rights, ops, lc, rc))
  }

  lemma DeliversJoin(lefts: seq<Row>, rights: seq<Row>, ops: seq<FilterOp>, lc: nat, rc: nat, h: Hash, size: nat)
    requires Fits(h, size) && Typed(ops) && HashJoinDelivers(lefts, rights, ops, lc, rc, h)
    ensures HashJoinRun(lefts, rights, ops, lc, rc, h, size) == Join(lefts, rights, ops)
  {
    if AllSteady(lefts, lc, ops) && Complete(lefts, rights, ops, lc, rc, h, {}) {
      SteadyIsJoinIff(lefts, rights, ops, lc, rc, h, size);
    } else {
      IndependentIsJoinIff(lefts, rights, ops, lc, rc, h, size);
    }
    hide HashJoinRun, Complete, AllSteady, Independent, LoneComplete;
  }

  /** The chosen join loses no pair and makes none up. */
  ghost predicate Undisturbed(ops: seq<FilterOp>, hashJoinEnabled: bool, lefts: seq<Row>, rights: seq<Row>, h: Hash)
    requires ops != []
  {
    DeduceJoinType(ops, hashJoinEnabled) == OP_HASHJOIN ==>
      Typed(ops) && HashJoinDelivers(lefts, rights, ops, KeyColumn(ops[0].left), KeyColumn(ops[0].right), h)
  }

  lemma SomeOps(c: Condition, desc: ResultSet)
    requires Resolves(c, desc)
    ensures OpsOf(c, desc) != []
  {
  }

  /** The hash join is chosen exactly when it is enabled and the ON condition is written as one
      comparison with `=`, whatever its operands. */
  lemma HashJoinChosenIff(on: Condition, left: ResultSet, right: ResultSet, hashJoinEnabled: bool)
    requires Resolves(on, JoinDescription(left, right))
    ensures DeduceJoinType(JoinOps(on, left, right), hashJoinEnabled) == OP_HASHJOIN <==>
            hashJoinEnabled && on.Last? && on.item.Plain? && on.item.op == Equal
  {
    var n, desc := |left.columns|, JoinDescription(left, right);
    var planned := OpsOf(on, desc);
    assert planned[0] == OpOf(on.item, if on.More? then on.conn else AND, desc);
    if on.More? {
      SomeOps(on.rest, desc);
    }
    assert |planned| > 1 <==> on.More?;
    assert JoinOps(on, left, right)[0] == RelocatedOp(planned[0], n);
    hide OpsOf, SideOf;
  }

  /** On columns the hash join is only chosen for the equality of the two columns it hashes. */
  lemma HashJoinNeedsEquality(on: Condition, left: ResultSet, right: ResultSet, hashJoinEnabled: bool)
    requires Joinable(on, JoinDescription(left, right), |left.columns|, |right.columns|)
    requires var ops := JoinOps(on, left, right);
             DeduceJoinType(ops, hashJoinEnabled) == OP_HASHJOIN && ops[0].compType == CMP_COL_COL
    ensures var ops := JoinOps(on, left, right);
            KeyEquality(ops, KeyColumn(ops[0].left), KeyColumn(ops[0].right))
  {
    var n, m, planned := |left.columns|, |right.columns|, OpsOf(on, JoinDescription(left, right));
    assert Planned(planned[0], n, m) && Relocatable(planned[0], n, m);
    assert JoinOps(on, left, right)[0] == RelocatedOp(planned[0], n);
    RelocatablePlaces(planned[0], n, m);
    hide OpsOf, Relocatable, Planned;
  }

  // ----- how a join reads its tuples -----

  /** The types of the columns say how they are read; or a column is aggregated as well, as the number
      that it is only read as, or as a text too. */
  datatype Way = Described | Number(c: nat) | Mixed(c: nat)

  /** Column `i` of the join, in a table whose other numbers are left alone where a text is cast. */
  function ColumnReading(d: Datatype, i: nat, alone: bool, way: Way): Reading {
    match way
    case Described => ReadingOf(d)
    case Number(c) => if i == c then AsLong else ReadingOf(d)
    case Mixed(c) => if i == c then AsBoth else if d == DTYPE_LONG && alone then Unread else ReadingOf(d)
  }

  /** The columns of a table, which are those of the join from `first` on. */
  function TableReadings(desc: ResultSet, contents: Contents, first: nat, way: Way): (r: seq<Reading>)
    ensures |r| == |desc.columns|
  {
    var cols := desc.columns;
    var alone := contents.Lines? && way.Mixed? && first <= way.c < first + |cols|;
    seq(|cols|, i requires 0 <= i < |cols| => ColumnReading(cols[i].dtype, first + i, alone, way))
  }

  predicate ReadsLeft(ops: seq<FilterOp>, i: nat) {
    ops != [] && ((ops[0].Comparison? && LeftIsColumn(ops[0]) && ops[0].left.idx == i) || ReadsLeft(ops[1..], i))
  }

  predicate ReadsRight(ops: seq<FilterOp>, i: nat) {
    ops != [] && ((ops[0].Comparison? && RightIsColumn(ops[0]) && ops[0].right.idx == i) || ReadsRight(ops[1..], i))
  }

  /** What is read past the width of a tuple is read as the first right column, which was not shifted. */
  function PastReading(right: ResultSet): seq<Reading> {
    if right.columns == [] then [] else [ReadingOf(right.columns[0].dtype)]
  }

  function LeftReadings(left: ResultSet, right: ResultSet, ops: seq<FilterOp>, lefts: Contents, way: Way): seq<Reading>
  {
    TableReadings(left, lefts, 0, way) + if ReadsLeft(ops, |left.columns|) then PastReading(right) else []
  }

  function Unreads(k: nat): (r: seq<Reading>)
    ensures |r| == k && forall i :: 0 <= i < k ==> r[i] == Unread
  {
    seq(k, i => Unread)
  }

  function RightReadings(left: ResultSet, right: ResultSet, ops: seq<FilterOp>, rights: Contents, way: Way)
    : seq<Reading>
  {
    var n, m := |left.columns|, |right.columns|;
    TableReadings(right, rights, n, way)
    + if n >= m && ReadsRight(ops, n) then Unreads(n - m) + PastReading(right) else []
  }

  /** The two tuples of the join can be read so by ON. */
  ghost predicate WayFits(left: ResultSet, right: ResultSet, ops: seq<FilterOp>, lefts: Contents, rights: Contents,
                          way: Way)
  {
    JoinFits(lefts, rights, ops, |left.columns|, |right.columns|, LeftReadings(left, right, ops, lefts, way),
             RightReadings(left, right, ops, rights, way))
  }

  /** How the columns of the join are read by WHERE, by the list, or by an aggregate. */
  function JoinReadings(left: ResultSet, right: ResultSet, lefts: Contents, rights: Contents, way: Way): seq<Reading> {
    TableReadings(left, lefts, 0, way) + TableReadings(right, rights, |left.columns|, way)
  }

  lemma DescribedTable(desc: ResultSet, contents: Contents, first: nat)
    ensures TableReadings(desc, contents, first, Described) == DescribedReadings(desc)
  {
  }

  lemma DescribedJoin(left: ResultSet, right: ResultSet, lefts: Contents, rights: Contents)
    ensures JoinReadings(left, right, lefts, rights, Described) == DescribedReadings(JoinDescription(left, right))
  {
    DescribedTable(left, lefts, 0);
    DescribedTable(right, rights, |left.columns|);
    TypesConcat(left.columns, right.columns);
    ReadingsConcat(TypesOf(left.columns), TypesOf(right.columns));
    hide TableReadings, TypesOf, ReadingsOf;
  }

  lemma TypesConcat(a: seq<ColumnMetadata>, b: seq<ColumnMetadata>)
    ensures TypesOf(a + b) == TypesOf(a) + TypesOf(b)
  {
  }

  lemma ReadingsConcat(a: seq<Datatype>, b: seq<Datatype>)
    ensures ReadingsOf(a + b) == ReadingsOf(a) + ReadingsOf(b)
  {
  }

  /** A table as it is stored: its rows have its columns, and the numbers of a record have eight bytes. */
  ghost predicate WellKept(desc: ResultSet, contents: Contents) {
    && WellStored(contents) && |desc.columns| < MAXCOLS && AllHaveWidth(RowsIn(contents), |desc.columns|)
    && (contents.Records? ==> |contents.sizes| == |desc.columns|
                              && forall i :: 0 <= i < |desc.columns| && desc.columns[i].dtype == DTYPE_LONG ==>
                                   contents.sizes[i] >= 8)
  }

  lemma KeptRows(desc: ResultSet, contents: Contents, k: nat, i: nat)
    requires WellKept(desc, contents) && k < |RowsIn(contents)|
    ensures var row := RowsIn(contents)[k];
            if contents.Lines? then row.kind == TPL_DELIMITED && Terminated(row.data, 0)
            else row.kind == TPL_TDB
                 && (i < |desc.columns| && desc.columns[i].dtype == DTYPE_LONG ==> row.Offset(i) + 8 <= |row.data|)
  {
    if contents.Lines? {
      LineReads(contents.lines[k]);
    } else if i < |desc.columns| && desc.columns[i].dtype == DTYPE_LONG {
      OffsetsGrow(contents.sizes, i + 1, |contents.sizes|);
    }
    hide LineRow, AllHaveWidth;
  }

  /** Relocation reads columns of the types that the written condition reads. */
  lemma {:induction false} RelocatedReads(ops: seq<FilterOp>, n: nat, m: nat, rds: seq<Reading>,
                                          lefts: seq<Reading>, rights: seq<Reading>)
    requires AllRelocatable(ops, n, m) && ReadsAs(ops, rds, rds) && |rds| == n + m
    requires n <= |lefts| && lefts[..n] == rds[..n] && m <= |rights| && rights[..m] == rds[n..]
    requires ReadsLeft(Relocated(ops, n), n) ==> m > 0 && |lefts| > n && lefts[n] == rds[n]
    requires n >= m && ReadsRight(Relocated(ops, n), n) ==> m > 0 && |rights| > n && rights[n] == rds[n]
    ensures ReadsAs(Relocated(ops, n), lefts, rights)
  {
    if ops != [] {
      var rel := Relocated(ops, n);
      assert rel[0] == RelocatedOp(ops[0], n) && rel[1..] == Relocated(ops[1..], n);
      RelocatedOpReads(ops[0], n, m, rds, lefts, rights);
      RelocatedReads(ops[1..], n, m, rds, lefts, rights);
    }
    hide Relocatable, Planned;
  }

  lemma RelocatedOpReads(op: FilterOp, n: nat, m: nat, rds: seq<Reading>, lefts: seq<Reading>, rights: seq<Reading>)
    requires Planned(op, n, m) && Relocatable(op, n, m) && OpReadsAs(op, rds, rds) && |rds| == n + m
    requires n <= |lefts| && lefts[..n] == rds[..n] && m <= |rights| && rights[..m] == rds[n..]
    requires var rel := RelocatedOp(op, n);
             LeftIsColumn(rel) && rel.left.idx == n ==> m > 0 && |lefts| > n && lefts[n] == rds[n]
    requires var rel := RelocatedOp(op, n);
             n >= m && RightIsColumn(rel) && rel.right.idx == n ==> m > 0 && |rights| > n && rights[n] == rds[n]
    ensures OpReadsAs(RelocatedOp(op, n), lefts, rights)
  {
    if LeftIsColumn(op) {
      LeftSideReads(op, n, m, rds, lefts);
    }
    if RightIsColumn(op) {
      RightSideReads(op, n, m, rds, rights);
    }
    hide Relocatable, Planned, RelocatedSide, SideReadsAs;
  }

  lemma LeftSideReads(op: FilterOp, n: nat, m: nat, rds: seq<Reading>, lefts: seq<Reading>)
    requires Planned(op, n, m) && Relocatable(op, n, m) && LeftIsColumn(op) && |rds| == n + m
    requires SideReadsAs(op.left, rds) && (op.compType == CMP_COL_COL ==> SideReadsAs(op.right, rds))
    requires n <= |lefts| && lefts[..n] == rds[..n]
    requires RelocatedSide(op.left, n).idx == n ==> |lefts| > n && lefts[n] == rds[n]
    ensures SideReadsAs(RelocatedSide(op.left, n), lefts)
  {
    var i := RelocatedSide(op.left, n).idx;
    RelocatedLeft(op, n, m);
    hide Relocatable, Planned, RelocatedSide;
    if i < n {
      assert lefts[i] == lefts[..n][i] == rds[..n][i] == rds[i];
    }
  }

  lemma RightSideReads(op: FilterOp, n: nat, m: nat, rds: seq<Reading>, rights: seq<Reading>)
    requires Planned(op, n, m) && Relocatable(op, n, m) && RightIsColumn(op) && |rds| == n + m
    requires SideReadsAs(op.right, rds) && (op.compType == CMP_COL_COL ==> SideReadsAs(op.left, rds))
    requires m <= |rights| && rights[..m] == rds[n..]
    requires n >= m && RelocatedSide(op.right, n).idx == n ==> |rights| > n && rights[n] == rds[n]
    ensures SideReadsAs(RelocatedSide(op.right, n), rights)
  {
    var i := RelocatedSide(op.right, n).idx;
    RelocatedRight(op, n, m);
    hide Relocatable, Planned, RelocatedSide;
    if i < m {
      assert rights[i] == rights[..m][i] == rds[n..][i] == rds[n + i];
    }
  }

  /** The relocated left operand reads the column it did, or one of the left table that is compared with it. */
  lemma RelocatedLeft(op: FilterOp, n: nat, m: nat)
    requires Planned(op, n, m) && Relocatable(op, n, m) && LeftIsColumn(op)
    ensures var rel := RelocatedSide(op.left, n);
            && rel.dtype == op.left.dtype && 0 <= op.left.idx < n + m
            && ((rel.idx == op.left.idx <= n) ||
                (0 <= rel.idx < n && op.compType == CMP_COL_COL && rel.idx == op.right.idx))
    ensures op.left.dtype == op.right.dtype
  {
  }

  lemma RelocatedRight(op: FilterOp, n: nat, m: nat)
    requires Planned(op, n, m) && Relocatable(op, n, m) && RightIsColumn(op)
    ensures var rel := RelocatedSide(op.right, n);
            && rel.dtype == op.right.dtype && 0 <= op.right.idx < n + m
            && (|| (0 <= rel.idx < m && rel.idx == op.right.idx - n) || (rel.idx == op.right.idx == n >= m)
                || (0 <= rel.idx < m && op.compType == CMP_COL_COL && n + rel.idx == op.left.idx))
    ensures op.left.dtype == op.right.dtype
  {
  }

  /** Past the left width is read what the first left column, and the first right one, is. */
  lemma {:induction false} PastReads(ops: seq<FilterOp>, n: nat, m: nat, rds: seq<Reading>)
    requires AllRelocatable(ops, n, m) && ReadsAs(ops, rds, rds) && |rds| == n + m
    ensures ReadsLeft(Relocated(ops, n), n) ==> n > 0 && m > 0 && (rds[n] == AsLong ==> rds[0].Long())
    ensures ReadsRight(Relocated(ops, n), n) && n >= m ==> m > 0
  {
    if ops != [] {
      var rel := Relocated(ops, n);
      assert rel[0] == RelocatedOp(ops[0], n) && rel[1..] == Relocated(ops[1..], n);
      PastReads(ops[1..], n, m, rds);
    }
  }

  /** A joinable condition over two stored tables can be read as the types of the columns say, exactly
      when a number that is read past the width of a left line is the first one that ON reads there:
      what its cast leaves in the offsets past the line outlasts the line. */
  lemma JoinFitsIff(on: Condition, left: ResultSet, right: ResultSet, lefts: Contents, rights: Contents)
    requires Joinable(on, JoinDescription(left, right), |left.columns|, |right.columns|)
    requires WellKept(left, lefts) && WellKept(right, rights)
    ensures var ops, n := JoinOps(on, left, right), |left.columns|;
            WayFits(left, right, ops, lefts, rights, Described)
            <==> (lefts.Lines? && ReadsLeft(ops, n) && PastReading(right) == [AsLong] ==>
                    FirstLeft(ops) == Some(n))
  {
    var desc, n, m := JoinDescription(left, right), |left.columns|, |right.columns|;
    var planned, ops, rds := OpsOf(on, desc), JoinOps(on, left, right), DescribedReadings(desc);
    var ls := LeftReadings(left, right, ops, lefts, Described);
    var rs := RightReadings(left, right, ops, rights, Described);
    JoinablePlans(on, desc, n, m);
    PlannedReadsAs(on, desc);
    DescribedSides(left, right, lefts, rights);
    PastReads(planned, n, m, rds);
    RelocatedReads(planned, n, m, rds, ls, rs);
    LeftRowsRead(left, right, ops, lefts);
    RightRowsRead(left, right, ops, rights);
    hide *;
    ReadingsFit(left, right, ops, lefts, rights);
  }

  lemma ReadingsFit(left: ResultSet, right: ResultSet, ops: seq<FilterOp>, lefts: Contents, rights: Contents)
    requires WellKept(left, lefts) && WellKept(right, rights) && Typed(ops)
    requires ReadsLeft(ops, |left.columns|) ==> right.columns != []
    requires |left.columns| >= |right.columns| && ReadsRight(ops, |left.columns|) ==> right.columns != []
    requires ReadsAs(ops, LeftReadings(left, right, ops, lefts, Described),
                     RightReadings(left, right, ops, rights, Described))
    requires RowsRead(RowsIn(lefts), LeftReadings(left, right, ops, lefts, Described))
    requires RowsRead(RowsIn(rights), RightReadings(left, right, ops, rights, Described))
    ensures WayFits(left, right, ops, lefts, rights, Described)
            <==> (lefts.Lines? && ReadsLeft(ops, |left.columns|) && PastReading(right) == [AsLong] ==>
                    FirstLeft(ops) == Some(|left.columns|))
  {
    DescribedTable(left, lefts, 0);
    DescribedTable(right, rights, |left.columns|);
    hide ReadsAs, RowsRead, AllHaveWidth, Typed, WellStored, TableReadings, RowsIn, ReadsLeft, ReadsRight, FirstLeft;
  }

  lemma DescribedSides(left: ResultSet, right: ResultSet, lefts: Contents, rights: Contents)
    ensures var rds, n := DescribedReadings(JoinDescription(left, right)), |left.columns|;
            && |rds| == n + |right.columns|
            && TableReadings(left, lefts, 0, Described) == rds[..n]
            && TableReadings(right, rights, n, Described) == rds[n..]
            && (right.columns != [] ==> PastReading(right) == [rds[n]])
  {
    DescribedJoin(left, right, lefts, rights);
  }

  lemma LeftRowsRead(left: ResultSet, right: ResultSet, ops: seq<FilterOp>, lefts: Contents)
    requires WellKept(left, lefts)
    requires ReadsLeft(ops, |left.columns|) && right.columns != [] && right.columns[0].dtype == DTYPE_LONG ==>
               left.columns != [] && left.columns[0].dtype == DTYPE_LONG
    ensures RowsRead(RowsIn(lefts), LeftReadings(left, right, ops, lefts, Described))
  {
    var rds := LeftReadings(left, right, ops, lefts, Described);
    DescribedTable(left, lefts, 0);
    assert |rds| <= MAXCOLS && forall i :: 0 <= i < |rds| ==>
             !rds[i].AsBoth? && (rds[i].Long() ==> LongAt(left, i));
    KeptRowsRead(left, lefts, rds);
    hide WellStored, RowsRead;
  }

  lemma RightRowsRead(left: ResultSet, right: ResultSet, ops: seq<FilterOp>, rights: Contents)
    requires WellKept(right, rights) && |left.columns| < MAXCOLS
    ensures RowsRead(RowsIn(rights), RightReadings(left, right, ops, rights, Described))
  {
    var rds := RightReadings(left, right, ops, rights, Described);
    DescribedTable(right, rights, |left.columns|);
    assert |rds| <= MAXCOLS && forall i :: 0 <= i < |rds| ==>
             !rds[i].AsBoth? && (rds[i].Long() ==> LongAt(right, i));
    KeptRowsRead(right, rights, rds);
    hide WellStored, RowsRead;
  }

  /** Column `i`, or past the width the first one, is a number. */
  predicate LongAt(desc: ResultSet, i: nat) {
    desc.columns != [] && desc.columns[if i < |desc.columns| then i else 0].dtype == DTYPE_LONG
  }

  lemma KeptRowsRead(desc: ResultSet, contents: Contents, rds: seq<Reading>)
    requires WellKept(desc, contents) && |rds| <= MAXCOLS
    requires forall i :: 0 <= i < |rds| ==> !rds[i].AsBoth? && (rds[i].Long() ==> LongAt(desc, i))
    ensures RowsRead(RowsIn(contents), rds)
  {
    forall k | 0 <= k < |RowsIn(contents)|
      ensures RowReads(RowsIn(contents)[k], rds)
    {
      var row := RowsIn(contents)[k];
      KeptRows(desc, contents, k, 0);
      assert HasWidth(row, |desc.columns|);
      forall i | 0 <= i < |rds| && rds[i].Long() && row.kind == TPL_TDB
        ensures row.Offset(i) + 8 <= |row.data|
      {
        KeptRows(desc, contents, k, i);
      }
    }
    hide WellStored, RowsIn;
  }

  // ----- running a join -----

  /** A join that can be run, if its ON condition names known columns: the condition is one that the
      planner handles, the two tuples can be read as it and its readers do, and the nested loop, which
      pulls an exhausted left input once more, has a left input that is not empty. */
  ghost predicate JoinRuns(on: Condition, left: ResultSet, right: ResultSet, hashJoinEnabled: bool,
                           lefts: Contents, rights: Contents, h: Hash, size: nat, way: Way)
  {
    && AllPlain(on) && WellStored(lefts) && WellStored(rights)
    && (Resolves(on, JoinDescription(left, right)) ==>
          var ops, n, m := JoinOps(on, left, right), |left.columns|, |right.columns|;
          && Joinable(on, JoinDescription(left, right), n, m)
          && Hashable(ops, hashJoinEnabled, RowsIn(rights), h, size)
          && (DeduceJoinType(ops, hashJoinEnabled) == OP_JOIN ==> RowsIn(lefts) != [])
          && WayFits(left, right, ops, lefts, rights, way))
  }

  /** The evaluator answers the ON condition as written, and the chosen join loses nothing. */
  ghost predicate JoinDelivers(on: Condition, left: ResultSet, right: ResultSet, hashJoinEnabled: bool,
                               lefts: seq<Row>, rights: seq<Row>, h: Hash)
    requires Resolves(on, JoinDescription(left, right))
  {
    && OnFaithful(on, JoinDescription(left, right), |left.columns|, lefts, rights)
    && Undisturbed(JoinOps(on, left, right), hashJoinEnabled, lefts, rights, h)
  }

  /** Plan the nodes of the ON condition and choose the join; `None` is the exit on an unknown column.
      Where the chosen join loses nothing it will hand on the rows of the written condition, whichever
      it is, and however its tuples are read on the way. */
  method BuildJoin(chain: seq<Node>, left: ResultSet, right: ResultSet, lefts: Contents, rights: Contents,
                   hashJoinEnabled: bool, h: Hash, size: nat, ghost on: Condition, ghost way: Way)
    returns (r: Option<Bottom>)
    requires chain == Nodes(on) && JoinRuns(on, left, right, hashJoinEnabled, lefts, rights, h, size, way)
    ensures r.Some? <==> Resolves(on, JoinDescription(left, right))
    ensures r.Some? ==>
              && r.value.Valid() && !r.value.Ended() && fresh(r.value.Repr()) && !r.value.Scanned?
              && r.value.Readings() == JoinReadings(left, right, lefts, rights, way)
              && (JoinDelivers(on, left, right, hashJoinEnabled, RowsIn(lefts), RowsIn(rights), h) ==>
                    r.value.Rest() == JoinedRows(RowsIn(lefts), RowsIn(rights), on, JoinDescription(left, right),
                                                 |left.columns|))
  {
    var desc, n := JoinDescription(left, right), |left.columns|;
    PlainPlans(on, desc);
    assert Resolves(on, desc) ==> JoinOps(on, left, right) == Relocated(OpsOf(on, desc), n);
    hide OpsOf, Relocated, Joinable, JoinOps, JoinFits, JoinDelivers, Hashable, JoinedRows, PlanOps, Nodes, Resolves,
         AllPlain, JoinReadings, LeftReadings, RightReadings, Bottom.Valid, Bottom.Rest, Bottom.Readings;
    var planned := MakeFilterOps(chain, desc);
    if planned == None {
      return None;
    }
    var ops := RelocateOps(planned.value, n);
    var bottom := ChooseJoin(ops, left, right, lefts, rights, hashJoinEnabled, h, size, on, way);
    if JoinDelivers(on, left, right, hashJoinEnabled, RowsIn(lefts), RowsIn(rights), h) {
      DeliversRows(on, left, right, hashJoinEnabled, lefts, rights, h, size, way);
    }
    return Some(bottom);
  }

  /** What the chosen join hands on. */
  ghost function ChosenRun(ops: seq<FilterOp>, hashJoinEnabled: bool, lefts: seq<Row>, rights: seq<Row>,
                           h: Hash, size: nat): seq<Pair>
    requires ops != [] && Typed(ops) && Hashable(ops, hashJoinEnabled, rights, h, size)
  {
    match DeduceJoinType(ops, hashJoinEnabled)
    case OP_JOIN => Join(lefts, rights, ops)
    case OP_HASHJOIN => HashJoinRun(lefts, rights, ops, KeyColumn(ops[0].left), KeyColumn(ops[0].right), h, size)
  }

  method ChooseJoin(ops: seq<FilterOp>, left: ResultSet, right: ResultSet, lefts: Contents, rights: Contents,
                    hashJoinEnabled: bool, h: Hash, size: nat, ghost on: Condition, ghost way: Way)
    returns (bottom: Bottom)
    requires JoinRuns(on, left, right, hashJoinEnabled, lefts, rights, h, size, way)
    requires Resolves(on, JoinDescription(left, right)) && ops == JoinOps(on, left, right)
    ensures bottom.Valid() && !bottom.Ended() && fresh(bottom.Repr()) && !bottom.Scanned?
    ensures bottom.Readings() == JoinReadings(left, right, lefts, rights, way)
    ensures Typed(ops) && Hashable(ops, hashJoinEnabled, RowsIn(rights), h, size)
    ensures bottom.Rest() == Views(ChosenRun(ops, hashJoinEnabled, RowsIn(lefts), RowsIn(rights), h, size),
                                   |left.columns|)
  {
    ChosenRuns(ops, left, right, lefts, rights, hashJoinEnabled, h, size, on, way);
    hide *;
    if DeduceJoinType(ops, hashJoinEnabled) == OP_JOIN {
      bottom := NestedBottom(ops, left, right, lefts, rights, way);
    } else {
      bottom := HashBottom(ops, left, right, lefts, rights, KeyColumn(ops[0].left), KeyColumn(ops[0].right), h, size,
                           way);
    }
  }

  /** What each of the two joins needs, and what it will run to. */
  lemma ChosenRuns(ops: seq<FilterOp>, left: ResultSet, right: ResultSet, lefts: Contents, rights: Contents,
                   hashJoinEnabled: bool, h: Hash, size: nat, on: Condition, way: Way)
    requires JoinRuns(on, left, right, hashJoinEnabled, lefts, rights, h, size, way)
    requires Resolves(on, JoinDescription(left, right)) && ops == JoinOps(on, left, right)
    ensures Typed(ops) && Hashable(ops, hashJoinEnabled, RowsIn(rights), h, size)
    ensures WellStored(lefts) && WellStored(rights)
    ensures WayFits(left, right, ops, lefts, rights, way)
    ensures var run := ChosenRun(ops, hashJoinEnabled, RowsIn(lefts), RowsIn(rights), h, size);
            if DeduceJoinType(ops, hashJoinEnabled) == OP_JOIN then
              RowsIn(lefts) != [] && run == Join(RowsIn(lefts), RowsIn(rights), ops)
            else
              var lc, rc := KeyColumn(ops[0].left), KeyColumn(ops[0].right);
              && KeyEquality(ops, lc, rc) && Fits(h, size) && KeysFit(Keys(RowsIn(rights), rc))
              && run == HashJoinRun(RowsIn(lefts), RowsIn(rights), ops, lc, rc, h, size)
  {
    var desc, n, m := JoinDescription(left, right), |left.columns|, |right.columns|;
    JoinablePlans(on, desc, n, m);
    if DeduceJoinType(ops, hashJoinEnabled) == OP_HASHJOIN {
      HashJoinNeedsEquality(on, left, right, hashJoinEnabled);
    }
    hide OpsOf, Relocated, Joinable, JoinFits, LeftReadings, RightReadings, RowsIn, Resolves, AllPlain, KeysFit, Keys,
         Join, HashJoinRun, WellStored;
  }

  method NestedBottom(ops: seq<FilterOp>, left: ResultSet, right: ResultSet, lefts: Contents, rights: Contents,
                    ghost way: Way)
    returns (bottom: Bottom)
    requires WellStored(lefts) && WellStored(rights) && RowsIn(lefts) != [] && Typed(ops)
    requires WayFits(left, right, ops, lefts, rights, way)
    ensures bottom.Valid() && !bottom.Ended() && fresh(bottom.Repr()) && !bottom.Scanned?
    ensures bottom.Readings() == JoinReadings(left, right, lefts, rights, way)
    ensures bottom.Rest() == Views(Join(RowsIn(lefts), RowsIn(rights), ops), |left.columns|)
  {
    hide JoinFits, Join, Views, JoinReadings, LeftReadings, RightReadings, RowsIn, WellStored, JoinTuples.Blank;
    var pair := NewPair(ops, left, right, lefts, rights, way);
    var join := new NestedLoopJoin.NestedLoopJoin(pair);
    bottom := Loop(join);
  }

  method HashBottom(ops: seq<FilterOp>, left: ResultSet, right: ResultSet, lefts: Contents, rights: Contents,
                  lc: nat, rc: nat, h: Hash, size: nat, ghost way: Way)
    returns (bottom: Bottom)
    requires WellStored(lefts) && WellStored(rights)
    requires KeyEquality(ops, lc, rc) && Typed(ops) && Fits(h, size) && KeysFit(Keys(RowsIn(rights), rc))
    requires WayFits(left, right, ops, lefts, rights, way)
    ensures bottom.Valid() && !bottom.Ended() && fresh(bottom.Repr()) && !bottom.Scanned?
    ensures bottom.Readings() == JoinReadings(left, right, lefts, rights, way)
    ensures bottom.Rest() == Views(HashJoinRun(RowsIn(lefts), RowsIn(rights), ops, lc, rc, h, size), |left.columns|)
  {
    hide JoinFits, HashJoinRun, Views, JoinReadings, LeftReadings, RightReadings, RowsIn, WellStored, KeysFit, Keys,
         KeyEquality, JoinTuples.Blank;
    var pair := NewPair(ops, left, right, lefts, rights, way);
    var join := new HashJoin.HashJoin(pair, lc, rc, h, size);
    bottom := Hashed(join);
  }

  /** The scans of both tables, with nothing read yet. */
  method NewPair(ops: seq<FilterOp>, left: ResultSet, right: ResultSet, lefts: Contents, rights: Contents,
                 ghost way: Way)
    returns (pair: JoinTuples)
    requires WellStored(lefts) && WellStored(rights)
    requires WayFits(left, right, ops, lefts, rights, way)
    ensures pair.Valid() && pair.Blank() && fresh(pair.Repr) && !pair.right.rightTuplesCollected
    ensures pair.right.tuples == []
    ensures pair.left.Rest() == RowsIn(lefts) && pair.right.Rows() == RowsIn(rights)
    ensures pair.filter == ops && pair.leftColumnCount == |left.columns|
    ensures pair.Fits() && pair.Joint() == JoinReadings(left, right, lefts, rights, way)
  {
    hide JoinFits, JoinReadings, LeftReadings, RightReadings, RowsIn, WellStored, JoinTuples.Blank;
    var l := new Scan(lefts);
    var r := new Scan(rights);
    pair := new JoinTuples(l, r, ops, |left.columns|, |right.columns|, LeftReadings(left, right, ops, lefts, way),
                           RightReadings(left, right, ops, rights, way));
    JointReads(pair, left, right, way);
  }

  lemma JointReads(pair: JoinTuples, left: ResultSet, right: ResultSet, way: Way)
    requires pair.Fits() && pair.leftColumnCount == |left.columns| && pair.rightColumnCount == |right.columns|
    requires pair.rds == LeftReadings(left, right, pair.filter, pair.left.contents, way)
    requires pair.right.rds == RightReadings(left, right, pair.filter, pair.right.source.contents, way)
    ensures pair.Joint() == JoinReadings(left, right, pair.left.contents, pair.right.source.contents, way)
  {
    hide JoinFits, TableReadings;
  }

  lemma DeliversRows(on: Condition, left: ResultSet, right: ResultSet, hashJoinEnabled: bool,
                     lefts: Contents, rights: Contents, h: Hash, size: nat, way: Way)
    requires JoinRuns(on, left, right, hashJoinEnabled, lefts, rights, h, size, way)
    requires Resolves(on, JoinDescription(left, right))
    requires JoinDelivers(on, left, right, hashJoinEnabled, RowsIn(lefts), RowsIn(rights), h)
    ensures var ops, n := JoinOps(on, left, right), |left.columns|;
            && Typed(ops) && Hashable(ops, hashJoinEnabled, RowsIn(rights), h, size)
            && Views(ChosenRun(ops, hashJoinEnabled, RowsIn(lefts), RowsIn(rights), h, size), n) ==
               JoinedRows(RowsIn(lefts), RowsIn(rights), on, JoinDescription(left, right), n)
  {
    var desc, ops, n, m := JoinDescription(left, right), JoinOps(on, left, right), |left.columns|, |right.columns|;
    hide OpsOf, Relocated, Joinable, OnFaithful, HashJoinDelivers, Join, JoinedRows, Views, HashJoinRun, AllHaveWidth,
         Resolves, AllPlain, RowsIn, On, OnMeans, KeysFit, Keys;
    JoinablePlans(on, desc, n, m);
    OnAsWritten(RowsIn(lefts), RowsIn(rights), on, desc, n, m);
    JoinAsWritten(RowsIn(lefts), RowsIn(rights), on, desc, n, ops);
    if DeduceJoinType(ops, hashJoinEnabled) == OP_HASHJOIN {
      DeliversJoin(RowsIn(lefts), RowsIn(rights), ops, KeyColumn(ops[0].left), KeyColumn(ops[0].right), h, size);
    }
  }

  lemma PlainPlans(on: Condition, desc: ResultSet)
    requires AllPlain(on)
    ensures PlanOps(Nodes(on), desc) == if Resolves(on, desc) then Some(OpsOf(on, desc)) else None
  {
    PlainIsGroupsFirst(on);
    PlansCondition(on, false, desc);
    assert Nodes(on) + Closing(false) == Nodes(on);
  }

  lemma OnAsWritten(lefts: seq<Row>, rights: seq<Row>, on: Condition, desc: ResultSet, n: nat, m: nat)
    requires AllHaveWidth(lefts, n) && AllHaveWidth(rights, m)
    requires Joinable(on, desc, n, m) && OnFaithful(on, desc, n, lefts, rights)
    ensures var ops := Relocated(OpsOf(on, desc), n);
            Typed(ops) && forall i, j :: 0 <= i < |lefts| && 0 <= j < |rights| ==>
              On(lefts[i], rights[j], ops) == OnMeans(on, desc, n, lefts[i], rights[j])
  {
    JoinablePlans(on, desc, n, m);
    hide HasWidth, On, OnMeans, AllFaithful, AllRelocatable, OpsOf, Relocated, Typed;
    forall i, j | 0 <= i < |lefts| && 0 <= j < |rights|
      ensures On(lefts[i], rights[j], Relocated(OpsOf(on, desc), n)) == OnMeans(on, desc, n, lefts[i], rights[j])
    {
      RelocatedMeans(on, desc, n, m, lefts[i], rights[j]);
    }
  }
}
