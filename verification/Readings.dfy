/** How a planned condition reads the columns of a tuple: each as the type it has. */
module Readings {
  import opened CText
  import opened Filter
  import opened ParseTree
  import opened FilterPlanner
  import opened WhereMeaning
  import opened Evaluator

  /** How the columns of a description are read. */
  function DescribedReadings(desc: ResultSet): (r: seq<Reading>)
    ensures |r| == |desc.columns|
  {
    ReadingsOf(TypesOf(desc.columns))
  }

  /** A planned condition reads every column as the type it has in the description. */
  lemma {:induction false} PlannedReadsAs(c: Condition, desc: ResultSet)
    requires Resolves(c, desc)
    ensures ReadsAs(OpsOf(c, desc), DescribedReadings(desc), DescribedReadings(desc))
  {
    match c.item {
      case Plain(_, _, _) =>
        PlainReadsAs(c.item, if c.More? then c.conn else AND, desc);
      case Group(inner) =>
        PlannedReadsAs(inner, desc);
    }
    if c.More? {
      PlannedReadsAs(c.rest, desc);
      assert OpsOf(c, desc)[1..] == OpsOf(c.rest, desc);
    }
    hide SideOf, Known, TypesOf;
  }

  lemma PlainReadsAs(i: Item, conn: Connector, desc: ResultSet)
    requires i.Plain? && ResolvesItem(i, desc)
    ensures OpReadsAs(OpOf(i, conn, desc), DescribedReadings(desc), DescribedReadings(desc))
  {
    hide FindColIdxInResDesc, Atol;
  }

  /** So does whatever is planned from a chain of nodes. */
  lemma {:induction false} ChainReadsAs(chain: seq<Node>, desc: ResultSet)
    requires PlanOps(chain, desc).Some?
    ensures ReadsAs(PlanOps(chain, desc).value, DescribedReadings(desc), DescribedReadings(desc))
  {
    if chain[0].kind != OPAREN {
      ComparisonsReadAs(chain, desc);
    } else {
      ChainReadsAs(chain[0].child, desc);
      if |chain| > 2 && chain[1].kind != CPAREN {
        ChainReadsAs(chain[2..], desc);
        assert PlanOps(chain, desc).value[1..] == PlanOps(chain[2..], desc).value;
      }
    }
    hide DescribedReadings;
  }

  lemma {:induction false} ComparisonsReadAs(chain: seq<Node>, desc: ResultSet)
    requires PlanComparisons(chain, desc).Some?
    ensures ReadsAs(PlanComparisons(chain, desc).value, DescribedReadings(desc), DescribedReadings(desc))
  {
    ComparisonReadsAs(chain, desc);
    if |chain| > 4 {
      ComparisonsReadAs(chain[4..], desc);
      assert PlanComparisons(chain, desc).value[1..] == PlanComparisons(chain[4..], desc).value;
    }
    hide DescribedReadings, MakeFilterOp;
  }

  lemma ComparisonReadsAs(chain: seq<Node>, desc: ResultSet)
    requires MakeFilterOp(chain, desc).Some?
    ensures OpReadsAs(MakeFilterOp(chain, desc).value, DescribedReadings(desc), DescribedReadings(desc))
  {
    hide FindColIdxInResDesc, Atol;
  }

  // ----- a column that is read as a number as well -----

  /** The list reads column `c` of its first tuple as a text. */
  predicate LeftReadsText(ops: seq<FilterOp>, c: nat) {
    ops != [] && (LeftOpReadsText(ops[0], c) || LeftReadsText(ops[1..], c))
  }

  predicate LeftOpReadsText(op: FilterOp, c: nat) {
    match op
    case Comparison(l, _, _, _, _) => LeftIsColumn(op) && l.idx == c && l.dtype == DTYPE_STR
    case Parenthesis(child, _) => LeftReadsText(child, c)
  }

  /** And of its second one. */
  predicate RightReadsText(ops: seq<FilterOp>, c: nat) {
    ops != [] && (RightOpReadsText(ops[0], c) || RightReadsText(ops[1..], c))
  }

  predicate RightOpReadsText(op: FilterOp, c: nat) {
    match op
    case Comparison(_, _, r, _, _) => RightIsColumn(op) && r.idx == c && r.dtype == DTYPE_STR
    case Parenthesis(child, _) => RightReadsText(child, c)
  }

  /** A list can still be answered when a column is read as a number by others, exactly when it does
      not read it as a text. */
  lemma {:induction false} RereadLeftIff(ops: seq<FilterOp>, rds1: seq<Reading>, rds2: seq<Reading>, c: nat)
    requires ReadsAs(ops, rds1, rds2) && c < |rds1|
    ensures ReadsAs(ops, rds1[c := AsLong], rds2) <==> !LeftReadsText(ops, c)
    decreases ops, 0
  {
    if ops != [] {
      RereadLeftOpIff(ops[0], rds1, rds2, c);
      RereadLeftIff(ops[1..], rds1, rds2, c);
    }
  }

  lemma {:induction false} RereadLeftOpIff(op: FilterOp, rds1: seq<Reading>, rds2: seq<Reading>, c: nat)
    requires OpReadsAs(op, rds1, rds2) && c < |rds1|
    ensures OpReadsAs(op, rds1[c := AsLong], rds2) <==> !LeftOpReadsText(op, c)
    decreases op, 1
  {
    if op.Parenthesis? {
      RereadLeftIff(op.child, rds1, rds2, c);
    }
  }

  lemma {:induction false} RereadRightIff(ops: seq<FilterOp>, rds1: seq<Reading>, rds2: seq<Reading>, c: nat)
    requires ReadsAs(ops, rds1, rds2) && c < |rds2|
    ensures ReadsAs(ops, rds1, rds2[c := AsLong]) <==> !RightReadsText(ops, c)
    decreases ops, 0
  {
    if ops != [] {
      RereadRightOpIff(ops[0], rds1, rds2, c);
      RereadRightIff(ops[1..], rds1, rds2, c);
    }
  }

  lemma {:induction false} RereadRightOpIff(op: FilterOp, rds1: seq<Reading>, rds2: seq<Reading>, c: nat)
    requires OpReadsAs(op, rds1, rds2) && c < |rds2|
    ensures OpReadsAs(op, rds1, rds2[c := AsLong]) <==> !RightOpReadsText(op, c)
    decreases op, 1
  {
    if op.Parenthesis? {
      RereadRightIff(op.child, rds1, rds2, c);
    }
  }

  /** WHERE, which reads one tuple on both sides. */
  lemma RereadIff(ops: seq<FilterOp>, rds: seq<Reading>, c: nat)
    requires ReadsAs(ops, rds, rds) && c < |rds|
    ensures ReadsAs(ops, rds[c := AsLong], rds[c := AsLong]) <==> !LeftReadsText(ops, c) && !RightReadsText(ops, c)
  {
    RereadLeftIff(ops, rds, rds, c);
    if !LeftReadsText(ops, c) {
      RereadRightIff(ops, rds[c := AsLong], rds, c);
    } else {
      LeftTextLost(ops, rds, rds[c := AsLong], c);
    }
  }

  lemma {:induction false} LeftTextLost(ops: seq<FilterOp>, rds: seq<Reading>, rds2: seq<Reading>, c: nat)
    requires LeftReadsText(ops, c) && c < |rds|
    ensures !ReadsAs(ops, rds[c := AsLong], rds2)
    decreases ops
  {
    if !LeftOpReadsText(ops[0], c) {
      LeftTextLost(ops[1..], rds, rds2, c);
    } else if ops[0].Parenthesis? {
      LeftTextLost(ops[0].child, rds, rds2, c);
    }
  }

  /** What can be read the one way can be read the other. */
  ghost predicate More(rds: seq<Reading>, more: seq<Reading>) {
    |rds| == |more| && forall i :: 0 <= i < |rds| ==>
                         (rds[i].Text() ==> more[i].Text()) && (rds[i].Long() ==> more[i].Long())
  }

  lemma {:induction false} MoreReadsAs(ops: seq<FilterOp>, rds1: seq<Reading>, rds2: seq<Reading>,
                                       more1: seq<Reading>, more2: seq<Reading>)
    requires ReadsAs(ops, rds1, rds2) && More(rds1, more1) && More(rds2, more2)
    ensures ReadsAs(ops, more1, more2)
    decreases ops
  {
    if ops != [] {
      if ops[0].Parenthesis? {
        MoreReadsAs(ops[0].child, rds1, rds2, more1, more2);
      }
      MoreReadsAs(ops[1..], rds1, rds2, more1, more2);
    }
  }

  /** The list reads some column of its first tuple as a number. */
  predicate LeftReadsNumber(ops: seq<FilterOp>) {
    ops != [] && (LeftOpReadsNumber(ops[0]) || LeftReadsNumber(ops[1..]))
  }

  predicate LeftOpReadsNumber(op: FilterOp) {
    match op
    case Comparison(l, _, _, _, _) => LeftIsColumn(op) && l.dtype == DTYPE_LONG
    case Parenthesis(child, _) => LeftReadsNumber(child)
  }

  /** And of its second one. */
  predicate RightReadsNumber(ops: seq<FilterOp>) {
    ops != [] && (RightOpReadsNumber(ops[0]) || RightReadsNumber(ops[1..]))
  }

  predicate RightOpReadsNumber(op: FilterOp) {
    match op
    case Comparison(_, _, r, _, _) => RightIsColumn(op) && r.dtype == DTYPE_LONG
    case Parenthesis(child, _) => RightReadsNumber(child)
  }

  /** The same texts can be read, and none of the numbers. */
  predicate OnlyTexts(rds: seq<Reading>, texts: seq<Reading>) {
    |rds| == |texts| && forall i :: 0 <= i < |rds| ==>
                          texts[i].Text() == rds[i].Text() && (rds[i].Long() ==> !texts[i].Long())
  }

  /** A list can be answered without the numbers exactly when it reads none. */
  lemma {:induction false} LeftTextsIff(ops: seq<FilterOp>, rds: seq<Reading>, texts: seq<Reading>, rds2: seq<Reading>)
    requires ReadsAs(ops, rds, rds2) && OnlyTexts(rds, texts)
    ensures ReadsAs(ops, texts, rds2) <==> !LeftReadsNumber(ops)
    decreases ops, 0
  {
    if ops != [] {
      LeftOpTextsIff(ops[0], rds, texts, rds2);
      LeftTextsIff(ops[1..], rds, texts, rds2);
    }
  }

  lemma {:induction false} LeftOpTextsIff(op: FilterOp, rds: seq<Reading>, texts: seq<Reading>, rds2: seq<Reading>)
    requires OpReadsAs(op, rds, rds2) && OnlyTexts(rds, texts)
    ensures OpReadsAs(op, texts, rds2) <==> !LeftOpReadsNumber(op)
    decreases op, 1
  {
    if op.Parenthesis? {
      LeftTextsIff(op.child, rds, texts, rds2);
    }
  }

  lemma {:induction false} RightTextsIff(ops: seq<FilterOp>, rds1: seq<Reading>, rds: seq<Reading>, texts: seq<Reading>)
    requires ReadsAs(ops, rds1, rds) && OnlyTexts(rds, texts)
    ensures ReadsAs(ops, rds1, texts) <==> !RightReadsNumber(ops)
    decreases ops, 0
  {
    if ops != [] {
      RightOpTextsIff(ops[0], rds1, rds, texts);
      RightTextsIff(ops[1..], rds1, rds, texts);
    }
  }

  lemma {:induction false} RightOpTextsIff(op: FilterOp, rds1: seq<Reading>, rds: seq<Reading>, texts: seq<Reading>)
    requires OpReadsAs(op, rds1, rds) && OnlyTexts(rds, texts)
    ensures OpReadsAs(op, rds1, texts) <==> !RightOpReadsNumber(op)
    decreases op, 1
  {
    if op.Parenthesis? {
      RightTextsIff(op.child, rds1, rds, texts);
    }
  }

  /** The list reads as a number a column from `lo` on and before `hi`. */
  predicate ReadsNumberIn(ops: seq<FilterOp>, lo: nat, hi: nat) {
    ops != [] && (OpReadsNumberIn(ops[0], lo, hi) || ReadsNumberIn(ops[1..], lo, hi))
  }

  predicate OpReadsNumberIn(op: FilterOp, lo: nat, hi: nat) {
    match op
    case Comparison(l, _, r, _, _) =>
      || (LeftIsColumn(op) && l.dtype == DTYPE_LONG && lo <= l.idx < hi)
      || (RightIsColumn(op) && r.dtype == DTYPE_LONG && lo <= r.idx < hi)
    case Parenthesis(child, _) => ReadsNumberIn(child, lo, hi)
  }

  /** The same texts can be read, and the same numbers but for those columns. */
  predicate Without(rds: seq<Reading>, some: seq<Reading>, lo: nat, hi: nat) {
    |rds| == |some| && forall i :: 0 <= i < |rds| ==>
                         && some[i].Text() == rds[i].Text()
                         && (rds[i].Long() ==> (some[i].Long() <==> !(lo <= i < hi)))
  }

  lemma {:induction false} WithoutIff(ops: seq<FilterOp>, rds: seq<Reading>, some: seq<Reading>, lo: nat, hi: nat)
    requires ReadsAs(ops, rds, rds) && Without(rds, some, lo, hi)
    ensures ReadsAs(ops, some, some) <==> !ReadsNumberIn(ops, lo, hi)
    decreases ops, 0
  {
    if ops != [] {
      WithoutOpIff(ops[0], rds, some, lo, hi);
      WithoutIff(ops[1..], rds, some, lo, hi);
    }
  }

  lemma {:induction false} WithoutOpIff(op: FilterOp, rds: seq<Reading>, some: seq<Reading>, lo: nat, hi: nat)
    requires OpReadsAs(op, rds, rds) && Without(rds, some, lo, hi)
    ensures OpReadsAs(op, some, some) <==> !OpReadsNumberIn(op, lo, hi)
    decreases op, 1
  {
    if op.Parenthesis? {
      WithoutIff(op.child, rds, some, lo, hi);
    }
  }
}
