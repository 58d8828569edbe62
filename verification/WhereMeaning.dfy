/** What a written condition means on a tuple, read from left to right; and that the planned
    list of filter operators evaluates to just that. */
module WhereMeaning {
  import opened CText
  import opened Tuples
  import opened Filter
  import opened Comparison
  import opened ParseTree
  import opened FilterPlanner

  // ----- the meaning of a condition -----

  /** The operand names a column of the description, or is a constant. */
  predicate Known(o: Operand, desc: ResultSet) {
    o.Column? ==> FindColIdxInResDesc(desc.columns, o.name, o.tblref).Some?
  }

  function TypeOf(o: Operand, desc: ResultSet): Datatype
    requires Known(o, desc)
  {
    match o
    case Column(tblref, name) => desc.columns[FindColIdxInResDesc(desc.columns, name, tblref).value].dtype
    case StringConst(_) => DTYPE_STR
    case NumberConst(_) => DTYPE_LONG
  }

  function ValueOf(o: Operand, desc: ResultSet, t: View): Value
    requires Known(o, desc)
  {
    match o
    case Column(tblref, name) =>
      var i := FindColIdxInResDesc(desc.columns, name, tblref).value;
      if desc.columns[i].dtype == DTYPE_STR then Text(t.StrCol(i)) else Number(t.LongCol(i))
    case StringConst(s) => Text(s)
    case NumberConst(digits) => Number(Atol(digits))
  }

  predicate Compare(op: Operator, v: Value, w: Value) {
    match op
    case Equal => Order(v, w) == 0
    case NotEqual => Order(v, w) != 0
    case Less => Order(v, w) < 0
    case Greater => Order(v, w) > 0
    case GreaterOrEqual => Order(v, w) >= 0
    case LessOrEqual => Order(v, w) <= 0
  }

  /** Every column is known. */
  predicate Resolves(c: Condition, desc: ResultSet) {
    ResolvesItem(c.item, desc) && (c.More? ==> Resolves(c.rest, desc))
  }

  predicate ResolvesItem(i: Item, desc: ResultSet) {
    match i
    case Plain(l, _, r) => Known(l, desc) && Known(r, desc)
    case Group(inner) => Resolves(inner, desc)
  }

  /** Every comparison is between two strings or two numbers. */
  predicate WellTyped(c: Condition, desc: ResultSet)
    requires Resolves(c, desc)
  {
    WellTypedItem(c.item, desc) && (c.More? ==> WellTyped(c.rest, desc))
  }

  predicate WellTypedItem(i: Item, desc: ResultSet)
    requires ResolvesItem(i, desc)
  {
    match i
    case Plain(l, _, r) => TypeOf(l, desc) == TypeOf(r, desc) && TypeOf(l, desc) in {DTYPE_STR, DTYPE_LONG}
    case Group(inner) => WellTyped(inner, desc)
  }

  predicate MeansItem(i: Item, desc: ResultSet, t1: View, t2: View)
    requires ResolvesItem(i, desc)
    decreases i, 1
  {
    match i
    case Plain(l, op, r) => Compare(op, ValueOf(l, desc, t1), ValueOf(r, desc, t2))
    case Group(inner) => Means(inner, desc, t1, t2)
  }

  predicate MeansFrom(c: Condition, acc: bool, conn: Connector, desc: ResultSet, t1: View, t2: View)
    requires Resolves(c, desc)
    decreases c, 2
  {
    var acc' := Combine(conn, MeansItem(c.item, desc, t1, t2), acc);
    if c.Last? then acc' else MeansFrom(c.rest, acc', c.conn, desc, t1, t2)
  }

  /** The written condition, left to right, groups first evaluated on their own. Left operands
      read from `t1` and right operands from `t2`; for WHERE both are the one tuple. */
  predicate Means(c: Condition, desc: ResultSet, t1: View, t2: View)
    requires Resolves(c, desc)
    decreases c, 3
  {
    MeansFrom(c, true, AND, desc, t1, t2)
  }

  // ----- the planned operators -----

  function SideOf(o: Operand, desc: ResultSet): Side
    requires Known(o, desc)
  {
    match o
    case Column(tblref, name) =>
      Side(FindColIdxInResDesc(desc.columns, name, tblref).value, TypeOf(o, desc), "", 0)
    case StringConst(s) => Side(-1, DTYPE_STR, s, 0)
    case NumberConst(digits) => Side(-1, DTYPE_LONG, digits, Atol(digits))
  }

  function CodeOf(op: Operator): int {
    match op
    case Equal => -1
    case NotEqual => -2
    case Less => -3
    case Greater => -4
    case GreaterOrEqual => -5
    case LessOrEqual => -6
  }

  function OpOf(i: Item, conn: Connector, desc: ResultSet): FilterOp
    requires ResolvesItem(i, desc)
    decreases i, 1
  {
    match i
    case Plain(l, op, r) =>
      Comparison(SideOf(l, desc), CodeOf(op), SideOf(r, desc),
                 DeduceComparisonType(OperandNode(l).kind, OperandNode(r).kind), conn)
    case Group(inner) => Parenthesis(OpsOf(inner, desc), conn)
  }

  /** One operator per item, in order, connector `i` on operator `i`. */
  function OpsOf(c: Condition, desc: ResultSet): seq<FilterOp>
    requires Resolves(c, desc)
    decreases c, 2
  {
    match c
    case Last(i) => [OpOf(i, AND, desc)]
    case More(i, conn, rest) => [OpOf(i, conn, desc)] + OpsOf(rest, desc)
  }

  lemma MakeSideKnown(o: Operand, desc: ResultSet)
    ensures MakeSide(OperandNode(o), desc) == if Known(o, desc) then Some(SideOf(o, desc)) else None
  {
  }

  lemma MapsSpelling(op: Operator)
    ensures MapBoolOpToInt(Spelling(op)) == Some(CodeOf(op))
  {
  }

  /** What may follow the last item: nothing, or the parenthesis that closes the group. */
  function Closing(closed: bool): seq<Node> {
    if closed then [Leaf(CPAREN, ")")] else []
  }

  lemma MakesItemOp(i: Item, tail: seq<Node>, desc: ResultSet)
    requires i.Plain?
    ensures MakeFilterOp(ItemNodes(i) + tail, desc) ==
            if ResolvesItem(i, desc) then Some(OpOf(i, AND, desc)) else None
  {
    MakeSideKnown(i.l, desc);
    MakeSideKnown(i.r, desc);
    MapsSpelling(i.op);
  }

  lemma LastComparison(i: Item, closed: bool, desc: ResultSet)
    requires i.Plain?
    ensures PlanComparisons(ItemNodes(i) + Closing(closed), desc) ==
            if ResolvesItem(i, desc) then Some([OpOf(i, AND, desc)]) else None
  {
    MakesItemOp(i, Closing(closed), desc);
  }

  lemma NextComparison(i: Item, conn: Connector, rest: seq<Node>, desc: ResultSet)
    requires i.Plain? && rest != []
    ensures PlanComparisons(ItemNodes(i) + ([ConnectorNode(conn)] + rest), desc) ==
            if ResolvesItem(i, desc) then Prepend([OpOf(i, conn, desc)], PlanComparisons(rest, desc)) else None
  {
    var chain := ItemNodes(i) + ([ConnectorNode(conn)] + rest);
    assert chain[3] == ConnectorNode(conn) && chain[4..] == rest;
    MakesItemOp(i, [ConnectorNode(conn)] + rest, desc);
    LongChain(chain, desc);
    assert ResolvesItem(i, desc) ==> WithConnector(OpOf(i, AND, desc), conn) == OpOf(i, conn, desc);
    hide MakeFilterOp, ItemNodes, ResolvesItem, MakeSide, PlanComparisons, WithConnector, OpOf;
  }

  lemma LongChain(chain: seq<Node>, desc: ResultSet)
    requires |chain| > 4
    ensures PlanComparisons(chain, desc) ==
            match (MakeFilterOp(chain, desc), ConnectorOf(chain[3].kind))
            case (Some(op), Some(conn)) => Prepend([WithConnector(op, conn)], PlanComparisons(chain[4..], desc))
            case _ => None
  {
    hide MakeFilterOp;
  }

  lemma LastGroup(inner: Condition, closed: bool, desc: ResultSet)
    ensures var child := PlanOps(Nodes(inner) + Closing(true), desc);
            PlanOps(ItemNodes(Group(inner)) + Closing(closed), desc) ==
              if child.Some? then Some([Parenthesis(child.value, AND)]) else None
  {
  }

  lemma NextGroup(inner: Condition, conn: Connector, rest: seq<Node>, desc: ResultSet)
    requires rest != []
    ensures var child := PlanOps(Nodes(inner) + Closing(true), desc);
            PlanOps(ItemNodes(Group(inner)) + ([ConnectorNode(conn)] + rest), desc) ==
              if child.Some? then Prepend([Parenthesis(child.value, conn)], PlanOps(rest, desc)) else None
  {
    var chain := ItemNodes(Group(inner)) + ([ConnectorNode(conn)] + rest);
    assert chain[0].kind == OPAREN && chain[0].child == Nodes(inner) + Closing(true);
    assert chain[1] == ConnectorNode(conn) && chain[2..] == rest;
    LongGroup(chain, desc);
    hide PlanOps, Nodes, ItemNodes;
  }

  lemma LongGroup(chain: seq<Node>, desc: ResultSet)
    requires |chain| > 2 && chain[0].kind == OPAREN && chain[1].kind != CPAREN
    ensures PlanOps(chain, desc) ==
            match (PlanOps(chain[0].child, desc), ConnectorOf(chain[1].kind))
            case (Some(child), Some(conn)) => Prepend([Parenthesis(child, conn)], PlanOps(chain[2..], desc))
            case _ => None
  {
    hide PlanComparisons;
  }

  lemma NodesSplit(i: Item, conn: Connector, rest: Condition, tail: seq<Node>)
    ensures Nodes(More(i, conn, rest)) + tail == ItemNodes(i) + ([ConnectorNode(conn)] + (Nodes(rest) + tail))
  {
  }

  lemma {:induction false} PlansComparisons(c: Condition, closed: bool, desc: ResultSet)
    requires AllPlain(c)
    ensures PlanComparisons(Nodes(c) + Closing(closed), desc) ==
            if Resolves(c, desc) then Some(OpsOf(c, desc)) else None
  {
    match c {
      case Last(i) =>
        LastComparison(i, closed, desc);
      case More(i, conn, rest) =>
        NodesSplit(i, conn, rest, Closing(closed));
        NextComparison(i, conn, Nodes(rest) + Closing(closed), desc);
        PlansComparisons(rest, closed, desc);
    }
  }

  /** The planner skips no comparison and duplicates none: for groups followed by comparisons
      the list it makes is the condition's, or an exit when a column is unknown. */
  lemma {:induction false} PlansCondition(c: Condition, closed: bool, desc: ResultSet)
    requires GroupsFirst(c)
    ensures PlanOps(Nodes(c) + Closing(closed), desc) ==
            if Resolves(c, desc) then Some(OpsOf(c, desc)) else None
  {
    if c.item.Plain? {
      PlansComparisons(c, closed, desc);
      assert Nodes(c)[0] == ItemNodes(c.item)[0] == OperandNode(c.item.l);
    } else {
      PlansCondition(c.item.inner, true, desc);
      match c {
        case Last(i) =>
          LastGroup(i.inner, closed, desc);
        case More(i, conn, rest) =>
          NodesSplit(i, conn, rest, Closing(closed));
          NextGroup(i.inner, conn, Nodes(rest) + Closing(closed), desc);
          PlansCondition(rest, closed, desc);
      }
    }
  }

  // ----- evaluation of the planned operators -----

  lemma {:induction false} OpsTyped(c: Condition, desc: ResultSet)
    requires Resolves(c, desc)
    ensures Typed(OpsOf(c, desc)) <==> WellTyped(c, desc)
  {
    match c.item {
      case Plain(_, _, _) =>
        PlainTypedIff(c.item, if c.More? then c.conn else AND, desc);
      case Group(inner) =>
        OpsTyped(inner, desc);
    }
    if c.More? {
      OpsTyped(c.rest, desc);
      assert OpsOf(c, desc)[1..] == OpsOf(c.rest, desc);
    }
    hide Comparable, SideOf, TypeOf, Known;
  }

  lemma PlainTypedIff(i: Item, conn: Connector, desc: ResultSet)
    requires i.Plain? && ResolvesItem(i, desc)
    ensures TypedOp(OpOf(i, conn, desc)) <==> WellTypedItem(i, desc)
  {
    hide FindColIdxInResDesc, Atol;
  }

  /** Every comparison of the list is one the evaluator answers as written. */
  predicate AllFaithful(ops: seq<FilterOp>, t1: View, t2: View)
    requires Typed(ops)
  {
    ops == [] || (FaithfulOp(ops[0], t1, t2) && AllFaithful(ops[1..], t1, t2))
  }

  predicate FaithfulOp(op: FilterOp, t1: View, t2: View)
    requires TypedOp(op)
  {
    match op
    case Comparison(_, _, _, _, _) => Faithful(op, t1, t2)
    case Parenthesis(child, _) => AllFaithful(child, t1, t2)
  }

  lemma DecidesAsWritten(op: Operator, v: Value, w: Value)
    ensures Decide(CodeOf(op), Order(v, w)) == Compare(op, v, w)
  {
    hide Order;
  }

  lemma SideReads(o: Operand, desc: ResultSet, t: View)
    requires Known(o, desc)
    ensures var s := SideOf(o, desc);
            && (o.Column? ==> s.idx >= 0 && Comparison.ColumnOf(s, t) == ValueOf(o, desc, t))
            && (!o.Column? ==> ConstantOf(s) == ValueOf(o, desc, t))
  {
    hide FindColIdxInResDesc, Atol;
  }

  lemma PlainMeans(i: Item, conn: Connector, desc: ResultSet, t1: View, t2: View)
    requires i.Plain? && ResolvesItem(i, desc) && WellTypedItem(i, desc)
    ensures TypedOp(OpOf(i, conn, desc))
    ensures Meaning(OpOf(i, conn, desc), t1, t2) == MeansItem(i, desc, t1, t2)
  {
    PlainTypedIff(i, conn, desc);
    SideReads(i.l, desc, t1);
    SideReads(i.r, desc, t2);
    PlainValues(i, conn, desc, t1, t2);
    DecidesAsWritten(i.op, ValueOf(i.l, desc, t1), ValueOf(i.r, desc, t2));
    hide SideOf, ValueOf, Decide, Compare, Order, LeftValue, RightValue, Comparable;
  }

  lemma PlainValues(i: Item, conn: Connector, desc: ResultSet, t1: View, t2: View)
    requires i.Plain? && ResolvesItem(i, desc) && TypedOp(OpOf(i, conn, desc))
    ensures var op := OpOf(i, conn, desc);
            LeftValue(op, t1) == ValueOf(i.l, desc, t1) && RightValue(op, t2) == ValueOf(i.r, desc, t2)
  {
    SideReads(i.l, desc, t1);
    SideReads(i.r, desc, t2);
    hide SideOf, ValueOf, Comparison.ColumnOf, ConstantOf, Comparable;
  }

  lemma {:induction false} EvaluatesFrom(c: Condition, acc: bool, conn: Connector, desc: ResultSet, t1: View, t2: View)
    requires Resolves(c, desc) && WellTyped(c, desc)
    requires Typed(OpsOf(c, desc)) && AllFaithful(OpsOf(c, desc), t1, t2)
    ensures Fold(OpsOf(c, desc), acc, conn, t1, t2) == MeansFrom(c, acc, conn, desc, t1, t2)
  {
    var ops := OpsOf(c, desc);
    var next := if c.More? then c.conn else AND;
    assert ops[0] == OpOf(c.item, next, desc) && TypedOp(ops[0]) && FaithfulOp(ops[0], t1, t2);
    match c.item {
      case Plain(_, _, _) =>
        EvaluatesMeaningIffFaithful(ops[0], t1, t2);
        PlainMeans(c.item, next, desc, t1, t2);
      case Group(inner) =>
        EvaluatesFrom(inner, true, AND, desc, t1, t2);
    }
    assert EvalOp(ops[0], t1, t2) == MeansItem(c.item, desc, t1, t2);
    var acc' := Combine(conn, EvalOp(ops[0], t1, t2), acc);
    assert Fold(ops, acc, conn, t1, t2) == Fold(ops[1..], acc', next, t1, t2);
    if c.More? {
      assert ops[1..] == OpsOf(c.rest, desc);
      EvaluatesFrom(c.rest, acc', c.conn, desc, t1, t2);
    }
  }

  /** Planner and evaluator agree with the written condition. */
  lemma PlannedConditionMeans(c: Condition, desc: ResultSet, t1: View, t2: View)
    requires GroupsFirst(c)
    ensures var planned := PlanOps(Nodes(c), desc);
            && (planned.Some? <==> Resolves(c, desc))
            && (planned.Some? ==>
                  && (Typed(planned.value) <==> WellTyped(c, desc))
                  && (Typed(planned.value) && AllFaithful(planned.value, t1, t2) ==>
                        Holds(planned.value, t1, t2) == Means(c, desc, t1, t2)))
  {
    PlansCondition(c, false, desc);
    assert Nodes(c) + [] == Nodes(c);
    if Resolves(c, desc) {
      OpsTyped(c, desc);
      var ops := OpsOf(c, desc);
      if Typed(ops) && AllFaithful(ops, t1, t2) {
        EvaluatesFrom(c, true, AND, desc, t1, t2);
      }
    }
  }
}
