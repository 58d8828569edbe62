/** Filter operators: one comparison per operator, linked by AND / OR, with parenthesised
    groups as sub-lists; and their evaluation over one tuple (WHERE) or two (ON). */
module Filter {
  import opened CText
  import opened Tuples

  datatype Datatype = DTYPE_STR | DTYPE_INT | DTYPE_UNDEFINED | DTYPE_LONG
  datatype ComparisonType = CMP_COL_COL | CMP_CONST_CONST | CMP_CONST_COL | CMP_COL_CONST
  datatype Connector = AND | OR

  /** One side of a comparison as the planner prepared it. */
  datatype Side = Side(idx: int, dtype: Datatype, text: string, num: int)

  /** The linked list of OP_FILTER operators; connector `i` sits on operator `i`. */
  datatype FilterOp =
    | Comparison(left: Side, boolOp: int, right: Side, compType: ComparisonType, operatorNext: Connector)
    | Parenthesis(child: seq<FilterOp>, operatorNext: Connector)

  // ----- one comparison -----

  predicate LeftIsColumn(op: FilterOp)
    requires op.Comparison?
  {
    op.compType in {CMP_COL_COL, CMP_COL_CONST}
  }

  predicate RightIsColumn(op: FilterOp)
    requires op.Comparison?
  {
    op.compType in {CMP_COL_COL, CMP_CONST_COL}
  }

  /** The two types agree and are types the evaluator compares; otherwise it stops the program. */
  predicate Comparable(op: FilterOp)
    requires op.Comparison?
  {
    op.left.dtype == op.right.dtype && op.left.dtype in {DTYPE_STR, DTYPE_LONG}
    && -6 <= op.boolOp <= -1
    && (LeftIsColumn(op) ==> op.left.idx >= 0) && (RightIsColumn(op) ==> op.right.idx >= 0)
  }

  /** The difference of two longs, as it lands in an `int`. */
  function LongDifference(a: int, b: int): int {
    ToInt32(ToInt64(a - b))
  }

  /** `cmpRes`: what the evaluator compares with zero. */
  function CompareSides(op: FilterOp, t1: View, t2: View): int
    requires op.Comparison? && Comparable(op)
  {
    var l, r := op.left, op.right;
    if l.dtype == DTYPE_STR then
      match op.compType
      case CMP_COL_COL => Strcmp(t1.StrCol(l.idx), t2.StrCol(r.idx))
      case CMP_CONST_CONST => Strcmp(l.text, r.text)
      case CMP_COL_CONST => Strcmp(r.text, t1.StrCol(l.idx))
      case CMP_CONST_COL => Strcmp(l.text, t2.StrCol(r.idx))
    else
      match op.compType
      case CMP_COL_COL => LongDifference(t1.LongCol(l.idx), t2.LongCol(r.idx))
      case CMP_CONST_CONST => LongDifference(l.num, r.num)
      case CMP_COL_CONST => LongDifference(t1.LongCol(l.idx), r.num)
      case CMP_CONST_COL => LongDifference(l.num, t2.LongCol(r.idx))
  }

  /** The six comparison operators, by their code. */
  predicate Decide(boolOp: int, cmpRes: int) {
    match boolOp
    case -1 => cmpRes == 0
    case -2 => cmpRes != 0
    case -3 => cmpRes < 0
    case -4 => cmpRes > 0
    case -5 => cmpRes >= 0
    case _ => cmpRes <= 0
  }

  predicate EvalComparison(op: FilterOp, t1: View, t2: View)
    requires op.Comparison? && Comparable(op)
  {
    Decide(op.boolOp, CompareSides(op, t1, t2))
  }

  // ----- lists of operators -----

  /** No operator of the list stops the program. */
  predicate Typed(ops: seq<FilterOp>) {
    ops == [] || (TypedOp(ops[0]) && Typed(ops[1..]))
  }

  predicate TypedOp(op: FilterOp) {
    match op
    case Comparison(_, _, _, _, _) => Comparable(op)
    case Parenthesis(child, _) => Typed(child)
  }

  function Combine(conn: Connector, result: bool, acc: bool): bool {
    if conn == AND then result && acc else result || acc
  }

  predicate EvalOp(op: FilterOp, t1: View, t2: View)
    requires TypedOp(op)
    decreases op, 0
  {
    match op
    case Comparison(_, _, _, _, _) => EvalComparison(op, t1, t2)
    case Parenthesis(child, _) => Holds(child, t1, t2)
  }

  /** The list read from left to right: `conn` joins its first operator to what came before. */
  predicate Fold(ops: seq<FilterOp>, acc: bool, conn: Connector, t1: View, t2: View)
    requires Typed(ops)
    decreases ops, 0
  {
    if ops == [] then acc
    else Fold(ops[1..], Combine(conn, EvalOp(ops[0], t1, t2), acc), ops[0].operatorNext, t1, t2)
  }

  predicate Holds(ops: seq<FilterOp>, t1: View, t2: View)
    requires Typed(ops)
    decreases ops, 1
  {
    Fold(ops, true, AND, t1, t2)
  }
}
