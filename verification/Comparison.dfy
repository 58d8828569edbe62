/** What a comparison means in SQL, and exactly when the evaluator delivers that. */
module Comparison {
  import opened Arithmetic
  import opened CText
  import opened Tuples
  import opened Filter

  datatype Value = Text(s: string) | Number(n: int)

  /** Negative, zero or positive: how two values of the same type are ordered. */
  function Order(v: Value, w: Value): int {
    match (v, w)
    case (Text(a), Text(b)) => Strcmp(a, b)
    case (Number(m), Number(n)) => m - n
    case _ => 0
  }

  function ConstantOf(s: Side): Value {
    if s.dtype == DTYPE_STR then Text(s.text) else Number(s.num)
  }

  function ColumnOf(s: Side, t: View): Value
    requires s.idx >= 0
  {
    if s.dtype == DTYPE_STR then Text(t.StrCol(s.idx)) else Number(t.LongCol(s.idx))
  }

  function LeftValue(op: FilterOp, t: View): Value
    requires op.Comparison? && Comparable(op)
  {
    if LeftIsColumn(op) then ColumnOf(op.left, t) else ConstantOf(op.left)
  }

  function RightValue(op: FilterOp, t: View): Value
    requires op.Comparison? && Comparable(op)
  {
    if RightIsColumn(op) then ColumnOf(op.right, t) else ConstantOf(op.right)
  }

  /** The written comparison, on the values it is about. */
  predicate Meaning(op: FilterOp, t1: View, t2: View)
    requires op.Comparison? && Comparable(op)
  {
    Decide(op.boolOp, Order(LeftValue(op, t1), RightValue(op, t2)))
  }

  /** A difference of longs survives the cut to 32 bits, as far as the operator looks at it. */
  predicate DifferenceSurvives(boolOp: int, d: int) {
    match boolOp
    case -1 => d == 0 || d % TWO32 != 0
    case -2 => d == 0 || d % TWO32 != 0
    case -3 => d < 0 <==> d % TWO32 >= TWO31
    case -5 => d < 0 <==> d % TWO32 >= TWO31
    case _ => d > 0 <==> 0 < d % TWO32 < TWO31
  }

  /** Strings: a column against a constant is compared with the operands swapped, which only
      `=` and `!=` survive. Numbers: the difference is cut to 32 bits. */
  predicate Faithful(op: FilterOp, t1: View, t2: View)
    requires op.Comparison? && Comparable(op)
  {
    if op.left.dtype == DTYPE_STR then
      op.compType != CMP_COL_CONST || op.boolOp in {-1, -2} || t1.StrCol(op.left.idx) == op.right.text
    else
      DifferenceSurvives(op.boolOp, Order(LeftValue(op, t1), RightValue(op, t2)))
  }

  lemma CutDifference(d: int)
    ensures var r := ToInt32(ToInt64(d));
            (r == 0 <==> d % TWO32 == 0) && (r < 0 <==> d % TWO32 >= TWO31)
  {
    var w := ToInt64(d);
    var k := (w - d) / TWO64;
    assert w - d == k * TWO64;
    assert w == d + (k * TWO32) * TWO32;
    ModShift(d, k * TWO32, TWO32);
  }

  /** The evaluator answers the written comparison exactly when the comparison is faithful. */
  lemma EvaluatesMeaningIffFaithful(op: FilterOp, t1: View, t2: View)
    requires op.Comparison? && Comparable(op)
    ensures EvalComparison(op, t1, t2) == Meaning(op, t1, t2) <==> Faithful(op, t1, t2)
  {
    if op.left.dtype == DTYPE_STR {
      TextsIff(op, t1, t2);
    } else {
      LongsIff(op, t1, t2);
    }
    hide EvalComparison, Meaning, Faithful;
  }

  lemma TextsIff(op: FilterOp, t1: View, t2: View)
    requires op.Comparison? && Comparable(op) && op.left.dtype == DTYPE_STR
    ensures EvalComparison(op, t1, t2) == Meaning(op, t1, t2) <==> Faithful(op, t1, t2)
  {
    if op.compType == CMP_COL_CONST {
      StrcmpFlips(op.right.text, t1.StrCol(op.left.idx));
      StrcmpFlips(t1.StrCol(op.left.idx), op.right.text);
    }
    hide Strcmp, LongDifference;
  }

  /** The six relations between two texts, by their code. */
  ghost predicate TextsRelate(boolOp: int, a: string, b: string) {
    match boolOp
    case -1 => a == b
    case -2 => a != b
    case -3 => Precedes(a, b)
    case -4 => Precedes(b, a)
    case -5 => !Precedes(a, b)
    case _ => !Precedes(b, a)
  }

  /** What is answered on texts: how they are ordered byte by byte; a column against a constant is asked
      the other way around. */
  lemma TextsAnswered(op: FilterOp, t1: View, t2: View)
    requires op.Comparison? && Comparable(op) && op.left.dtype == DTYPE_STR
    ensures EvalComparison(op, t1, t2) <==>
              match op.compType
              case CMP_COL_COL => TextsRelate(op.boolOp, t1.StrCol(op.left.idx), t2.StrCol(op.right.idx))
              case CMP_CONST_COL => TextsRelate(op.boolOp, op.left.text, t2.StrCol(op.right.idx))
              case CMP_CONST_CONST => TextsRelate(op.boolOp, op.left.text, op.right.text)
              case CMP_COL_CONST => TextsRelate(op.boolOp, op.right.text, t1.StrCol(op.left.idx))
  {
    match op.compType {
      case CMP_COL_COL => StrcmpOrders(t1.StrCol(op.left.idx), t2.StrCol(op.right.idx));
      case CMP_CONST_COL => StrcmpOrders(op.left.text, t2.StrCol(op.right.idx));
      case CMP_CONST_CONST => StrcmpOrders(op.left.text, op.right.text);
      case CMP_COL_CONST => StrcmpOrders(op.right.text, t1.StrCol(op.left.idx));
    }
    hide Strcmp, LongDifference, Precedes, View.StrCol, View.LongCol;
  }

  lemma LongsIff(op: FilterOp, t1: View, t2: View)
    requires op.Comparison? && Comparable(op) && op.left.dtype == DTYPE_LONG
    ensures EvalComparison(op, t1, t2) == Meaning(op, t1, t2) <==> Faithful(op, t1, t2)
  {
    LongsCompared(op, t1, t2);
    CutDecides(op.boolOp, Order(LeftValue(op, t1), RightValue(op, t2)));
    hide EvalComparison, Order, LeftValue, RightValue, Decide, DifferenceSurvives;
  }

  lemma LongsCompared(op: FilterOp, t1: View, t2: View)
    requires op.Comparison? && Comparable(op) && op.left.dtype == DTYPE_LONG
    ensures var d := Order(LeftValue(op, t1), RightValue(op, t2));
            EvalComparison(op, t1, t2) == Decide(op.boolOp, ToInt32(ToInt64(d)))
  {
    hide Strcmp, ToInt32, ToInt64, Decide;
  }

  lemma CutDecides(boolOp: int, d: int)
    requires -6 <= boolOp <= -1
    ensures Decide(boolOp, ToInt32(ToInt64(d))) == Decide(boolOp, d) <==> DifferenceSurvives(boolOp, d)
  {
    CutDifference(d);
    hide ToInt32, ToInt64;
  }

  lemma NearSurvives(boolOp: int, d: int)
    requires -TWO31 <= d < TWO31
    ensures DifferenceSurvives(boolOp, d)
  {
  }

  /** In particular on longs that lie less than 2^31 apart. */
  lemma NearLongsFaithful(op: FilterOp, t1: View, t2: View)
    requires op.Comparison? && Comparable(op) && op.left.dtype == DTYPE_LONG
    requires -TWO31 <= Order(LeftValue(op, t1), RightValue(op, t2)) < TWO31
    ensures EvalComparison(op, t1, t2) == Meaning(op, t1, t2)
  {
    EvaluatesMeaningIffFaithful(op, t1, t2);
    NearSurvives(op.boolOp, Order(LeftValue(op, t1), RightValue(op, t2)));
    hide EvalComparison, Meaning, DifferenceSurvives, Order, LeftValue, RightValue, Comparable;
  }
}
