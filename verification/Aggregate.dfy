/** Aggregation: the operator drains its child, folds one column and emits one number, once. */
module Aggregate {
  import opened Arithmetic
  import opened CText
  import opened Tuples
  import opened FilterPlanner
  import opened ParseTree
  import opened Bottom
  import opened SelectPlanner
  import opened Pipeline
  import Comparison

  datatype AggregationType = COUNT | AVG | SUM | MAX | MIN

  /** `None` is the exit on a function that is none of these. */
  function AggregationOf(f: string): Option<AggregationType> {
    if f == "COUNT" then Some(COUNT)
    else if f == "AVG" then Some(AVG)
    else if f == "SUM" then Some(SUM)
    else if f == "MAX" then Some(MAX)
    else if f == "MIN" then Some(MIN)
    else None
  }

  // ----- the folds -----

  function Max(result: int, num: int): int { if num > result then num else result }

  function Min(result: int, num: int): int { if num < result then num else result }

  /** Addition of two longs, as it wraps. */
  function Add(result: int, num: int): int { ToInt64(num + result) }

  function Step(aggtype: AggregationType, result: int, num: int): int {
    match aggtype
    case COUNT => result
    case MAX => Max(result, num)
    case MIN => Min(result, num)
    case _ => Add(result, num)
  }

  function Start(aggtype: AggregationType): int {
    if aggtype == MIN then LONG_MAX else 0
  }

  /** The loop, from `result` on. */
  function FoldColumn(aggtype: AggregationType, result: int, nums: seq<int>): int
    decreases nums
  {
    if nums == [] then result else FoldColumn(aggtype, Step(aggtype, result, nums[0]), nums[1..])
  }

  /** The `long` sum is converted to the unsigned type of the number of observations. */
  function Quotient(sum: int, n: nat): int
    requires n > 0
  {
    ToInt64((sum % TWO64) / n)
  }

  datatype Outcome = Empty | Exit | Value(num: int)

  /** What the operator emits for a column. The average of nothing divides by zero. */
  function Emitted(aggtype: AggregationType, nums: seq<int>): Outcome {
    match aggtype
    case COUNT => Value(|nums|)
    case AVG => if nums == [] then Exit else Value(Quotient(FoldColumn(AVG, 0, nums), |nums|))
    case _ => Value(FoldColumn(aggtype, Start(aggtype), nums))
  }

  function ColumnOf(rows: seq<View>, col: nat): (nums: seq<int>)
    ensures |nums| == |rows| && forall i :: 0 <= i < |nums| ==> IsLong(nums[i])
  {
    seq(|rows|, i requires 0 <= i < |rows| => rows[i].LongCol(col))
  }

  // ----- the aggregates of a list -----

  predicate AllLong(nums: seq<int>) {
    forall i :: 0 <= i < |nums| ==> IsLong(nums[i])
  }

  function Sum(nums: seq<int>): int {
    if nums == [] then 0 else nums[0] + Sum(nums[1..])
  }

  predicate IsGreatest(m: int, nums: seq<int>) {
    m in nums && forall i :: 0 <= i < |nums| ==> nums[i] <= m
  }

  predicate IsLeast(m: int, nums: seq<int>) {
    m in nums && forall i :: 0 <= i < |nums| ==> m <= nums[i]
  }

  /** C's quotient, truncated toward zero. */
  function Truncated(a: int, n: nat): int
    requires n > 0
  {
    if a >= 0 then a / n else -((-a) / n)
  }

  /** That is: the multiple of `n` next to `a` on the side of zero. */
  lemma TowardZero(a: int, n: nat)
    requires n > 0
    ensures a >= 0 ==> Truncated(a, n) * n <= a < (Truncated(a, n) + 1) * n
    ensures a <= 0 ==> (Truncated(a, n) - 1) * n < a <= Truncated(a, n) * n
  {
    if a >= 0 {
      WholeParts(a, n);
    } else {
      WholeParts(-a, n);
    }
  }

  lemma ShiftLong(n: int, k: int)
    ensures ToInt64(n + k * TWO64) == ToInt64(n)
  {
    ModShift(n, k, TWO64);
  }

  lemma WrapWraps(a: int, b: int)
    ensures ToInt64(a + ToInt64(b)) == ToInt64(a + b)
  {
    var k := (ToInt64(b) - b) / TWO64;
    assert ToInt64(b) == b + k * TWO64;
    ShiftLong(a + b, k);
    hide ToInt64;
  }

  lemma {:induction false} FoldIsWrappedSum(aggtype: AggregationType, result: int, nums: seq<int>)
    requires aggtype in {SUM, AVG} && IsLong(result)
    ensures FoldColumn(aggtype, result, nums) == ToInt64(result + Sum(nums))
    decreases nums
  {
    if nums != [] {
      FoldIsWrappedSum(aggtype, Add(result, nums[0]), nums[1..]);
      WrapWraps(Sum(nums[1..]), nums[0] + result);
    }
  }

  /** SUM is the sum, exactly when the sum is a `long`; partial sums may wrap. */
  lemma SumIff(nums: seq<int>)
    ensures Emitted(SUM, nums) == Value(Sum(nums)) <==> IsLong(Sum(nums))
  {
    FoldIsWrappedSum(SUM, 0, nums);
  }

  lemma {:induction false} FoldMax(result: int, nums: seq<int>)
    ensures IsGreatest(FoldColumn(MAX, result, nums), [result] + nums)
    decreases nums
  {
    if nums != [] {
      var r := FoldColumn(MAX, result, nums);
      FoldMax(Max(result, nums[0]), nums[1..]);
      var all := [Max(result, nums[0])] + nums[1..];
      assert all[0] <= r;
      forall i | 0 <= i < |nums|
        ensures nums[i] <= r
      {
        assert i > 0 ==> nums[i] == all[i];
      }
      assert r in [result] + nums by {
        var k :| 0 <= k < |all| && all[k] == r;
        assert if k > 0 then ([result] + nums)[k + 1] == r else ([result] + nums)[0] == r || ([result] + nums)[1] == r;
      }
    }
  }

  /** MAX starts at 0: it is the greatest value exactly when some value is not negative. */
  lemma MaxIff(nums: seq<int>)
    ensures Emitted(MAX, nums).Value?
    ensures IsGreatest(Emitted(MAX, nums).num, nums) <==> exists i :: 0 <= i < |nums| && nums[i] >= 0
  {
    FoldMax(0, nums);
    var r, all := Emitted(MAX, nums).num, [0] + nums;
    assert all[0] <= r;
    assert forall i :: 0 <= i < |nums| ==> nums[i] == all[i + 1];
    if r !in nums {
      assert r == 0;
    } else {
      var k :| 0 <= k < |nums| && nums[k] == r;
    }
  }

  lemma {:induction false} FoldMin(result: int, nums: seq<int>)
    ensures IsLeast(FoldColumn(MIN, result, nums), [result] + nums)
    decreases nums
  {
    if nums != [] {
      var r := FoldColumn(MIN, result, nums);
      FoldMin(Min(result, nums[0]), nums[1..]);
      var all := [Min(result, nums[0])] + nums[1..];
      assert r <= all[0];
      forall i | 0 <= i < |nums|
        ensures r <= nums[i]
      {
        assert i > 0 ==> nums[i] == all[i];
      }
      assert r in [result] + nums by {
        var k :| 0 <= k < |all| && all[k] == r;
        assert if k > 0 then ([result] + nums)[k + 1] == r else ([result] + nums)[0] == r || ([result] + nums)[1] == r;
      }
    }
  }

  /** MIN starts at the greatest `long`: it is the least value of every list that is not empty. */
  lemma MinIff(nums: seq<int>)
    requires AllLong(nums)
    ensures Emitted(MIN, nums).Value?
    ensures IsLeast(Emitted(MIN, nums).num, nums) <==> nums != []
  {
    FoldMin(LONG_MAX, nums);
    var r, all := Emitted(MIN, nums).num, [LONG_MAX] + nums;
    assert forall i :: 0 <= i < |nums| ==> nums[i] == all[i + 1];
    if nums != [] {
      assert all[1] == nums[0];
      assert r == LONG_MAX ==> nums[0] == r;
    }
  }

  lemma HalfAtMost(a: nat, n: nat)
    requires n >= 2
    ensures 0 <= a / n <= a / 2
  {
    WholeParts(a, n);
    MulMonotonic(2, n, a / n);
  }

  /** A dividend that is larger by a whole divisor has a larger quotient. */
  lemma LargerQuotient(a: nat, b: nat, n: nat)
    requires n > 0 && a >= b + n
    ensures a / n > b / n
  {
    WholeParts(a, n);
    WholeParts(b, n);
    if a / n <= b / n {
      MulMonotonic(a / n, b / n, n);
    }
  }

  lemma LongStays(n: int)
    ensures ToInt64(n) == n <==> IsLong(n)
  {
  }

  lemma QuotientIsLong(sum: int, n: nat)
    requires n >= 2
    ensures Quotient(sum, n) == (sum % TWO64) / n >= 0
  {
    HalfAtMost(sum % TWO64, n);
    LongStays((sum % TWO64) / n);
    hide ToInt64;
  }

  /** The division is unsigned: it is right for every sum from 0 up to 2^64. */
  lemma UnsignedQuotient(sum: nat, n: nat)
    requires sum < TWO64 && n >= 2
    ensures Quotient(sum, n) == Truncated(sum, n) == sum / n
  {
    QuotientIsLong(sum, n);
    hide Quotient;
    assert sum % TWO64 == sum;
  }

  /** A negative sum becomes a huge positive number before it is divided. */
  lemma NegativeQuotient(sum: int, n: nat)
    requires sum < 0 && 2 <= n < TWO63
    ensures Quotient(sum, n) != Truncated(sum, n)
  {
    var m := sum % TWO64;
    QuotientIsLong(sum, n);
    HalfAtMost(-sum, n);
    WholeParts(-sum, n);
    if -sum < n {
      assert m == sum + TWO64;
      LargerQuotient(m, 0, n);
    } else {
      LargerQuotient(-sum, 0, n);
    }
    hide Quotient;
  }

  /** A larger sum has lost at least 2^64 before it is divided. */
  lemma LostQuotient(sum: nat, n: nat)
    requires sum >= TWO64 && 2 <= n < TWO63
    ensures Quotient(sum, n) != Truncated(sum, n)
  {
    QuotientIsLong(sum, n);
    hide Quotient;
    assert sum % TWO64 + TWO64 <= sum;
    LargerQuotient(sum, sum % TWO64, n);
  }

  lemma SingleQuotient(num: int)
    requires IsLong(num)
    ensures Quotient(num, 1) == num == Truncated(num, 1)
  {
    assert (num % TWO64) / 1 == num % TWO64;
    assert (-num) / 1 == -num;
  }

  /** However the partial sums wrap, what is divided is the sum. */
  lemma AvgEmits(nums: seq<int>)
    requires nums != []
    ensures Emitted(AVG, nums) == Value(Quotient(Sum(nums), |nums|))
  {
    FoldIsWrappedSum(AVG, 0, nums);
    SameRemainder(Sum(nums));
    hide ToInt64, FoldColumn, Sum;
  }

  lemma SameRemainder(n: int)
    ensures ToInt64(n) % TWO64 == n % TWO64
  {
    var k := (ToInt64(n) - n) / TWO64;
    assert ToInt64(n) == n + k * TWO64;
    ModShift(n, k, TWO64);
  }

  /** AVG is the truncated quotient exactly when the sum is not negative and below 2^64, or there
      is just one number. */
  lemma AvgIff(nums: seq<int>)
    requires AllLong(nums) && 0 < |nums| < TWO63
    ensures Emitted(AVG, nums) == Value(Truncated(Sum(nums), |nums|)) <==> 0 <= Sum(nums) < TWO64 || |nums| == 1
  {
    AvgEmits(nums);
    var s, n := Sum(nums), |nums|;
    if n == 1 {
      assert nums[1..] == [];
      SingleQuotient(nums[0]);
    } else if s < 0 {
      NegativeQuotient(s, n);
    } else if s < TWO64 {
      UnsignedQuotient(s, n);
    } else {
      LostQuotient(s, n);
    }
    hide Quotient, Truncated;
  }

  /** For a sum from 0 up to 2^64 the quotient is the floor. */
  lemma AvgIsFloor(nums: seq<int>)
    requires AllLong(nums) && 0 < |nums| < TWO63 && 0 <= Sum(nums) < TWO64
    ensures Emitted(AVG, nums).Value?
    ensures var q, n := Emitted(AVG, nums).num, |nums|; q * n <= Sum(nums) < (q + 1) * n
  {
    AvgIff(nums);
    WholeParts(Sum(nums), |nums|);
    Distribute(Sum(nums) / |nums|, |nums|);
    hide Emitted, Sum;
  }

  // ----- the operator -----

  class Aggregate {
    const child: Plan
    const aggtype: AggregationType
    const colToAggregate: nat
    var aggregationDone: bool

    constructor (child: Plan, aggtype: AggregationType, colToAggregate: nat)
      ensures this.child == child && this.aggtype == aggtype && this.colToAggregate == colToAggregate
      ensures !aggregationDone
    {
      this.child, this.aggtype, this.colToAggregate := child, aggtype, colToAggregate;
      aggregationDone := false;
    }

    /** The child can be pulled from, and its column read as a number. */
    ghost predicate Counting()
      reads BottomOf(child).Top(), BottomOf(child).Repr()
    {
      Pullable(child) && this !in BottomOf(child).Repr()
      && (aggtype != COUNT ==> BottomOf(child).Aggregable(colToAggregate))
    }

    /** `aggregateGetTuple`: the aggregate of all that the child has left, and after that the
        empty tuple. */
    method GetTuple() returns (r: Outcome)
      requires !aggregationDone ==> Counting()
      modifies this, BottomOf(child).Repr()
      ensures if old(aggregationDone) then r == Empty && aggregationDone
              else r == EmittedFlow(aggtype, old(Remaining(child)), colToAggregate) && (r.Value? ==> aggregationDone)
      ensures (!r.Exit? ==> aggregationDone) && fresh(BottomOf(child).Repr() - old(BottomOf(child).Repr()))
    {
      hide Flow, Step, Quotient, FoldColumn;
      if aggregationDone {
        return Empty;
      }
      ghost var all := Remaining(child);
      var ok, result, observations := Drain();
      if !ok || (aggtype == AVG && observations == 0) {
        return Exit;
      }
      if aggtype == AVG {
        result := Quotient(result, observations);
      }
      if aggtype == COUNT {
        result := observations;
      }
      aggregationDone := true;
      r := Value(result);
    }

    /** Its loop over the child. */
    method Drain() returns (ok: bool, result: int, observations: nat)
      requires Counting()
      modifies BottomOf(child).Repr()
      ensures fresh(BottomOf(child).Repr() - old(BottomOf(child).Repr()))
      ensures var all := old(Remaining(child));
              && ok == all.Some?
              && (ok ==> observations == |all.value|)
              && (ok && aggtype != COUNT ==>
                    result == FoldColumn(aggtype, Start(aggtype), ColumnOf(all.value, colToAggregate)))
    {
      hide Flow, Step, Bottom.Valid, Bottom.Ended, Bottom.Readings, Bottom.Rest, Bottom.Handing, Bottom.Current,
           PlanReads, Bottom.Aggregable, Numbers, FoldColumn;
      ghost var all := Remaining(child);
      ghost var nums := Numbers(all, colToAggregate);
      result, observations := Start(aggtype), 0;
      var more := true;
      while more
        invariant BottomOf(child).Valid() && (more ==> Counting()) && (all.None? ==> more && Remaining(child).None?)
        invariant fresh(BottomOf(child).Repr() - old(BottomOf(child).Repr()))
        invariant all.Some? && more ==> Remaining(child).Some?
        invariant all.Some? ==> observations + (if more then |Remaining(child).value| else 0) == |all.value|
        invariant all.Some? && aggtype != COUNT ==>
                    FoldColumn(aggtype, Start(aggtype), nums) ==
                          FoldColumn(aggtype, result, if more then Numbers(Remaining(child), colToAggregate) else [])
        decreases more, Left(Remaining(child))
      {
        ghost var flow := Remaining(child);
        var tmpTpl := Pipeline.GetTuple(child);
        assert Pulls(flow, tmpTpl, BottomOf(child), Remaining(child));
        match tmpTpl {
          case Stop =>
            return false, result, observations;
          case End =>
            NoNumbers(colToAggregate);
            more := false;
          case AtHand =>
            observations := observations + 1;
            NextNumber(aggtype, result, flow.value, colToAggregate);
            if aggtype != COUNT {
              var colNumber := BottomOf(child).ReadNumber(colToAggregate);
              result := Step(aggtype, result, colNumber);
            }
        }
      }
      NothingFolded(aggtype, result);
      AllNumbers(all, colToAggregate);
      ok := true;
    }
  }

  lemma NoNumbers(col: nat)
    ensures Numbers(Some([]), col) == []
  {
  }

  lemma AllNumbers(flow: Option<seq<View>>, col: nat)
    requires flow.Some?
    ensures Numbers(flow, col) == ColumnOf(flow.value, col)
  {
  }

  lemma NothingFolded(aggtype: AggregationType, result: int)
    ensures FoldColumn(aggtype, result, []) == result
  {
  }

  lemma NextNumber(aggtype: AggregationType, result: int, rows: seq<View>, col: nat)
    requires rows != []
    ensures FoldColumn(aggtype, result, Numbers(Some(rows), col)) ==
            FoldColumn(aggtype, Step(aggtype, result, rows[0].LongCol(col)), Numbers(Some(rows[1..]), col))
  {
    assert ColumnOf(rows, col)[1..] == ColumnOf(rows[1..], col);
    hide Step;
  }

  /** The column of what a child has left. */
  function Numbers(flow: Option<seq<View>>, col: nat): seq<int> {
    match flow
    case None => []
    case Some(rows) => ColumnOf(rows, col)
  }

  /** What the operator emits over its child, which may stop the program. */
  function EmittedFlow(aggtype: AggregationType, flow: Option<seq<View>>, col: nat): Outcome {
    match flow
    case None => Exit
    case Some(rows) => Emitted(aggtype, ColumnOf(rows, col))
  }

  /** How the printed aggregate ends a query. */
  function Printed(e: Outcome): Ran {
    if e.Value? then Rows([[Comparison.Number(e.num)]]) else Stopped
  }

  // ----- an aggregating query -----

  /** `executeSelect` over an aggregate: one number comes out, and no more; or the program stops. */
  method ExecuteAggregate(op: Aggregate) returns (r: Ran)
    requires op.Counting() && !op.aggregationDone
    modifies op, BottomOf(op.child).Repr()
    ensures r == Printed(EmittedFlow(op.aggtype, old(Remaining(op.child)), op.colToAggregate))
  {
    hide Flow, Emitted, ColumnOf, Bottom.Valid, Bottom.Ended, Bottom.Readings, Bottom.Rest, Bottom.Handing,
         Bottom.Current;
    ghost var e := EmittedFlow(op.aggtype, Remaining(op.child), op.colToAggregate);
    if Remaining(op.child).Some? {
      EmitsSomething(op.aggtype, ColumnOf(Remaining(op.child).value, op.colToAggregate));
    }
    var out: seq<seq<Comparison.Value>> := [];
    var more := true;
    while more
      invariant !op.aggregationDone ==>
                  more && out == [] && op.Counting() && Remaining(op.child) == old(Remaining(op.child))
      invariant fresh(BottomOf(op.child).Repr() - old(BottomOf(op.child).Repr()))
      invariant op.aggregationDone ==> e.Value? && out == [[Comparison.Number(e.num)]]
      decreases more, !op.aggregationDone
    {
      var tpl := op.GetTuple();
      match tpl {
        case Empty =>
          more := false;
        case Exit =>
          return Stopped;
        case Value(num) =>
          out := out + [[Comparison.Number(num)]];
      }
    }
    return Rows(out);
  }

  lemma EmitsSomething(aggtype: AggregationType, nums: seq<int>)
    ensures !Emitted(aggtype, nums).Empty?
  {
  }

  /** The first column of that name, under whatever alias. */
  function FindByName(cols: seq<ColumnMetadata>, name: string): (r: Option<nat>)
    ensures r.Some? ==> r.value < |cols| && cols[r.value].name == name
    ensures forall i :: 0 <= i < (if r.Some? then r.value else |cols|) ==> cols[i].name != name
  {
    if cols == [] then None
    else if cols[0].name == name then Some(0)
    else
      match FindByName(cols[1..], name)
      case None => None
      case Some(i) => Some(i + 1)
  }

  lemma {:induction false} SameFindByName(a: seq<ColumnMetadata>, b: seq<ColumnMetadata>, name: string)
    requires SameNames(a, b)
    ensures FindByName(a, name) == FindByName(b, name)
    decreases |a|
  {
    if a != [] {
      SameFindByName(a[1..], b[1..], name);
    }
  }

  /** The plan under an aggregate: that of a star, without the projection. */
  lemma BelowIsStar(from: From, where: Option<Condition>, scan: Plan)
    requires scan.OpScan?
    ensures var p, child := PlanSelect(Select(Star, from, where), scan), PlanBelow(from, where, scan);
            && (p.Some? <==> child.Some?)
            && (child.Some? ==>
                  && SameNames(child.value.desc.columns, scan.desc.columns)
                  && BottomOf(child.value) == scan.bottom
                  && forall rows :: Flow(child.value, rows) == Flow(p.value, rows))
  {
    var q := Select(Star, from, where);
    StarOfBelow(from, where, scan);
    if PlanSelect(q, scan).Some? {
      PlanShape(q, scan);
      PlanScans(q, scan);
      FromSees(q, scan);
      OuterNames(FromPlan(q, scan).value.desc.columns, from, scan.desc);
    }
    hide PlanOps, PlanSelect, PlanBelow, Filtered, FromPlan, SameNames;
  }

  lemma OuterNames(cols: seq<ColumnMetadata>, from: From, base: ResultSet)
    requires SameReferences(cols, Seen(from, base).columns)
    ensures SameNames(cols, base.columns)
  {
  }

  /** What an aggregate over a query comes to. */
  function AggregateOf(aggtype: AggregationType, name: string, from: From, where: Option<Condition>,
                       base: ResultSet, rows: seq<View>): Ran
  {
    var q, col := Select(Star, from, where), FindByName(base.columns, name);
    if !NamesKnown(q, base) || col.None? then Refused
    else if Stops(q, base, rows) then Stopped
    else Printed(Emitted(aggtype, ColumnOf(Answer(rows, q, base), col.value)))
  }

  /** The columns that the query reads can be read, and the aggregated one as a number. */
  ghost predicate AggregateReads(aggtype: AggregationType, name: string, q: Select, base: ResultSet, bottom: Bottom) {
    && QueryReads(q, base, bottom.Readings())
    && (aggtype != COUNT && FindByName(base.columns, name).Some? ==>
          bottom.Aggregable(FindByName(base.columns, name).value))
  }

  /** Run an aggregate over a planned query. */
  method RunAggregatePlan(aggtype: AggregationType, name: string, child: Option<Plan>, bottom: Bottom,
                          base: ResultSet, ghost from: From, ghost where: Option<Condition>)
    returns (r: Ran)
    requires bottom.Valid() && !bottom.Ended() && GroupsLead(Select(Star, from, where))
    requires child == PlanBelow(from, where, OpScan(bottom, base))
    requires AggregateReads(aggtype, name, Select(Star, from, where), base, bottom)
    modifies bottom.Repr()
    ensures var q := Select(Star, from, where);
            && (r.Refused? <==> !NamesKnown(q, base) || FindByName(base.columns, name).None?)
            && (NamesKnown(q, base) && FaithfulOn(q, base, old(bottom.Rest())) ==>
                  r == AggregateOf(aggtype, name, from, where, base, old(bottom.Rest())))
  {
    ghost var scan, q, rows := OpScan(bottom, base), Select(Star, from, where), bottom.Rest();
    NamesRefused(aggtype, name, from, where, base, rows);
    hide *;
    PlannedIffNamesKnown(q, scan);
    BelowIsStar(from, where, scan);
    if child == None {
      return Refused;
    }
    SameFindByName(child.value.desc.columns, base.columns, name);
    var col := FindByName(child.value.desc.columns, name);
    if col == None {
      return Refused;
    }
    CanCount(child.value, aggtype, name, from, where, base, bottom);
    r := ExecuteNew(child.value, aggtype, col.value, bottom);
    PrintsSomething(EmittedFlow(aggtype, Flow(child.value, rows), col.value));
    if FaithfulOn(q, base, rows) {
      NestedSelectAnswers(q, scan, rows);
      FlowEmits(aggtype, Answer(rows, q, base), col.value);
      AggregateIs(aggtype, name, from, where, base, rows);
    }
  }

  method ExecuteNew(child: Plan, aggtype: AggregationType, col: nat, ghost bottom: Bottom) returns (r: Ran)
    requires Pullable(child) && BottomOf(child) == bottom && (aggtype != COUNT ==> BottomOf(child).Aggregable(col))
    modifies BottomOf(child).Repr()
    ensures r == Printed(EmittedFlow(aggtype, old(Remaining(child)), col))
  {
    hide PlanReads, Bottom.Rest, Bottom.Aggregable, Flow, Emitted, ColumnOf;
    var op := new Aggregate(child, aggtype, col);
    r := ExecuteAggregate(op);
  }

  lemma CanCount(child: Plan, aggtype: AggregationType, name: string, from: From, where: Option<Condition>,
                 base: ResultSet, bottom: Bottom)
    requires bottom.Valid() && !bottom.Ended() && GroupsLead(Select(Star, from, where))
    requires PlanBelow(from, where, OpScan(bottom, base)) == Some(child) && FindByName(base.columns, name).Some?
    requires AggregateReads(aggtype, name, Select(Star, from, where), base, bottom)
    ensures BottomOf(child) == bottom && Pullable(child) && Remaining(child) == Flow(child, bottom.Rest())
    ensures aggtype != COUNT ==> bottom.Aggregable(FindByName(base.columns, name).value)
  {
    var scan, q := OpScan(bottom, base), Select(Star, from, where);
    BelowIsStar(from, where, scan);
    BelowReads(from, where, scan, bottom.Readings());
    hide PlanBelow, PlanSelect, QueryReads, Flow, Bottom.Aggregable, Bottom.Valid, Bottom.Rest;
  }

  lemma BelowReads(from: From, where: Option<Condition>, scan: Plan, rds: seq<Evaluator.Reading>)
    requires scan.OpScan? && GroupsLead(Select(Star, from, where)) && PlanBelow(from, where, scan).Some?
    requires QueryReads(Select(Star, from, where), scan.desc, rds)
    ensures PlanReads(PlanBelow(from, where, scan).value, rds)
  {
    var q := Select(Star, from, where);
    BelowIsStar(from, where, scan);
    PlanReadsQuery(q, scan, rds);
    StarOfBelow(from, where, scan);
    hide PlanBelow, PlanOps, GroupsLead, QueryReads;
  }

  /** An aggregate over a query, nested or not: what is printed is the aggregate of the column over
      the rows of the base that satisfy all conditions. */
  method RunAggregate(aggtype: AggregationType, name: string, from: From, where: Option<Condition>,
                      bottom: Bottom, base: ResultSet)
    returns (r: Ran)
    requires bottom.Valid() && !bottom.Ended() && GroupsLead(Select(Star, from, where))
    requires AggregateReads(aggtype, name, Select(Star, from, where), base, bottom)
    modifies bottom.Repr()
    ensures var q := Select(Star, from, where);
            && (r.Refused? <==> !NamesKnown(q, base) || FindByName(base.columns, name).None?)
            && (NamesKnown(q, base) && FaithfulOn(q, base, old(bottom.Rest())) ==>
                  r == AggregateOf(aggtype, name, from, where, base, old(bottom.Rest())))
  {
    hide PlanBelow, AggregateReads, NamesKnown, AggregateOf, FaithfulOn, GroupsLead, Bottom.Valid, Bottom.Rest,
         Bottom.Ended, Bottom.Readings, Bottom.Aggregable, FindByName;
    var child := MakePlanBelow(from, where, OpScan(bottom, base));
    r := RunAggregatePlan(aggtype, name, child, bottom, base, from, where);
  }

  lemma NamesRefused(aggtype: AggregationType, name: string, from: From, where: Option<Condition>,
                     base: ResultSet, rows: seq<View>)
    ensures !NamesKnown(Select(Star, from, where), base) || FindByName(base.columns, name).None? ==>
              AggregateOf(aggtype, name, from, where, base, rows) == Refused
  {
  }

  lemma AggregateIs(aggtype: AggregationType, name: string, from: From, where: Option<Condition>,
                    base: ResultSet, rows: seq<View>)
    requires NamesKnown(Select(Star, from, where), base) && FindByName(base.columns, name).Some?
    ensures var q, col := Select(Star, from, where), FindByName(base.columns, name).value;
            AggregateOf(aggtype, name, from, where, base, rows) ==
              if Stops(q, base, rows) then Stopped
              else Printed(Emitted(aggtype, ColumnOf(Answer(rows, q, base), col)))
  {
    hide Stops, Printed, Emitted, Answer, FindByName;
  }

  lemma PrintsSomething(e: Outcome)
    ensures !Printed(e).Refused?
  {
  }

  lemma FlowEmits(aggtype: AggregationType, rows: seq<View>, col: nat)
    ensures EmittedFlow(aggtype, Some(rows), col) == Emitted(aggtype, ColumnOf(rows, col))
    ensures Printed(EmittedFlow(aggtype, None, col)) == Stopped
  {
  }
}
