/** Running a planned SELECT: every operator pulls from its child. */
module Pipeline {
  import opened CText
  import opened Tuples
  import opened Evaluator
  import opened Filter
  import opened Comparison
  import opened ParseTree
  import opened FilterPlanner
  import opened WhereMeaning
  import opened Bottom
  import opened Readings
  import opened SelectPlanner

  // ----- the stream of a plan -----

  function BottomOf(op: Plan): Bottom {
    match op
    case OpScan(bottom, _) => bottom
    case OpFilter(_, _, child) => BottomOf(child)
    case OpProject(_, child) => BottomOf(child)
  }

  /** The filters of the plan read every column as one that can be read so. */
  predicate PlanReads(op: Plan, rds: seq<Reading>) {
    match op
    case OpScan(_, _) => true
    case OpFilter(ops, _, child) => ReadsAs(ops, rds, rds) && PlanReads(child, rds)
    case OpProject(_, child) => PlanReads(child, rds)
  }

  /** The plan can be pulled from. */
  ghost predicate Pullable(op: Plan)
    reads BottomOf(op).Top(), BottomOf(op).Repr()
  {
    BottomOf(op).Valid() && !BottomOf(op).Ended() && PlanReads(op, BottomOf(op).Readings())
  }

  /** The tuples that pass the filter operators, in order. */
  function Keep(ops: seq<FilterOp>, rows: seq<View>): seq<View>
    requires Typed(ops)
  {
    if rows == [] then []
    else (if Holds(ops, rows[0], rows[0]) then [rows[0]] else []) + Keep(ops, rows[1..])
  }

  /** What passes the filter operators; `None` is the exit on the first tuple when they compare
      different types. */
  function KeepFlow(ops: seq<FilterOp>, flow: Option<seq<View>>): Option<seq<View>> {
    match flow
    case None => None
    case Some(rows) => if Typed(ops) then Some(Keep(ops, rows)) else if rows == [] then Some([]) else None
  }

  /** What comes out of a plan when `rows` go in; `None` when the program stops on the way. */
  function Flow(op: Plan, rows: seq<View>): Option<seq<View>> {
    match op
    case OpScan(_, _) => Some(rows)
    case OpFilter(ops, _, child) => KeepFlow(ops, Flow(child, rows))
    case OpProject(_, child) => Flow(child, rows)
  }

  /** What is still to come. */
  ghost function Remaining(op: Plan): Option<seq<View>>
    requires BottomOf(op).Valid()
    reads BottomOf(op).Top(), BottomOf(op).Repr()
  {
    Flow(op, BottomOf(op).Rest())
  }

  /** A tuple, the empty tuple at the end, or the exit of the program. */
  datatype Pulled = AtHand | End | Stop

  /** What a pull from a stream gives, and what it leaves: the tuple is then at hand. */
  ghost predicate Pulls(before: Option<seq<View>>, r: Pulled, bottom: Bottom, after: Option<seq<View>>)
    reads bottom.Top(), bottom.Repr()
  {
    match before
    case None => r == Stop
    case Some(todo) =>
      if todo == [] then r == End
      else r == AtHand && bottom.Handing() && bottom.Current() == todo[0] && after == Some(todo[1..])
  }

  ghost function Left(flow: Option<seq<View>>): nat {
    if flow.Some? then |flow.value| else 0
  }

  /** `getTuple` of a scan, a filter or a projection. */
  method GetTuple(op: Plan) returns (r: Pulled)
    requires Pullable(op)
    modifies BottomOf(op).Repr()
    ensures BottomOf(op).Valid() && fresh(BottomOf(op).Repr() - old(BottomOf(op).Repr()))
    ensures (r.AtHand? ==> Pullable(op))
    ensures Pulls(old(Remaining(op)), r, BottomOf(op), Remaining(op))
    decreases op, 0
  {
    match op {
      case OpScan(bottom, _) =>
        var more := bottom.GetTuple();
        r := if more then AtHand else End;
      case OpProject(_, child) =>
        r := GetTuple(child);
      case OpFilter(ops, _, child) =>
        r := NextPassing(ops, child);
    }
  }

  /** The loop of the filter: pull until a tuple passes or the child has none left. */
  method NextPassing(ops: seq<FilterOp>, child: Plan) returns (r: Pulled)
    requires Pullable(child) && ReadsAs(ops, BottomOf(child).Readings(), BottomOf(child).Readings())
    modifies BottomOf(child).Repr()
    ensures BottomOf(child).Valid() && fresh(BottomOf(child).Repr() - old(BottomOf(child).Repr()))
    ensures (r.AtHand? ==> Pullable(child))
    ensures Pulls(KeepFlow(ops, old(Remaining(child))), r, BottomOf(child), KeepFlow(ops, Remaining(child)))
    decreases child, 1
  {
    hide Holds, Flow, Typed, PlanReads, ReadsAs, Bottom.Valid, Bottom.Ended, Bottom.Readings, Bottom.Rest,
         Bottom.Handing, Bottom.Current;
    ghost var bottom := BottomOf(child);
    while true
      invariant Pullable(child) && fresh(bottom.Repr() - old(bottom.Repr()))
      invariant KeepFlow(ops, Remaining(child)) == KeepFlow(ops, old(Remaining(child)))
      decreases Left(Remaining(child))
    {
      ghost var flow := Remaining(child);
      r := GetTuple(child);
      assert Pulls(flow, r, bottom, Remaining(child));
      if !r.AtHand? {
        return;
      }
      var passes := BottomOf(child).Evaluate(ops);
      if passes == None {
        return Stop;
      }
      if passes.value {
        return;
      }
      KeepsRest(ops, flow.value);
    }
  }

  lemma KeepsRest(ops: seq<FilterOp>, rows: seq<View>)
    requires rows != [] && Typed(ops) && !Holds(ops, rows[0], rows[0])
    ensures Keep(ops, rows) == Keep(ops, rows[1..])
  {
    hide Holds, Typed;
  }

  // ----- the executor -----

  /** What is printed of a column. */
  function ShownValue(c: ColumnMetadata, i: nat, t: View): Value {
    if c.dtype == DTYPE_LONG then Number(t.LongCol(i)) else Text(t.StrCol(i))
  }

  function ShownRow(cols: seq<ColumnMetadata>, shown: seq<nat>, t: View): (r: seq<Value>)
    requires forall k :: 0 <= k < |shown| ==> shown[k] < |cols|
    ensures |r| == |shown|
  {
    seq(|shown|, k requires 0 <= k < |shown| => ShownValue(cols[shown[k]], shown[k], t))
  }

  function ShownRows(cols: seq<ColumnMetadata>, shown: seq<nat>, rows: seq<View>): (r: seq<seq<Value>>)
    requires forall k :: 0 <= k < |shown| ==> shown[k] < |cols|
    ensures |r| == |rows|
  {
    seq(|rows|, i requires 0 <= i < |rows| => ShownRow(cols, shown, rows[i]))
  }

  /** What a query comes to: it is refused before it runs, the program stops, or rows are printed. */
  datatype Ran = Refused | Stopped | Rows(rows: seq<seq<Value>>)

  /** The columns of the plan's result can be printed. */
  ghost predicate Shows(desc: ResultSet, rds: seq<Reading>) {
    |desc.columns| <= |rds| && forall i :: 0 <= i < |desc.columns| ==> Printing(desc.columns[i].dtype).Allowed(rds[i])
  }

  /** `printTuple`: the active columns in the order of the projection. */
  method ShowTuple(desc: ResultSet, bottom: Bottom) returns (shown: seq<Value>)
    requires bottom.Handing() && Shows(desc, bottom.Readings())
    modifies bottom.Repr()
    ensures bottom.Handing() && bottom.Repr() == old(bottom.Repr()) && bottom.Rest() == old(bottom.Rest())
    ensures shown == ShownRow(desc.columns, Shown(desc), old(bottom.Current()))
  {
    hide ShownValue, ShownRow, Bottom.Valid, Bottom.Ended, Bottom.Readings, Bottom.Rest, Bottom.Handing, Bottom.Current;
    ghost var t := bottom.Current();
    var cols, order := desc.columns, desc.columnOrder;
    shown := [];
    var i := 0;
    assert order[0..] == order;
    while i < |order|
      invariant i <= |order| && bottom.Handing() && bottom.Repr() == old(bottom.Repr())
      invariant bottom.Rest() == old(bottom.Rest()) && bottom.Current() == t
      invariant ShownRow(cols, Shown(desc), t) == shown + ShownRow(cols, ShownFrom(cols, order[i..]), t)
    {
      ghost var next := ShownFrom(cols, order[i + 1..]);
      assert order[i..][0] == order[i] && order[i..][1..] == order[i + 1..];
      var colIdx := order[i];
      i := i + 1;
      if colIdx >= |cols| || !cols[colIdx].active {
        assert [] + next == next;
        continue;
      }
      ShowsFirst(cols, colIdx, next, t);
      var v := bottom.Show(colIdx, cols[colIdx].dtype);
      ValueShown(cols[colIdx], colIdx, t);
      assert shown + ([v] + ShownRow(cols, next, t)) == shown + [v] + ShownRow(cols, next, t);
      shown := shown + [v];
    }
  }

  lemma ValueShown(c: ColumnMetadata, i: nat, t: View)
    ensures ShownValue(c, i, t) == if c.dtype == DTYPE_LONG then Number(t.LongCol(i)) else Text(t.StrCol(i))
  {
  }

  lemma ShowsFirst(cols: seq<ColumnMetadata>, i: nat, rest: seq<nat>, t: View)
    requires i < |cols| && forall k :: 0 <= k < |rest| ==> rest[k] < |cols|
    ensures ShownRow(cols, [i] + rest, t) == [ShownValue(cols[i], i, t)] + ShownRow(cols, rest, t)
  {
  }

  /** `executeSelect`: pull and print until the end; without columns there is nothing to do. */
  method Execute(op: Plan) returns (r: Ran)
    requires Pullable(op) && Shows(op.desc, BottomOf(op).Readings())
    modifies BottomOf(op).Repr()
    ensures r == if op.desc.columnOrder == [] then Refused
                 else
                   match old(Remaining(op))
                   case None => Stopped
                   case Some(rows) => Rows(ShownRows(op.desc.columns, Shown(op.desc), rows))
  {
    NoneShown(op.desc);
    hide Flow, ShownFrom, ShownRow, ShownRows, Shows, PlanReads, Holds, Bottom.Valid, Bottom.Ended, Bottom.Readings,
         Bottom.Rest, Bottom.Handing, Bottom.Current;
    if op.desc.columnOrder == [] {
      return Refused;
    }
    ghost var cols, shown := op.desc.columns, Shown(op.desc);
    ghost var rows := [];
    var out := [];
    var more := true;
    assert Remaining(op).Some? ==> [] + Remaining(op).value == Remaining(op).value;
    while more
      invariant BottomOf(op).Valid() && (more ==> Pullable(op)) && out == ShownRows(cols, shown, rows)
      invariant fresh(BottomOf(op).Repr() - old(BottomOf(op).Repr()))
      invariant if more then old(Remaining(op)) == Before(rows, Remaining(op)) else old(Remaining(op)) == Some(rows)
      decreases more, if more then Left(Remaining(op)) else 0
    {
      ghost var flow := Remaining(op);
      var pulled, line := PrintNext(op);
      match pulled {
        case Stop =>
          return Stopped;
        case End =>
          assert rows + [] == rows;
          more := false;
        case AtHand =>
          RowShown(cols, shown, rows, flow.value[0]);
          assert rows + flow.value == rows + [flow.value[0]] + flow.value[1..];
          rows := rows + [flow.value[0]];
          out := out + [line];
      }
    }
    return Rows(out);
  }

  /** Its loop body: pull a tuple, and print it if there is one. */
  method PrintNext(op: Plan) returns (r: Pulled, line: seq<Value>)
    requires Pullable(op) && Shows(op.desc, BottomOf(op).Readings())
    modifies BottomOf(op).Repr()
    ensures BottomOf(op).Valid() && fresh(BottomOf(op).Repr() - old(BottomOf(op).Repr()))
    ensures (r.AtHand? ==> Pullable(op))
    ensures match old(Remaining(op))
            case None => r == Stop
            case Some(todo) =>
              if todo == [] then r == End
              else r == AtHand && line == ShownRow(op.desc.columns, Shown(op.desc), todo[0])
                   && Remaining(op) == Some(todo[1..])
  {
    hide Flow, ShownFrom, ShownRow, Shows, PlanReads, Bottom.Valid, Bottom.Ended, Bottom.Readings, Bottom.Rest,
         Bottom.Handing, Bottom.Current;
    ghost var flow := Remaining(op);
    line := [];
    r := GetTuple(op);
    assert Pulls(flow, r, BottomOf(op), Remaining(op));
    if r == AtHand {
      line := ShowTuple(op.desc, BottomOf(op));
    }
  }

  lemma NoneShown(desc: ResultSet)
    ensures ShownRows(desc.columns, Shown(desc), []) == []
  {
  }

  lemma RowShown(cols: seq<ColumnMetadata>, shown: seq<nat>, rows: seq<View>, t: View)
    requires forall k :: 0 <= k < |shown| ==> shown[k] < |cols|
    ensures ShownRows(cols, shown, rows + [t]) == ShownRows(cols, shown, rows) + [ShownRow(cols, shown, t)]
  {
  }

  ghost function Before(rows: seq<View>, flow: Option<seq<View>>): Option<seq<View>> {
    match flow
    case None => None
    case Some(rest) => Some(rows + rest)
  }

  // ----- what a nested query means -----

  /** Every WHERE is written with groups first. */
  predicate GroupsLead(q: Select) {
    && (q.where.Some? ==> GroupsFirst(q.where.value))
    && (q.from.Sub? ==> GroupsLead(q.from.query))
  }

  /** Every WHERE names columns that its level sees. */
  predicate ConditionsKnown(q: Select, base: ResultSet) {
    && (q.where.Some? ==> Resolves(q.where.value, Seen(q.from, base)))
    && (q.from.Sub? ==> ConditionsKnown(q.from.query, base))
  }

  predicate NamesKnown(q: Select, base: ResultSet) {
    ConditionsKnown(q, base) && ListsKnown(q, base)
  }

  /** The row satisfies the conditions of all levels. */
  predicate Satisfies(q: Select, base: ResultSet, t: View)
    requires ConditionsKnown(q, base)
  {
    && (q.where.Some? ==> Means(q.where.value, Seen(q.from, base), t, t))
    && (q.from.Sub? ==> Satisfies(q.from.query, base, t))
  }

  /** The rows of the base that satisfy the query, in the order of the base. */
  function Answer(rows: seq<View>, q: Select, base: ResultSet): seq<View>
    requires ConditionsKnown(q, base)
  {
    if rows == [] then []
    else (if Satisfies(q, base, rows[0]) then [rows[0]] else []) + Answer(rows[1..], q, base)
  }

  /** Some level compares a string with a number, and has a row to compare them on. */
  predicate Stops(q: Select, base: ResultSet, rows: seq<View>)
    requires ConditionsKnown(q, base)
  {
    || (q.where.Some? && !WellTyped(q.where.value, Seen(q.from, base)) && Input(rows, q, base) != [])
    || (q.from.Sub? && Stops(q.from.query, base, rows))
  }

  /** The rows that the WHERE of the query is asked. */
  function Input(rows: seq<View>, q: Select, base: ResultSet): seq<View>
    requires ConditionsKnown(q, base)
  {
    match q.from
    case Base => rows
    case Sub(inner) => Answer(rows, inner, base)
  }

  /** The select list asks for some column. */
  predicate SelectsSome(q: Select, base: ResultSet) {
    if q.list.Columns? then q.list.refs != [] else base.columns != []
  }

  /** What the query asks for: the columns it shows, of the rows that satisfy it. */
  function ResultOf(q: Select, base: ResultSet, rows: seq<View>): Ran {
    if !NamesKnown(q, base) || !SelectsSome(q, base) then Refused
    else if Stops(q, base, rows) then Stopped
    else Rows(ShownRows(base.columns, ShownOf(q, base), Answer(rows, q, base)))
  }

  /** On this row every comparison of the query is one that the evaluator answers as written. */
  predicate FaithfulAt(q: Select, base: ResultSet, t: View)
    requires ConditionsKnown(q, base)
  {
    && (q.where.Some? && WellTyped(q.where.value, Seen(q.from, base)) ==>
          var ops := OpsOf(q.where.value, Seen(q.from, base));
          Typed(ops) && AllFaithful(ops, t, t))
    && (q.from.Sub? ==> FaithfulAt(q.from.query, base, t))
  }

  ghost predicate FaithfulOn(q: Select, base: ResultSet, rows: seq<View>)
    requires ConditionsKnown(q, base)
  {
    forall i :: 0 <= i < |rows| ==> FaithfulAt(q, base, rows[i])
  }

  // ----- planning -----

  lemma {:induction false} SameOps(c: Condition, a: ResultSet, b: ResultSet)
    requires SameReferences(a.columns, b.columns)
    ensures Resolves(c, a) == Resolves(c, b)
    ensures Resolves(c, a) ==> OpsOf(c, a) == OpsOf(c, b)
  {
    match c.item {
      case Plain(l, _, r) =>
        SameSide(l, a, b);
        SameSide(r, a, b);
      case Group(inner) =>
        SameOps(inner, a, b);
    }
    if c.More? {
      SameOps(c.rest, a, b);
    }
    hide Known, SideOf;
  }

  lemma SameSide(o: Operand, a: ResultSet, b: ResultSet)
    requires SameReferences(a.columns, b.columns)
    ensures Known(o, a) == Known(o, b) && (Known(o, a) ==> SideOf(o, a) == SideOf(o, b))
  {
    if o.Column? {
      SameFind(a.columns, b.columns, o.name, o.tblref);
    }
  }

  /** The filter of a level is the list of operators of its condition. */
  lemma LevelOps(c: Condition, from: From, base: ResultSet, desc: ResultSet)
    requires GroupsFirst(c) && SameReferences(desc.columns, Seen(from, base).columns)
    ensures PlanOps(Nodes(c), desc) ==
            if Resolves(c, Seen(from, base)) then Some(OpsOf(c, Seen(from, base))) else None
  {
    SameOps(c, desc, Seen(from, base));
    PlansCondition(c, false, desc);
    assert Nodes(c) + Closing(false) == Nodes(c);
  }

  /** The plan below the filter is described like the columns that the level sees. */
  lemma FromSees(q: Select, scan: Plan)
    requires FromPlan(q, scan).Some?
    ensures SameReferences(FromPlan(q, scan).value.desc.columns, Seen(q.from, scan.desc).columns)
  {
    if q.from.Sub? {
      PlanKeepsColumns(q.from.query, scan);
    }
  }

  lemma {:induction false} PlanScans(q: Select, scan: Plan)
    requires scan.OpScan? && PlanSelect(q, scan).Some?
    ensures BottomOf(PlanSelect(q, scan).value) == scan.bottom
  {
    PlanShape(q, scan);
    hide PlanSelect, PlanOps, Projection;
    var p, from := PlanSelect(q, scan).value, FromPlan(q, scan).value;
    assert BottomOf(p) == BottomOf(p.child) == BottomOf(from);
    if q.from.Sub? {
      PlanScans(q.from.query, scan);
    }
  }

  /** The conditions of all levels read the columns so. */
  predicate LevelsRead(q: Select, base: ResultSet, rds: seq<Reading>)
    requires ConditionsKnown(q, base)
  {
    && (q.where.Some? ==> ReadsAs(OpsOf(q.where.value, Seen(q.from, base)), rds, rds))
    && (q.from.Sub? ==> LevelsRead(q.from.query, base, rds))
  }

  predicate QueryReads(q: Select, base: ResultSet, rds: seq<Reading>) {
    ConditionsKnown(q, base) ==> LevelsRead(q, base, rds)
  }

  /** As the types of the base say, every query can be read. */
  lemma {:induction false} DescribedReads(q: Select, base: ResultSet)
    ensures QueryReads(q, base, DescribedReadings(base))
  {
    if ConditionsKnown(q, base) {
      if q.where.Some? {
        assert TypesOf(Seen(q.from, base).columns) == TypesOf(base.columns);
        PlannedReadsAs(q.where.value, Seen(q.from, base));
      }
      if q.from.Sub? {
        DescribedReads(q.from.query, base);
      }
    }
    hide Resolves, OpsOf, ReadsAs, Seen;
  }

  lemma DescribedShows(base: ResultSet)
    ensures Shows(base, DescribedReadings(base))
  {
  }

  lemma {:induction false} PlanReadsQuery(q: Select, scan: Plan, rds: seq<Reading>)
    requires scan.OpScan? && GroupsLead(q) && PlanSelect(q, scan).Some? && QueryReads(q, scan.desc, rds)
    ensures PlanReads(PlanSelect(q, scan).value, rds)
  {
    PlannedIffNamesKnown(q, scan);
    PlanShape(q, scan);
    hide PlanSelect, PlanOps, Projection, OpsOf, ReadsAs, Resolves, Nodes, GroupsFirst, SameReferences;
    var p, from := PlanSelect(q, scan).value, FromPlan(q, scan).value;
    FromSees(q, scan);
    if q.from.Sub? {
      PlanReadsQuery(q.from.query, scan, rds);
    }
    if q.where.Some? {
      LevelOps(q.where.value, q.from, scan.desc, from.desc);
    }
    assert PlanReads(p, rds) == PlanReads(p.child, rds);
  }

  /** What a plan shows can be printed if the columns of the base can. */
  lemma PlanShows(q: Select, scan: Plan, rds: seq<Reading>)
    requires PlanSelect(q, scan).Some? && Shows(scan.desc, rds)
    ensures Shows(PlanSelect(q, scan).value.desc, rds)
  {
    PlanKeepsColumns(q, scan);
    hide PlanSelect;
  }

  /** A query is planned exactly when all its names are known. */
  lemma {:induction false} PlannedIffNamesKnown(q: Select, scan: Plan)
    requires GroupsLead(q)
    ensures PlanSelect(q, scan).Some? <==> NamesKnown(q, scan.desc)
    ensures NamesKnown(q, scan.desc) ==> ConditionsKnown(q, scan.desc) && ListsKnown(q, scan.desc)
  {
    hide PlanOps, Resolves, SameReferences, OpsOf, Resolve, Typed, Nodes, GroupsFirst;
    var from := FromPlan(q, scan);
    if q.from.Sub? {
      PlannedIffNamesKnown(q.from.query, scan);
    }
    if from.Some? {
      FromSees(q, scan);
      if q.where.Some? {
        LevelOps(q.where.value, q.from, scan.desc, from.value.desc);
      }
      if q.list.Columns? {
        SameResolve(q.list.refs, from.value.desc.columns, Seen(q.from, scan.desc).columns);
      }
    }
  }

  // ----- running -----

  lemma HoldsAsMeant(q: Select, ops: seq<FilterOp>, base: ResultSet, t: View)
    requires ConditionsKnown(q, base) && Typed(ops) && FaithfulAt(q, base, t)
    requires q.where.Some? && WellTyped(q.where.value, Seen(q.from, base))
    requires ops == OpsOf(q.where.value, Seen(q.from, base))
    ensures Holds(ops, t, t) == Means(q.where.value, Seen(q.from, base), t, t)
  {
    EvaluatesFrom(q.where.value, true, AND, Seen(q.from, base), t, t);
    hide Typed, OpsOf;
  }

  /** One tuple more. */
  function IfSo(b: bool, t: View): seq<View> {
    if b then [t] else []
  }

  lemma KeepNext(ops: seq<FilterOp>, b: bool, t: View, rest: seq<View>)
    requires Typed(ops)
    ensures Keep(ops, IfSo(b, t) + rest) == IfSo(b && Holds(ops, t, t), t) + Keep(ops, rest)
  {
    hide Holds, Typed;
    assert [] + rest == rest && [] + Keep(ops, rest) == Keep(ops, rest);
    assert ([t] + rest)[1..] == rest;
  }

  lemma InputNext(rows: seq<View>, q: Select, base: ResultSet)
    requires ConditionsKnown(q, base) && rows != []
    ensures Input(rows, q, base) ==
            IfSo(q.from.Sub? ==> Satisfies(q.from.query, base, rows[0]), rows[0]) + Input(rows[1..], q, base)
  {
    hide Satisfies;
    assert rows == [rows[0]] + rows[1..];
  }

  /** A filter that is answered as written leaves what satisfies its condition too. */
  lemma {:induction false} KeepSatisfying(q: Select, ops: seq<FilterOp>, rows: seq<View>, base: ResultSet)
    requires ConditionsKnown(q, base) && Typed(ops) && FaithfulOn(q, base, rows)
    requires q.where.Some? && WellTyped(q.where.value, Seen(q.from, base))
    requires ops == OpsOf(q.where.value, Seen(q.from, base))
    ensures Keep(ops, Input(rows, q, base)) == Answer(rows, q, base)
  {
    if rows == [] {
      NothingKept(q, ops, base);
    } else {
      var t := rows[0];
      assert FaithfulAt(q, base, t);
      HoldsAsMeant(q, ops, base, t);
      assert FaithfulOn(q, base, rows[1..]);
      KeepSatisfying(q, ops, rows[1..], base);
      SatisfiesBoth(q, base, t);
      InputNext(rows, q, base);
      KeepNext(ops, q.from.Sub? ==> Satisfies(q.from.query, base, t), t, Input(rows[1..], q, base));
      AnswerNext(rows, q, base);
      hide *;
    }
  }

  lemma AnswerNext(rows: seq<View>, q: Select, base: ResultSet)
    requires ConditionsKnown(q, base) && rows != []
    ensures Answer(rows, q, base) == IfSo(Satisfies(q, base, rows[0]), rows[0]) + Answer(rows[1..], q, base)
  {
    hide Satisfies;
  }

  lemma NothingKept(q: Select, ops: seq<FilterOp>, base: ResultSet)
    requires ConditionsKnown(q, base) && Typed(ops)
    ensures Keep(ops, Input([], q, base)) == [] == Answer([], q, base)
  {
  }

  lemma SatisfiesBoth(q: Select, base: ResultSet, t: View)
    requires ConditionsKnown(q, base) && q.where.Some?
    ensures Satisfies(q, base, t) <==>
              Means(q.where.value, Seen(q.from, base), t, t)
              && (q.from.Sub? ==> Satisfies(q.from.query, base, t))
  {
    hide Means;
  }

  /** Nothing satisfies all levels where nothing satisfies the inner ones. */
  lemma {:induction false} NoneAnswers(q: Select, rows: seq<View>, base: ResultSet)
    requires ConditionsKnown(q, base) && Input(rows, q, base) == []
    ensures Answer(rows, q, base) == []
  {
    if rows != [] {
      NoneAnswers(q, rows[1..], base);
      hide Means;
    }
  }

  lemma {:induction false} NoCondition(q: Select, rows: seq<View>, base: ResultSet)
    requires ConditionsKnown(q, base) && q.where.None?
    ensures Answer(rows, q, base) == Input(rows, q, base)
  {
    if rows != [] {
      NoCondition(q, rows[1..], base);
    }
  }

  lemma FaithfulInner(q: Select, base: ResultSet, rows: seq<View>)
    requires ConditionsKnown(q, base) && q.from.Sub? && FaithfulOn(q, base, rows)
    ensures FaithfulOn(q.from.query, base, rows)
  {
    forall i | 0 <= i < |rows|
      ensures FaithfulAt(q.from.query, base, rows[i])
    {
      assert FaithfulAt(q, base, rows[i]);
    }
  }

  /** Nested SELECT: whatever the depth, what the plan emits are the rows of the base that satisfy
      the conditions of all levels, in the order of the base; and the program stops exactly when a
      level that compares a string with a number is reached by a row. */
  lemma {:induction false} NestedSelectAnswers(q: Select, scan: Plan, rows: seq<View>)
    requires scan.OpScan? && GroupsLead(q) && ConditionsKnown(q, scan.desc) && FaithfulOn(q, scan.desc, rows)
    requires PlanSelect(q, scan).Some?
    ensures Flow(PlanSelect(q, scan).value, rows) ==
            if Stops(q, scan.desc, rows) then None else Some(Answer(rows, q, scan.desc))
  {
    hide PlanOps, Typed, Resolves, WellTyped, SameReferences, OpsOf, Keep, Answer, FaithfulOn, Projection, GroupsFirst;
    PlanShape(q, scan);
    hide PlanSelect;
    var p, base, from := PlanSelect(q, scan).value, scan.desc, FromPlan(q, scan).value;
    FromSees(q, scan);
    if q.from.Sub? {
      FaithfulInner(q, base, rows);
      NestedSelectAnswers(q.from.query, scan, rows);
    }
    var input := Input(rows, q, base);
    assert q.from.Base? || !Stops(q.from.query, base, rows) ==> Flow(from, rows) == Some(input);
    if q.where.Some? {
      var c := q.where.value;
      LevelOps(c, q.from, base, from.desc);
      var ops := OpsOf(c, Seen(q.from, base));
      OpsTyped(c, Seen(q.from, base));
      assert p.child == OpFilter(ops, from.desc, from);
      if Typed(ops) {
        KeepSatisfying(q, ops, rows, base);
      } else if input == [] {
        NoneAnswers(q, rows, base);
      }
    } else {
      NoCondition(q, rows, base);
    }
  }

  /** What is printed of a plan's columns is what is printed of the base's. */
  lemma SameShown(a: seq<ColumnMetadata>, b: seq<ColumnMetadata>, shown: seq<nat>, rows: seq<View>)
    requires |a| == |b| && forall i :: 0 <= i < |a| ==> a[i].dtype == b[i].dtype
    requires forall k :: 0 <= k < |shown| ==> shown[k] < |a|
    ensures ShownRows(a, shown, rows) == ShownRows(b, shown, rows)
  {
    assert forall t :: ShownRow(a, shown, t) == ShownRow(b, shown, t);
    hide ShownRow;
  }

  lemma PlanSelectsSome(q: Select, scan: Plan)
    requires PlanSelect(q, scan).Some?
    ensures PlanSelect(q, scan).value.desc.columnOrder == [] <==> !SelectsSome(q, scan.desc)
  {
    PlanShape(q, scan);
    FromSees(q, scan);
    hide PlanSelect, PlanOps;
  }

  /** The columns that a plan shows, of the rows that it emits, are what the query asks for. */
  lemma ResultIs(q: Select, scan: Plan, rows: seq<View>)
    requires PlanSelect(q, scan).Some? && NamesKnown(q, scan.desc)
    ensures var desc := PlanSelect(q, scan).value.desc;
            ResultOf(q, scan.desc, rows) ==
              if desc.columnOrder == [] then Refused
              else if Stops(q, scan.desc, rows) then Stopped
              else Rows(ShownRows(desc.columns, Shown(desc), Answer(rows, q, scan.desc)))
  {
    var desc := PlanSelect(q, scan).value.desc;
    PlanSelectsSome(q, scan);
    QueryShows(q, scan);
    PlanKeepsColumns(q, scan);
    SameShown(desc.columns, scan.desc.columns, Shown(desc), Answer(rows, q, scan.desc));
    hide ShownRows, ShownFrom, ShownOf, PlanSelect, ListsKnown, ConditionsKnown, Stops, Answer, SelectsSome;
  }

  /** Run a planned query. */
  method RunPlan(plan: Option<Plan>, bottom: Bottom, base: ResultSet, ghost q: Select) returns (r: Ran)
    requires bottom.Valid() && !bottom.Ended() && GroupsLead(q) && plan == PlanSelect(q, OpScan(bottom, base))
    requires QueryReads(q, base, bottom.Readings()) && Shows(base, bottom.Readings())
    modifies bottom.Repr()
    ensures r.Refused? <==> !NamesKnown(q, base) || !SelectsSome(q, base)
    ensures NamesKnown(q, base) && FaithfulOn(q, base, old(bottom.Rest())) ==>
              r == ResultOf(q, base, old(bottom.Rest()))
  {
    ghost var scan, rows := OpScan(bottom, base), bottom.Rest();
    hide *;
    PlannedIffNamesKnown(q, scan);
    if plan == None {
      return Refused;
    }
    CanRun(q, bottom, base);
    PlanSelectsSome(q, scan);
    r := Execute(plan.value);
    if FaithfulOn(q, base, rows) {
      NestedSelectAnswers(q, scan, rows);
      ResultIs(q, scan, rows);
    }
  }

  lemma CanRun(q: Select, bottom: Bottom, base: ResultSet)
    requires bottom.Valid() && !bottom.Ended() && GroupsLead(q) && PlanSelect(q, OpScan(bottom, base)).Some?
    requires QueryReads(q, base, bottom.Readings()) && Shows(base, bottom.Readings())
    ensures var plan := PlanSelect(q, OpScan(bottom, base)).value;
            && BottomOf(plan) == bottom && Pullable(plan) && Shows(plan.desc, bottom.Readings())
            && Remaining(plan) == Flow(plan, bottom.Rest())
  {
    var scan := OpScan(bottom, base);
    PlanScans(q, scan);
    PlanReadsQuery(q, scan, bottom.Readings());
    PlanShows(q, scan, bottom.Readings());
    hide PlanSelect, Shows, QueryReads, Flow;
  }

  /** Plan a query and run it: the columns it shows are printed, in their order, of the rows that
      satisfy it. */
  method RunSelect(q: Select, bottom: Bottom, base: ResultSet) returns (r: Ran)
    requires bottom.Valid() && !bottom.Ended() && GroupsLead(q) && bottom.Readings() == DescribedReadings(base)
    modifies bottom.Repr()
    ensures r.Refused? <==> !NamesKnown(q, base) || !SelectsSome(q, base)
    ensures NamesKnown(q, base) && FaithfulOn(q, base, old(bottom.Rest())) ==>
              r == ResultOf(q, base, old(bottom.Rest()))
  {
    hide PlanSelect, QueryReads, Shows, NamesKnown, ResultOf, FaithfulOn, SelectsSome, GroupsLead, Bottom.Valid,
         Bottom.Rest, Bottom.Ended, Bottom.Readings;
    DescribedReads(q, base);
    DescribedShows(base);
    var plan := MakePlan(q, OpScan(bottom, base));
    r := RunPlan(plan, bottom, base, q);
  }
}
