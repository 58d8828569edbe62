/** From the text of a statement to what is printed: it is parsed, its tables are looked up and
    joined, and the query or aggregate over them is planned and run. */
module Database {
  import opened CText
  import opened Tuples
  import opened ParseTree
  import opened WrittenText
  import opened QueryText
  import opened FilterPlanner
  import opened WhereMeaning
  import opened HashTable
  import opened JoinPlanner
  import opened JoinQuery
  import opened Evaluator
  import opened Readings
  import opened Scan
  import opened Bottom
  import opened SelectPlanner
  import opened Pipeline
  import opened Query
  import Aggregate
  import Comparison
  import Parser

  /** A file or a stored table: its columns, and its lines or records. */
  datatype Stored = Stored(desc: ResultSet, contents: Contents)

  type Catalog = map<Target, Stored>

  // ----- the tables of a statement -----

  /** The scan gives every column the alias of the table. */
  function Aliased(desc: ResultSet, alias: string): (r: ResultSet)
    ensures |r.columns| == |desc.columns|
  {
    var cols := desc.columns;
    ResultSet(seq(|cols|, i requires 0 <= i < |cols| => cols[i].(resultSetAlias := alias)), desc.columnOrder)
  }

  function TableAt(o: Origin, catalog: Catalog): Option<Stored> {
    if o.target !in catalog then None
    else Some(Stored(Aliased(catalog[o.target].desc, AliasName(o.alias)), catalog[o.target].contents))
  }

  /** Under its alias, and only so, a column of a table is found by its name. */
  lemma {:induction false} AliasedFinds(cols: seq<ColumnMetadata>, desc: ResultSet, alias: string, name: string,
                                        ref: string)
    requires desc.columns == cols
    ensures FindColIdxInResDesc(Aliased(desc, alias).columns, name, ref) ==
            if ref == alias then Aggregate.FindByName(cols, name) else None
    decreases cols
  {
    if cols != [] {
      var rest := ResultSet(cols[1..], []);
      AliasedFinds(cols[1..], rest, alias, name, ref);
      assert Aliased(desc, alias).columns[1..] == Aliased(rest, alias).columns;
    }
  }

  datatype Tables = One(table: Stored) | Two(left: Stored, right: Stored)

  function TablesOf(p: Place, catalog: Catalog): Option<Tables>
    requires !p.Nested?
  {
    match p
    case Single(o) =>
      (match TableAt(o, catalog)
       case None => None
       case Some(t) => Some(One(t)))
    case Joined(l, _, r, _, _) =>
      (match (TableAt(l, catalog), TableAt(r, catalog))
       case (Some(t), Some(u)) => Some(Two(t, u))
       case _ => None)
  }

  function DescriptionOf(t: Tables): ResultSet {
    if t.One? then t.table.desc else JoinDescription(t.left.desc, t.right.desc)
  }

  /** The first column of that name in the catalog's description of a table, if `ref` is the name behind
      its AS, or nothing where there is none. */
  function ColumnIn(o: Origin, catalog: Catalog, ref: string, name: string): Option<nat>
    requires o.target in catalog
  {
    if ref == AliasName(o.alias) then Aggregate.FindByName(catalog[o.target].desc.columns, name) else None
  }

  /** Which column of a place `ref.name` is: one of the table, or one of the left table, or else one of
      the right table, which is counted from the left ones on. */
  function ColumnAt(p: Place, catalog: Catalog, ref: string, name: string): Option<nat>
    requires !p.Nested? && TablesOf(p, catalog).Some?
  {
    match p
    case Single(o) => ColumnIn(o, catalog, ref, name)
    case Joined(l, _, r, _, _) =>
      match (ColumnIn(l, catalog, ref, name), ColumnIn(r, catalog, ref, name))
      case (Some(i), _) => Some(i)
      case (None, Some(j)) => Some(|catalog[l.target].desc.columns| + j)
      case _ => None
  }

  /** The description has the columns of the catalog but for the alias, of the left table and then of the right. */
  ghost predicate DescribesAs(desc: ResultSet, p: Place, catalog: Catalog)
    requires !p.Nested? && TablesOf(p, catalog).Some?
  {
    && (p.Single? ==>
          && SameButAlias(desc.columns, catalog[p.origin.target].desc.columns)
          && desc.columnOrder == catalog[p.origin.target].desc.columnOrder)
    && (p.Joined? ==>
          && SameButAlias(desc.columns,
                          catalog[p.left.target].desc.columns + catalog[p.right.target].desc.columns)
          && desc.columnOrder ==
             catalog[p.left.target].desc.columnOrder + catalog[p.right.target].desc.columnOrder)
    && forall name, ref :: FindColIdxInResDesc(desc.columns, name, ref) == ColumnAt(p, catalog, ref, name)
  }

  predicate SameButAlias(a: seq<ColumnMetadata>, b: seq<ColumnMetadata>) {
    |a| == |b| && forall i :: 0 <= i < |a| ==>
                    a[i].name == b[i].name && a[i].dtype == b[i].dtype && a[i].active == b[i].active
  }

  lemma {:induction false} FindsInBoth(a: seq<ColumnMetadata>, b: seq<ColumnMetadata>, name: string, ref: string)
    ensures FindColIdxInResDesc(a + b, name, ref) ==
            match (FindColIdxInResDesc(a, name, ref), FindColIdxInResDesc(b, name, ref))
            case (Some(i), _) => Some(i)
            case (None, Some(j)) => Some(|a| + j)
            case _ => None
  {
    if a == [] {
      assert a + b == b;
    } else {
      assert (a + b)[0] == a[0] && (a + b)[1..] == a[1..] + b;
      FindsInBoth(a[1..], b, name, ref);
    }
  }

  /** The tables of a place are described so: each column is found under the alias that its table was
      given, and under no other. */
  lemma TablesDescribed(p: Place, catalog: Catalog)
    requires !p.Nested? && TablesOf(p, catalog).Some?
    ensures DescribesAs(DescriptionOf(TablesOf(p, catalog).value), p, catalog)
  {
    forall name, ref
      ensures FindColIdxInResDesc(DescriptionOf(TablesOf(p, catalog).value).columns, name, ref) ==
              ColumnAt(p, catalog, ref, name)
    {
      match p {
        case Single(o) =>
          var desc := catalog[o.target].desc;
          AliasedFinds(desc.columns, desc, AliasName(o.alias), name, ref);
        case Joined(l, _, r, _, _) =>
          var left, right := catalog[l.target].desc, catalog[r.target].desc;
          AliasedFinds(left.columns, left, AliasName(l.alias), name, ref);
          AliasedFinds(right.columns, right, AliasName(r.alias), name, ref);
          FindsInBoth(Aliased(left, AliasName(l.alias)).columns, Aliased(right, AliasName(r.alias)).columns, name, ref);
      }
    }
    hide FindColIdxInResDesc, Aggregate.FindByName;
  }

  /** The rows of the table, or those of the join as its condition means. */
  function RowsOf(t: Tables, on: Condition): seq<View>
    requires t.Two? ==> Resolves(on, DescriptionOf(t))
  {
    if t.One? then Flats(RowsIn(t.table.contents))
    else JoinedRows(RowsIn(t.left.contents), RowsIn(t.right.contents), on, DescriptionOf(t), |t.left.desc.columns|)
  }

  /** The place that the innermost query selects from. */
  function PlaceOf(x: WrittenQuery): (p: Place)
    ensures !p.Nested?
  {
    if x.place.Nested? then PlaceOf(x.place.q) else x.place
  }

  /** The tables are there, and a join names columns that they have. */
  predicate TablesKnown(t: Option<Tables>, on: Condition) {
    t.Some? && (t.value.Two? ==> Resolves(on, DescriptionOf(t.value)))
  }

  /** The tables can be scanned, and joined, and their columns are there to be read. */
  ghost predicate TablesRun(t: Tables, on: Condition, hashJoinEnabled: bool, h: Hash, size: nat, way: Way) {
    match t
    case One(table) =>
      WellStored(table.contents) && RowsHold(RowsIn(table.contents), DescribedReadings(table.desc))
    case Two(l, r) =>
      JoinRuns(on, l.desc, r.desc, hashJoinEnabled, l.contents, r.contents, h, size, way)
  }

  /** How the columns are read, by WHERE, by the list or by an aggregate. */
  function ReadingsFor(t: Tables, way: Way): seq<Reading> {
    match t
    case One(table) => DescribedReadings(table.desc)
    case Two(l, r) => JoinReadings(l.desc, r.desc, l.contents, r.contents, way)
  }

  ghost predicate TablesDeliver(t: Tables, on: Condition, hashJoinEnabled: bool, h: Hash)
    requires t.Two? ==> Resolves(on, DescriptionOf(t))
  {
    t.Two? ==>
      JoinDelivers(on, t.left.desc, t.right.desc, hashJoinEnabled, RowsIn(t.left.contents), RowsIn(t.right.contents), h)
  }

  // ----- finding and joining them -----

  /** The FROM chain of the innermost query. */
  function InnermostFrom(chain: seq<Node>): seq<Node>
    decreases chain
  {
    if |chain| < 2 || chain[1].child == [] then []
    else if chain[1].child[0].kind == SELECT then InnermostFrom(chain[1].child)
    else chain[1].child
  }

  lemma {:induction false} InnermostRead(x: WrittenQuery)
    ensures InnermostFrom(QueryNodes(x)) == PlaceNodes(PlaceOf(x))
    decreases x
  {
    var p := x.place;
    assert QueryNodes(x)[1].child == PlaceNodes(p);
    if p.Nested? {
      InnermostRead(p.q);
      assert PlaceNodes(p)[0].kind == SELECT;
    }
  }

  /** `chooseScanOp`, on a node of the tree. */
  method ChooseScan(n: Node, catalog: Catalog, ghost o: Origin) returns (r: Option<Stored>)
    requires n == OriginNode(o)
    ensures r == TableAt(o, catalog)
  {
    var target := if n.kind == FILEPATH then Path(n.content) else Table(n.content);
    if target !in catalog {
      return None;
    }
    var stored := catalog[target];
    return Some(Stored(Aliased(stored.desc, n.alias), stored.contents));
  }

  lemma JoinedNodes(p: Place, on: Condition)
    requires p.Joined? && Writes(p.on, on)
    ensures var from := PlaceNodes(p);
            && |from| == 4 && from[1].kind == JOIN && from[0] == OriginNode(p.left)
            && from[2] == OriginNode(p.right) && from[3].child == Nodes(on)
  {
    WritesNodes(p.on, on);
  }

  /** `buildFrom`: a scan, or the join of two. */
  method BuildFrom(from: seq<Node>, catalog: Catalog, hashJoinEnabled: bool, h: Hash, size: nat,
                   ghost p: Place, ghost on: Condition, ghost way: Way)
    returns (r: Option<(ResultSet, Bottom)>)
    requires !p.Nested? && from == PlaceNodes(p) && (p.Joined? ==> Writes(p.on, on))
    requires var t := TablesOf(p, catalog); t.Some? ==> TablesRun(t.value, on, hashJoinEnabled, h, size, way)
    ensures r.Some? <==> TablesKnown(TablesOf(p, catalog), on)
    ensures r.Some? ==>
              var t, bottom := TablesOf(p, catalog).value, r.value.1;
              && r.value.0 == DescriptionOf(t) && DescribesAs(r.value.0, p, catalog)
              && bottom.Valid() && !bottom.Ended() && fresh(bottom.Repr())
              && bottom.Readings() == ReadingsFor(t, way) && (t.One? <==> bottom.Scanned?)
              && (bottom.Scanned? ==> bottom.scan.source.contents == t.table.contents)
              && (TablesDeliver(t, on, hashJoinEnabled, h) ==> bottom.Rest() == RowsOf(t, on))
  {
    hide Resolves, JoinRuns, JoinDelivers, JoinedRows, Nodes, TableAt, JoinReadings, DescribedReadings, RowsIn,
         RowsHold, WellStored, Bottom.Valid, Bottom.Rest, Bottom.Readings;
    if p.Joined? {
      JoinedNodes(p, on);
    }
    if TablesOf(p, catalog).Some? {
      TablesDescribed(p, catalog);
    }
    hide DescribesAs;
    if |from| == 4 && from[1].kind == JOIN {
      var left := ChooseScan(from[0], catalog, p.left);
      var right := ChooseScan(from[2], catalog, p.right);
      if left == None || right == None {
        return None;
      }
      var l, u := left.value, right.value;
      var bottom := BuildJoin(from[3].child, l.desc, u.desc, l.contents, u.contents, hashJoinEnabled, h, size, on, way);
      if bottom == None {
        return None;
      }
      return Some((JoinDescription(l.desc, u.desc), bottom.value));
    }
    var table := ChooseScan(from[0], catalog, p.origin);
    if table == None {
      return None;
    }
    var bottom := ScanTable(table.value);
    return Some((table.value.desc, bottom));
  }

  method ScanTable(table: Stored) returns (bottom: Bottom)
    requires WellStored(table.contents) && RowsHold(RowsIn(table.contents), DescribedReadings(table.desc))
    ensures bottom.Valid() && !bottom.Ended() && fresh(bottom.Repr()) && bottom.Scanned?
    ensures bottom.Readings() == DescribedReadings(table.desc) && bottom.scan.source.contents == table.contents
    ensures bottom.Rest() == Flats(RowsIn(table.contents))
  {
    var source := new Scan(table.contents);
    var scan := new TableScan(source, DescribedReadings(table.desc));
    bottom := Scanned(scan);
  }

  // ----- statements -----

  /** The query below the list or the aggregate. */
  function QueryOf(s: Statement): Select {
    match s
    case Listing(q) => q
    case Aggregation(_, _, from, where) => Select(Star, from, where)
  }

  predicate StatementKnown(s: Statement, base: ResultSet) {
    && NamesKnown(QueryOf(s), base)
    && match s
       case Listing(q) => SelectsSome(q, base)
       case Aggregation(f, column, _, _) =>
         Aggregate.AggregationOf(f).Some? && Aggregate.FindByName(base.columns, column).Some?
  }

  /** The column that a statement reads as a number, whatever its type. */
  function Counted(s: Statement, base: ResultSet): Option<nat> {
    match s
    case Listing(_) => None
    case Aggregation(f, column, _, _) =>
      if f == "COUNT" then None else Aggregate.FindByName(base.columns, column)
  }

  /** The aggregated column can be read as a number: by the scan of a table, since its tuple is filled
      again before anything else is read; or over a join, where tuples are kept, because it is only
      read as a number, or because its cast leaves its text alone. */
  ghost predicate StatementReads(s: Statement, t: Tables, way: Way) {
    match Counted(s, DescriptionOf(t))
    case None => way == Described
    case Some(c) =>
      if t.One? then way == Described && Countable(RowsIn(t.table.contents), c)
      else way in {Number(c), Mixed(c)} && QueryReads(QueryOf(s), DescriptionOf(t), ReadingsFor(t, way))
  }

  /** The statement can be run over the tables. */
  ghost predicate StatementRuns(s: Statement, t: Tables, on: Condition, hashJoinEnabled: bool, h: Hash, size: nat) {
    exists way :: StatementReads(s, t, way) && TablesRun(t, on, hashJoinEnabled, h, size, way)
  }

  /** What a statement asks for. */
  function ResultOfStatement(s: Statement, base: ResultSet, rows: seq<View>): Ran {
    match s
    case Listing(q) => ResultOf(q, base, rows)
    case Aggregation(f, column, from, where) =>
      match Aggregate.AggregationOf(f)
      case None => Refused
      case Some(aggtype) => Aggregate.AggregateOf(aggtype, column, from, where, base, rows)
  }

  /** What the five functions print, by their names: the number of rows; the greatest value, exactly when
      some value is not negative; the least one, exactly when there is a row; the sum, exactly when it is
      a long; the quotient, for sums from 0 below 2^64. Any other name is refused. */
  lemma AggregatesByName(f: string, column: string, from: From, where: Option<Condition>, base: ResultSet,
                         rows: seq<View>, c: nat)
    requires var q := Select(Star, from, where); NamesKnown(q, base) && !Stops(q, base, rows)
    requires Aggregate.FindByName(base.columns, column) == Some(c)
    ensures var nums := Aggregate.ColumnOf(Answer(rows, Select(Star, from, where), base), c);
            var r := ResultOfStatement(Aggregation(f, column, from, where), base, rows);
            && PrintsAsNamed(f, nums, r)
            && (f !in {"COUNT", "MAX", "MIN", "SUM", "AVG"} ==>
                  r == Refused && !StatementKnown(Aggregation(f, column, from, where), base))
  {
    var answer := Answer(rows, Select(Star, from, where), base);
    StatementEmits(f, column, from, where, base, rows, c);
    EmittedByName(f, Aggregate.ColumnOf(answer, c));
    hide *;
  }

  lemma StatementEmits(f: string, column: string, from: From, where: Option<Condition>, base: ResultSet,
                       rows: seq<View>, c: nat)
    requires var q := Select(Star, from, where); NamesKnown(q, base) && !Stops(q, base, rows)
    requires Aggregate.FindByName(base.columns, column) == Some(c)
    ensures var nums := Aggregate.ColumnOf(Answer(rows, Select(Star, from, where), base), c);
            var s := Aggregation(f, column, from, where);
            && ResultOfStatement(s, base, rows) == PrintedBy(f, nums)
            && (Aggregate.AggregationOf(f) == None ==> !StatementKnown(s, base) && PrintedBy(f, nums) == Refused)
  {
    hide NamesKnown, Stops, Answer, Aggregate.FindByName, Aggregate.Emitted;
  }

  /** What is printed for the name of a function and the numbers of a column. */
  ghost predicate PrintsAsNamed(f: string, nums: seq<int>, r: Ran) {
    && (f == "COUNT" ==> r == PrintsNumber(|nums|))
    && (f == "MAX" ==> ((exists m :: Aggregate.IsGreatest(m, nums) && r == PrintsNumber(m)) <==>
                        exists i :: 0 <= i < |nums| && nums[i] >= 0))
    && (f == "MIN" ==> ((exists m :: Aggregate.IsLeast(m, nums) && r == PrintsNumber(m)) <==> nums != []))
    && (f == "SUM" ==> (r == PrintsNumber(Aggregate.Sum(nums)) <==> IsLong(Aggregate.Sum(nums))))
    && (f == "AVG" && 0 < |nums| < TWO63 && 0 <= Aggregate.Sum(nums) < TWO64 ==>
          exists q :: r == PrintsNumber(q) && q * |nums| <= Aggregate.Sum(nums) < (q + 1) * |nums|)
    && (f == "AVG" && nums == [] ==> r == Stopped)
  }

  lemma EmittedByName(f: string, nums: seq<int>)
    requires Aggregate.AllLong(nums)
    ensures PrintsAsNamed(f, nums, PrintedBy(f, nums))
    ensures f !in {"COUNT", "MAX", "MIN", "SUM", "AVG"} ==> Aggregate.AggregationOf(f) == None
  {
    hide PrintedBy, PrintsNumber, Aggregate.IsGreatest, Aggregate.IsLeast, Aggregate.Sum, Aggregate.AggregationOf,
         IsLong;
    CountByName(nums);
    MaxByName(nums);
    MinByName(nums);
    SumByName(nums);
    AvgByName(nums);
    OtherName(f);
  }

  function PrintedBy(f: string, nums: seq<int>): Ran {
    match Aggregate.AggregationOf(f)
    case None => Refused
    case Some(aggtype) => Aggregate.Printed(Aggregate.Emitted(aggtype, nums))
  }

  lemma CountByName(nums: seq<int>)
    ensures PrintedBy("COUNT", nums) == PrintsNumber(|nums|)
  {
  }

  lemma MaxByName(nums: seq<int>)
    ensures (exists m :: Aggregate.IsGreatest(m, nums) && PrintedBy("MAX", nums) == PrintsNumber(m)) <==>
            exists i :: 0 <= i < |nums| && nums[i] >= 0
  {
    Aggregate.MaxIff(nums);
    hide Aggregate.Emitted, Aggregate.IsGreatest;
  }

  lemma MinByName(nums: seq<int>)
    requires Aggregate.AllLong(nums)
    ensures (exists m :: Aggregate.IsLeast(m, nums) && PrintedBy("MIN", nums) == PrintsNumber(m)) <==> nums != []
  {
    Aggregate.MinIff(nums);
    hide Aggregate.Emitted, Aggregate.IsLeast;
  }

  lemma SumByName(nums: seq<int>)
    ensures PrintedBy("SUM", nums) == PrintsNumber(Aggregate.Sum(nums)) <==> IsLong(Aggregate.Sum(nums))
  {
    Aggregate.SumIff(nums);
    hide Aggregate.Sum, Aggregate.FoldColumn, IsLong;
  }

  lemma AvgByName(nums: seq<int>)
    requires Aggregate.AllLong(nums)
    ensures nums == [] ==> PrintedBy("AVG", nums) == Stopped
    ensures 0 < |nums| < TWO63 && 0 <= Aggregate.Sum(nums) < TWO64 ==>
              exists q :: PrintedBy("AVG", nums) == PrintsNumber(q)
                          && q * |nums| <= Aggregate.Sum(nums) < (q + 1) * |nums|
  {
    if 0 < |nums| < TWO63 && 0 <= Aggregate.Sum(nums) < TWO64 {
      Aggregate.AvgIsFloor(nums);
      var q := Aggregate.Emitted(Aggregate.AVG, nums).num;
      hide Aggregate.Emitted, Aggregate.Sum;
      assert PrintedBy("AVG", nums) == PrintsNumber(q);
    }
  }

  lemma OtherName(f: string)
    ensures f !in {"COUNT", "MAX", "MIN", "SUM", "AVG"} ==> Aggregate.AggregationOf(f) == None
  {
  }

  /** One number is printed. */
  function PrintsNumber(n: int): Ran {
    Rows([[Comparison.Number(n)]])
  }

  /** `text` writes the statement `s`, with any white space, with groups first in every WHERE, and
      with the condition `on` if it selects from a join. */
  ghost predicate IsStatement(text: string, x: WrittenQuery, s: Statement, on: Condition) {
    && NUL !in text && text == TextOfQuery(x, "") && WellQuery(x)
    && StatementWrites(x, s) && GroupsLead(QueryOf(s))
    && (PlaceOf(x).Joined? ==> Writes(PlaceOf(x).on, on))
  }

  method ParseStatement(text: string, ghost x: WrittenQuery, ghost s: Statement, ghost on: Condition)
    returns (nodes: seq<Node>)
    requires IsStatement(text, x, s, on)
    ensures nodes == QueryNodes(x) && |nodes| >= 2 && nodes[0].child == ItemsNodes(x.items)
  {
    assert NUL !in text && text == TextOfQuery(x, "") && WellQuery(x) && QueryBoundary("");
    assert [] + QueryNodes(x) == QueryNodes(x);
    assert |QueryNodes(x)| >= 2 && QueryNodes(x)[0].child == ItemsNodes(x.items);
    hide *;
    var parser := new Parser.Parser(text);
    var ok := parser.Query(true, x, "");
    nodes := parser.nodes;
  }

  lemma CallWritten(x: WrittenQuery, s: Statement)
    requires StatementWrites(x, s)
    ensures var call := FirstCall(ItemsNodes(x.items));
            match s
            case Listing(_) => call == None
            case Aggregation(f, column, _, _) =>
              && call.Some? && call.value.content == f && call.value.child != []
              && call.value.child[0].kind == IDENT_COL && call.value.child[0].content == column
  {
    match s {
      case Listing(q) =>
        ListRead(x.items, q.list);
      case Aggregation(_, _, _, _) =>
        FirstCallRead(x.items);
        var args := CallOf(x.items).value.1;
        assert ItemsAdd(args)[0] == OperandNode(args.item.o);
    }
    hide BelowWrites, ItemsNodes;
  }

  /** The columns can be read, and printed or aggregated as the statement asks. */
  ghost predicate BottomReads(s: Statement, base: ResultSet, bottom: Bottom) {
    && QueryReads(QueryOf(s), base, bottom.Readings())
    && (s.Listing? ==> Shows(base, bottom.Readings()))
    && (Counted(s, base).Some? ==> bottom.Aggregable(Counted(s, base).value))
  }

  /** Plan the tree of a statement over its tables, and run the plan. */
  method RunTree(nodes: seq<Node>, bottom: Bottom, base: ResultSet, ghost x: WrittenQuery, ghost s: Statement)
    returns (r: Ran)
    requires bottom.Valid() && !bottom.Ended() && BottomReads(s, base, bottom)
    requires StatementWrites(x, s) && GroupsLead(QueryOf(s))
    requires nodes == QueryNodes(x) && |nodes| >= 2 && nodes[0].child == ItemsNodes(x.items)
    modifies bottom.Repr()
    ensures r.Refused? <==> !StatementKnown(s, base)
    ensures NamesKnown(QueryOf(s), base) && FaithfulOn(QueryOf(s), base, old(bottom.Rest())) ==>
              r == ResultOfStatement(s, base, old(bottom.Rest()))
  {
    hide BelowWrites, NamesKnown, GroupsLead, ResultOf, Aggregate.AggregateOf, PlanSelect, PlanBelow, PlanTree,
         TreeBelow, QueryNodes, ItemsNodes, FirstCall, SelectsSome, FaithfulOn, QueryWrites, QueryReads, Shows,
         Aggregate.FindByName, Bottom.Valid, Bottom.Ended, Bottom.Readings, Bottom.Rest, Bottom.Aggregable;
    CallWritten(x, s);
    var scan := OpScan(bottom, base);
    var call := FindCall(nodes[0].child);
    if call == None {
      TreePlansQuery(x, s.q, scan);
      var plan := MakePlanOfTree(nodes, scan);
      r := RunPlan(plan, bottom, base, s.q);
      return;
    }
    AggregatesBelow(x, s, scan);
    var aggtype := Aggregate.AggregationOf(call.value.content);
    if aggtype == None || call.value.child == [] || call.value.child[0].kind != IDENT_COL {
      return Refused;
    }
    var child := MakeTreeBelow(nodes, scan);
    r := Aggregate.RunAggregatePlan(aggtype.value, call.value.child[0].content, child, bottom, base, s.from, s.where);
  }

  lemma AggregatesBelow(x: WrittenQuery, s: Statement, scan: Plan)
    requires s.Aggregation? && StatementWrites(x, s)
    ensures TreeBelow(QueryNodes(x), scan) == PlanBelow(s.from, s.where, scan)
  {
    TreePlansBelow(x, s.from, s.where, scan);
    hide TreeBelow, PlanBelow, BelowWrites;
  }

  lemma BottomIsRead(s: Statement, t: Tables, way: Way, bottom: Bottom)
    requires StatementReads(s, t, way) && bottom.Readings() == ReadingsFor(t, way) && (t.One? <==> bottom.Scanned?)
    requires bottom.Scanned? ==> bottom.scan.source.contents == t.table.contents
    ensures BottomReads(s, DescriptionOf(t), bottom)
  {
    DescribedReads(QueryOf(s), DescriptionOf(t));
    DescribedShows(DescriptionOf(t));
    DescribedTables(t);
    if Counted(s, DescriptionOf(t)).Some? {
      CountedIsRead(s, t, way, bottom);
    }
    hide QueryReads, Shows, DescribedReadings, Countable, Bottom.Aggregable, Bottom.Readings, ReadingsFor,
         DescriptionOf, Counted, QueryOf;
  }

  lemma DescribedTables(t: Tables)
    ensures ReadingsFor(t, Described) == DescribedReadings(DescriptionOf(t))
    ensures t.One? ==> forall way :: ReadingsFor(t, way) == DescribedReadings(DescriptionOf(t))
  {
    if t.Two? {
      DescribedJoin(t.left.desc, t.right.desc, t.left.contents, t.right.contents);
    }
    hide DescribedReadings, JoinReadings, JoinDescription;
  }

  lemma CountedIsRead(s: Statement, t: Tables, way: Way, bottom: Bottom)
    requires StatementReads(s, t, way) && bottom.Readings() == ReadingsFor(t, way) && (t.One? <==> bottom.Scanned?)
    requires bottom.Scanned? ==> bottom.scan.source.contents == t.table.contents
    requires Counted(s, DescriptionOf(t)).Some?
    ensures bottom.Aggregable(Counted(s, DescriptionOf(t)).value)
  {
    hide QueryReads, Countable, Bottom.Readings;
    if t.Two? {
      var n, c := |t.left.desc.columns|, Counted(s, DescriptionOf(t)).value;
      assert c < n + |t.right.desc.columns|;
      CountedColumn(t, way, c);
    }
  }

  lemma CountedColumn(t: Tables, way: Way, c: nat)
    requires t.Two? && c < |t.left.desc.columns| + |t.right.desc.columns| && way in {Number(c), Mixed(c)}
    ensures c < |ReadingsFor(t, way)| && ReadingsFor(t, way)[c].Long()
  {
  }

  /** The whole way: a statement over one table or a join of two, nested or not, listing columns or
      aggregating one. It is refused exactly when a table, a column or a function is unknown, or no
      column is listed; otherwise what it asks for is printed, wherever its comparisons are answered
      as written and the chosen join loses nothing. */
  method Run(text: string, catalog: Catalog, hashJoinEnabled: bool, h: Hash, size: nat,
             ghost x: WrittenQuery, ghost s: Statement, ghost on: Condition)
    returns (r: Ran)
    requires IsStatement(text, x, s, on)
    requires var t := TablesOf(PlaceOf(x), catalog);
             t.Some? ==> StatementRuns(s, t.value, on, hashJoinEnabled, h, size)
    ensures var t := TablesOf(PlaceOf(x), catalog);
            && (r.Refused? <==> !TablesKnown(t, on) || !StatementKnown(s, DescriptionOf(t.value)))
            && (TablesKnown(t, on) && TablesDeliver(t.value, on, hashJoinEnabled, h)
                && NamesKnown(QueryOf(s), DescriptionOf(t.value))
                && FaithfulOn(QueryOf(s), DescriptionOf(t.value), RowsOf(t.value, on))
                ==> r == ResultOfStatement(s, DescriptionOf(t.value), RowsOf(t.value, on)))
  {
    ghost var t := TablesOf(PlaceOf(x), catalog);
    assert StatementWrites(x, s) && GroupsLead(QueryOf(s));
    assert PlaceOf(x).Joined? ==> Writes(PlaceOf(x).on, on);
    ghost var way := Described;
    if t.Some? {
      way :| StatementReads(s, t.value, way) && TablesRun(t.value, on, hashJoinEnabled, h, size, way);
    }
    hide *;
    var nodes := ParseStatement(text, x, s, on);
    InnermostRead(x);
    var from := BuildFrom(InnermostFrom(nodes), catalog, hashJoinEnabled, h, size, PlaceOf(x), on, way);
    if from == None {
      return Refused;
    }
    BottomIsRead(s, t.value, way, from.value.1);
    r := RunTree(nodes, from.value.1, from.value.0, x, s);
  }
}
