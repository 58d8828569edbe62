/** Planning of SELECT: a scan or a sub-query, a filter for WHERE, and a projection, which only
    rewrites the description of the result. */
module SelectPlanner {
  import opened CText
  import opened Filter
  import opened ParseTree
  import opened FilterPlanner
  import opened Bottom

  datatype ColumnRef = ColumnRef(tblref: string, name: string)

  datatype SelectList = Star | Columns(refs: seq<ColumnRef>)

  /** A query without aggregation. */
  datatype Select = Select(list: SelectList, from: From, where: Option<Condition>)

  datatype From = Base | Sub(query: Select)

  /** The operators of a plan; what is at the bottom has a position. */
  datatype Plan =
    | OpScan(bottom: Bottom, desc: ResultSet)
    | OpFilter(ops: seq<FilterOp>, desc: ResultSet, child: Plan)
    | OpProject(desc: ResultSet, child: Plan)

  // ----- projection -----

  function Identity(n: nat): (order: seq<nat>)
    ensures |order| == n && forall i :: 0 <= i < n ==> order[i] == i
  {
    seq(n, i requires 0 <= i < n => i)
  }

  /** The column of a projection: the alias of its table is not copied. */
  function Projected(c: ColumnMetadata, active: bool): ColumnMetadata {
    ColumnMetadata(c.name, "", c.dtype, active)
  }

  function StarProjection(child: ResultSet): (r: ResultSet)
    ensures |r.columns| == |child.columns|
  {
    var cols := child.columns;
    ResultSet(seq(|cols|, i requires 0 <= i < |cols| => Projected(cols[i], cols[i].active)), Identity(|cols|))
  }

  /** Where the listed columns are, in the order of the list; `None` is the exit on one that is
      not there. */
  function Resolve(refs: seq<ColumnRef>, cols: seq<ColumnMetadata>): (r: Option<seq<nat>>)
    ensures r.Some? ==> |r.value| == |refs| && forall i :: 0 <= i < |refs| ==> r.value[i] < |cols|
  {
    if refs == [] then Some([])
    else
      match (FindColIdxInResDesc(cols, refs[0].name, refs[0].tblref), Resolve(refs[1..], cols))
      case (Some(i), Some(rest)) => Some([i] + rest)
      case _ => None
  }

  /** The `k`-th column that is listed is shown as number `k`. */
  lemma {:induction false} ListedAt(refs: seq<ColumnRef>, cols: seq<ColumnMetadata>, k: nat)
    requires Resolve(refs, cols).Some? && k < |refs|
    ensures FindColIdxInResDesc(cols, refs[k].name, refs[k].tblref) == Some(Resolve(refs, cols).value[k])
  {
    if k > 0 {
      ListedAt(refs[1..], cols, k - 1);
    }
    hide FindColIdxInResDesc;
  }

  function ListProjection(order: seq<nat>, child: ResultSet): ResultSet {
    var cols := child.columns;
    ResultSet(seq(|cols|, i requires 0 <= i < |cols| => Projected(cols[i], i in order)), order)
  }

  function Projection(list: SelectList, child: ResultSet): Option<ResultSet> {
    match list
    case Star => Some(StarProjection(child))
    case Columns(refs) =>
      match Resolve(refs, child.columns)
      case None => None
      case Some(order) => Some(ListProjection(order, child))
  }

  /** `makeStarProjection`. */
  method MakeStarProjection(child: ResultSet) returns (r: ResultSet)
    ensures r == StarProjection(child)
  {
    var columns: seq<ColumnMetadata>, order: seq<nat> := [], [];
    var i := 0;
    while i < |child.columns|
      invariant i <= |child.columns| && |columns| == |order| == i
      invariant forall k :: 0 <= k < i ==>
                columns[k] == Projected(child.columns[k], child.columns[k].active) && order[k] == k
    {
      var c := child.columns[i];
      columns := columns + [ColumnMetadata(c.name, "", c.dtype, c.active)];
      order := order + [i];
      i := i + 1;
    }
    r := ResultSet(columns, order);
    assert columns == StarProjection(child).columns && order == Identity(|child.columns|);
  }

  lemma {:induction false} ResolveAppend(a: seq<ColumnRef>, b: seq<ColumnRef>, cols: seq<ColumnMetadata>)
    ensures Resolve(a + b, cols) ==
            match (Resolve(a, cols), Resolve(b, cols))
            case (Some(x), Some(y)) => Some(x + y)
            case _ => None
  {
    if a == [] {
      assert a + b == b;
      assert Resolve(b, cols).Some? ==> [] + Resolve(b, cols).value == Resolve(b, cols).value;
    } else {
      assert (a + b)[0] == a[0] && (a + b)[1..] == a[1..] + b;
      ResolveAppend(a[1..], b, cols);
      var i, x, y := FindColIdxInResDesc(cols, a[0].name, a[0].tblref), Resolve(a[1..], cols), Resolve(b, cols);
      if i.Some? && x.Some? && y.Some? {
        assert [i.value] + (x.value + y.value) == [i.value] + x.value + y.value;
      }
    }
  }

  /** `makeProjectOp`: start from the star, clear every column, then set the listed ones. */
  method MakeProjectOp(list: SelectList, child: ResultSet) returns (r: Option<ResultSet>)
    ensures r == Projection(list, child)
  {
    var star := MakeStarProjection(child);
    if list.Star? {
      return Some(star);
    }
    var n := |child.columns|;
    var columns := star.columns;
    var i := 0;
    while i < n
      invariant i <= n == |columns|
      invariant forall k :: 0 <= k < n ==> columns[k] == Projected(child.columns[k], k >= i && child.columns[k].active)
    {
      columns := columns[i := columns[i].(active := false)];
      i := i + 1;
    }
    r := MarkColumns(list.refs, child, columns);
  }

  /** Find the listed columns one by one, and set each. */
  method MarkColumns(refs: seq<ColumnRef>, child: ResultSet, cleared: seq<ColumnMetadata>)
    returns (r: Option<ResultSet>)
    requires |cleared| == |child.columns|
    requires forall k :: 0 <= k < |cleared| ==> cleared[k] == Projected(child.columns[k], false)
    ensures r == Projection(Columns(refs), child)
  {
    hide Resolve;
    var columns := cleared;
    var order: seq<nat> := [];
    var k := 0;
    ResolveNone(child.columns);
    while k < |refs|
      invariant k <= |refs| && |columns| == |child.columns|
      invariant Resolve(refs[..k], child.columns) == Some(order)
      invariant forall m :: 0 <= m < |columns| ==> columns[m] == Projected(child.columns[m], m in order)
    {
      var j := FindColIdxInResDesc(child.columns, refs[k].name, refs[k].tblref);
      ResolveNext(refs, k, child.columns);
      if j == None {
        return None;
      }
      columns := columns[j.value := columns[j.value].(active := true)];
      order := order + [j.value];
      k := k + 1;
    }
    assert refs[..k] == refs;
    assert columns == ListProjection(order, child).columns;
    return Some(ResultSet(columns, order));
  }

  lemma ResolveNone(cols: seq<ColumnMetadata>)
    ensures Resolve([], cols) == Some([])
  {
  }

  /** One more column is found, or the whole list is refused. */
  lemma ResolveNext(refs: seq<ColumnRef>, k: nat, cols: seq<ColumnMetadata>)
    requires k < |refs| && Resolve(refs[..k], cols).Some?
    ensures match FindColIdxInResDesc(cols, refs[k].name, refs[k].tblref)
            case None => Resolve(refs, cols) == None
            case Some(i) => Resolve(refs[..k + 1], cols) == Some(Resolve(refs[..k], cols).value + [i])
  {
    hide Resolve, FindColIdxInResDesc;
    ResolveAppend(refs[..k], [refs[k]], cols);
    assert refs[..k] + [refs[k]] == refs[..k + 1];
    ResolveOne(refs[k], cols);
    ResolveAppend(refs[..k + 1], refs[k + 1..], cols);
    assert refs[..k + 1] + refs[k + 1..] == refs;
  }

  lemma ResolveOne(c: ColumnRef, cols: seq<ColumnMetadata>)
    ensures Resolve([c], cols) == match FindColIdxInResDesc(cols, c.name, c.tblref)
                                  case None => None
                                  case Some(i) => Some([i])
  {
    ResolveNone(cols);
    assert [c][1..] == [];
    match FindColIdxInResDesc(cols, c.name, c.tblref) {
      case None =>
      case Some(i) =>
        assert [i] + [] == [i];
    }
  }

  // ----- planSelect -----

  /** The filter for WHERE, described like its child. */
  function Filtered(where: Option<Condition>, from: Plan): Option<Plan> {
    match where
    case None => Some(from)
    case Some(c) =>
      match PlanOps(Nodes(c), from.desc)
      case None => None
      case Some(ops) => Some(OpFilter(ops, from.desc, from))
  }

  /** What a query is planned on: the scan or the sub-query, and the filter. */
  function PlanBelow(from: From, where: Option<Condition>, scan: Plan): Option<Plan>
    decreases from, 1
  {
    match (match from case Base => Some(scan) case Sub(inner) => PlanSelect(inner, scan))
    case None => None
    case Some(p) => Filtered(where, p)
  }

  function PlanSelect(q: Select, scan: Plan): Option<Plan>
    decreases q, 2
  {
    match PlanBelow(q.from, q.where, scan)
    case None => None
    case Some(child) =>
      match Projection(q.list, child.desc)
      case None => None
      case Some(desc) => Some(OpProject(desc, child))
  }

  method MakePlanBelow(from: From, where: Option<Condition>, scan: Plan) returns (r: Option<Plan>)
    ensures r == PlanBelow(from, where, scan)
    decreases from, 1
  {
    var p := Some(scan);
    if from.Sub? {
      p := MakePlan(from.query, scan);
    }
    if p == None || where == None {
      return p;
    }
    var ops := MakeFilterOps(Nodes(where.value), p.value.desc);
    if ops == None {
      return None;
    }
    return Some(OpFilter(ops.value, p.value.desc, p.value));
  }

  method MakePlan(q: Select, scan: Plan) returns (r: Option<Plan>)
    ensures r == PlanSelect(q, scan)
    decreases q, 2
  {
    var child := MakePlanBelow(q.from, q.where, scan);
    if child == None {
      return None;
    }
    var desc := MakeProjectOp(q.list, child.value.desc);
    if desc == None {
      return None;
    }
    return Some(OpProject(desc.value, child.value));
  }

  /** A star can be planned on whatever can be planned. */
  lemma StarOfBelow(from: From, where: Option<Condition>, scan: Plan)
    ensures PlanSelect(Select(Star, from, where), scan) ==
            match PlanBelow(from, where, scan)
            case None => None
            case Some(child) => Some(OpProject(StarProjection(child.desc), child))
  {
  }

  function FromPlan(q: Select, scan: Plan): Option<Plan> {
    match q.from
    case Base => Some(scan)
    case Sub(inner) => PlanSelect(inner, scan)
  }

  /** A plan is a projection of the filtered sub-query or scan. */
  lemma PlanShape(q: Select, scan: Plan)
    requires PlanSelect(q, scan).Some?
    ensures var p, from := PlanSelect(q, scan).value, FromPlan(q, scan);
            && p.OpProject? && from.Some? && Filtered(q.where, from.value) == Some(p.child)
            && Projection(q.list, p.child.desc) == Some(p.desc) && p.child.desc == from.value.desc
  {
    assert PlanBelow(q.from, q.where, scan) == Filtered(q.where, FromPlan(q, scan).value);
    hide PlanOps, Projection;
  }

  // ----- what a plan's columns are -----

  /** Same names and types, column by column. */
  ghost predicate SameNames(a: seq<ColumnMetadata>, b: seq<ColumnMetadata>) {
    |a| == |b| && forall i :: 0 <= i < |a| ==> a[i].name == b[i].name && a[i].dtype == b[i].dtype
  }

  /** Same names, aliases and types: references find the same columns. */
  ghost predicate SameReferences(a: seq<ColumnMetadata>, b: seq<ColumnMetadata>) {
    SameNames(a, b) && forall i :: 0 <= i < |a| ==> a[i].resultSetAlias == b[i].resultSetAlias
  }

  /** The columns of the base as a sub-query hands them on: no alias is left. */
  function Outer(base: ResultSet): (r: ResultSet)
    ensures |r.columns| == |base.columns|
  {
    StarProjection(base)
  }

  /** A projection keeps names and types, and drops aliases. */
  lemma ProjectionKeeps(list: SelectList, child: ResultSet)
    requires Projection(list, child).Some?
    ensures SameReferences(Projection(list, child).value.columns, Outer(child).columns)
  {
  }

  lemma OuterOfSame(a: ResultSet, b: ResultSet)
    requires SameNames(a.columns, b.columns)
    ensures SameReferences(Outer(a).columns, Outer(b).columns)
  {
  }

  lemma SameReferencesThrough(a: seq<ColumnMetadata>, b: seq<ColumnMetadata>, c: seq<ColumnMetadata>)
    requires SameReferences(a, b) && SameReferences(b, c)
    ensures SameReferences(a, c)
  {
  }

  /** However deep the query, column `i` of the plan has the name and the type of column `i` of
      the scan. */
  lemma {:induction false} PlanKeepsColumns(q: Select, scan: Plan)
    requires PlanSelect(q, scan).Some?
    ensures SameReferences(PlanSelect(q, scan).value.desc.columns, Outer(scan.desc).columns)
  {
    PlanShape(q, scan);
    var from := FromPlan(q, scan).value;
    ProjectionKeeps(q.list, from.desc);
    hide PlanSelect, PlanBelow, Filtered, Projection;
    if q.from.Sub? {
      PlanKeepsColumns(q.from.query, scan);
    }
    OuterOfSame(from.desc, scan.desc);
    hide SameReferences;
    SameReferencesThrough(PlanSelect(q, scan).value.desc.columns, Outer(from.desc).columns, Outer(scan.desc).columns);
  }

  lemma {:induction false} SameFind(a: seq<ColumnMetadata>, b: seq<ColumnMetadata>, name: string, tblref: string)
    requires SameReferences(a, b)
    ensures FindColIdxInResDesc(a, name, tblref) == FindColIdxInResDesc(b, name, tblref)
    decreases |a|
  {
    if a != [] {
      assert SameReferences(a[1..], b[1..]);
      SameFind(a[1..], b[1..], name, tblref);
    }
  }

  lemma {:induction false} SameResolve(refs: seq<ColumnRef>, a: seq<ColumnMetadata>, b: seq<ColumnMetadata>)
    requires SameReferences(a, b)
    ensures Resolve(refs, a) == Resolve(refs, b)
  {
    if refs != [] {
      SameFind(a, b, refs[0].name, refs[0].tblref);
      SameResolve(refs[1..], a, b);
    }
  }

  /** The columns the executor prints: the order of the projection, active ones only. */
  function Shown(desc: ResultSet): seq<nat> {
    ShownFrom(desc.columns, desc.columnOrder)
  }

  function ShownFrom(cols: seq<ColumnMetadata>, order: seq<nat>): (r: seq<nat>)
    ensures forall k :: 0 <= k < |r| ==> r[k] < |cols|
  {
    if order == [] then []
    else (if order[0] < |cols| && cols[order[0]].active then [order[0]] else []) + ShownFrom(cols, order[1..])
  }

  lemma {:induction false} AllShown(cols: seq<ColumnMetadata>, order: seq<nat>)
    requires forall i :: 0 <= i < |order| ==> order[i] < |cols| && cols[order[i]].active
    ensures ShownFrom(cols, order) == order
  {
    if order != [] {
      AllShown(cols, order[1..]);
    }
  }

  /** A list shows the listed columns in the order of the list, found among all columns of the
      base: what a sub-query selects hides none of them. */
  lemma ListShows(q: Select, scan: Plan)
    requires q.list.Columns? && PlanSelect(q, scan).Some?
    ensures var cols := if q.from.Base? then scan.desc.columns else Outer(scan.desc).columns;
            Some(Shown(PlanSelect(q, scan).value.desc)) == Resolve(q.list.refs, cols)
  {
    PlanShape(q, scan);
    hide PlanSelect, PlanBelow, Filtered;
    var from := FromPlan(q, scan).value;
    if q.from.Sub? {
      PlanKeepsColumns(q.from.query, scan);
      SameResolve(q.list.refs, from.desc.columns, Outer(scan.desc).columns);
    }
    var order := Resolve(q.list.refs, from.desc.columns).value;
    AllShown(ListProjection(order, from.desc).columns, order);
  }

  ghost predicate Ascending(s: seq<nat>) {
    forall i, j :: 0 <= i < j < |s| ==> s[i] < s[j]
  }

  lemma {:induction false} ShownMembers(cols: seq<ColumnMetadata>, order: seq<nat>, c: nat)
    ensures c in ShownFrom(cols, order) <==> c in order && c < |cols| && cols[c].active
  {
    if order != [] {
      ShownMembers(cols, order[1..], c);
    }
  }

  lemma {:induction false} ShownAscends(cols: seq<ColumnMetadata>, order: seq<nat>)
    requires Ascending(order)
    ensures Ascending(ShownFrom(cols, order))
  {
    if order != [] {
      assert Ascending(order[1..]) by {
        assert forall i, j :: 0 <= i < j < |order[1..]| ==>
              order[1..][i] == order[i + 1] && order[1..][j] == order[j + 1];
      }
      ShownAscends(cols, order[1..]);
      var rest := ShownFrom(cols, order[1..]);
      forall c | c in ShownFrom(cols, order[1..])
        ensures order[0] < c
      {
        ShownMembers(cols, order[1..], c);
        var k :| 0 <= k < |order[1..]| && order[1..][k] == c;
        assert order[0] < order[k + 1];
      }
      assert forall j :: 0 <= j < |rest| ==> rest[j] in rest;
    }
  }

  lemma Members(t: seq<nat>)
    ensures t != [] ==> exists c: nat :: c in t
  {
    if t != [] {
      assert t[0] in t;
    }
  }

  /** Two ascending lists of the same numbers are the same list. */
  lemma {:induction false} AscendingUnique(s: seq<nat>, t: seq<nat>)
    requires Ascending(s) && Ascending(t) && forall c: nat :: c in s <==> c in t
    ensures s == t
    decreases |s|
  {
    Members(s);
    Members(t);
    if s != [] {
      assert s[0] in t;
      assert t[0] in s;
      assert s[0] == t[0];
      forall c: nat
        ensures c in s[1..] <==> c in t[1..]
      {
        assert c in s[1..] <==> c in s && c != s[0];
        assert c in t[1..] <==> c in t && c != t[0];
      }
      AscendingUnique(s[1..], t[1..]);
    }
  }

  /** Every active column of a projection is in its order. */
  lemma {:induction false} ActiveIsOrdered(q: Select, scan: Plan, c: nat)
    requires PlanSelect(q, scan).Some?
    ensures var desc := PlanSelect(q, scan).value.desc;
            c < |desc.columns| && desc.columns[c].active ==> c in desc.columnOrder
  {
    var desc := PlanSelect(q, scan).value.desc;
    if q.list.Star? && c < |desc.columns| {
      assert desc.columnOrder[c] == c;
    }
  }

  /** A star over a sub-query shows the sub-query's columns, but in the order of the base. */
  lemma StarShows(inner: Select, where: Option<Condition>, scan: Plan)
    requires PlanSelect(inner, scan).Some? && PlanSelect(Select(Star, Sub(inner), where), scan).Some?
    ensures var shown := Shown(PlanSelect(Select(Star, Sub(inner), where), scan).value.desc);
            var sub := Shown(PlanSelect(inner, scan).value.desc);
            && Ascending(shown) && (forall c: nat :: c in shown <==> c in sub)
            && (shown == sub <==> Ascending(sub))
  {
    var d := PlanSelect(inner, scan).value.desc;
    var star := StarProjection(d);
    var shown, sub := Shown(star), Shown(d);
    ShownAscends(star.columns, star.columnOrder);
    forall c: nat
      ensures c in shown <==> c in sub
    {
      ShownMembers(star.columns, star.columnOrder, c);
      ShownMembers(d.columns, d.columnOrder, c);
      ActiveIsOrdered(inner, scan, c);
      if c < |d.columns| {
        assert star.columnOrder[c] == c;
      }
    }
    if Ascending(sub) {
      AscendingUnique(shown, sub);
    }
  }

  // ----- the columns that a query shows -----

  /** The names a level of the query sees: those of the base, or those without aliases. */
  function Seen(from: From, base: ResultSet): (r: ResultSet)
    ensures |r.columns| == |base.columns|
  {
    if from.Base? then base else Outer(base)
  }

  /** Every select list names columns that its level sees. */
  predicate ListsKnown(q: Select, base: ResultSet) {
    && (q.list.Columns? ==> Resolve(q.list.refs, Seen(q.from, base).columns).Some?)
    && (q.from.Sub? ==> ListsKnown(q.from.query, base))
  }

  /** The numbers below `n` that are kept, in ascending order. */
  function InOrder(keep: seq<nat>, n: nat): (r: seq<nat>)
    ensures forall c: nat :: c in r <==> c in keep && c < n
    ensures forall k :: 0 <= k < |r| ==> r[k] < n
  {
    if n == 0 then []
    else
      var below := InOrder(keep, n - 1);
      if n - 1 in keep then below + [n - 1] else below
  }

  /** The columns of the answer: those of the list in its order; for a star those of the sub-query,
      or the active ones of the base, in the order of the base. */
  function ShownOf(q: Select, base: ResultSet): (r: seq<nat>)
    requires ListsKnown(q, base)
    ensures forall k :: 0 <= k < |r| ==> r[k] < |base.columns|
  {
    match q.list
    case Columns(refs) => Resolve(refs, Seen(q.from, base).columns).value
    case Star =>
      var sub :=
        if q.from.Base? then ShownFrom(base.columns, Identity(|base.columns|)) else ShownOf(q.from.query, base);
      InOrder(sub, |base.columns|)
  }

  lemma {:induction false} InOrderAscends(keep: seq<nat>, n: nat)
    ensures Ascending(InOrder(keep, n))
  {
    if n > 0 {
      InOrderAscends(keep, n - 1);
      var below := InOrder(keep, n - 1);
      assert forall k :: 0 <= k < |below| ==> below[k] in below;
    }
  }

  /** The star over the base. */
  lemma BaseShows(base: ResultSet)
    ensures Shown(StarProjection(base)) == InOrder(ShownFrom(base.columns, Identity(|base.columns|)), |base.columns|)
  {
    var n, star := |base.columns|, StarProjection(base);
    InOrderAscends(ShownFrom(base.columns, Identity(n)), n);
    ShownAscends(star.columns, star.columnOrder);
    forall c: nat
      ensures c in Shown(star) <==> c in InOrder(ShownFrom(base.columns, Identity(n)), n)
    {
      ShownMembers(star.columns, Identity(n), c);
      ShownMembers(base.columns, Identity(n), c);
    }
    AscendingUnique(Shown(star), InOrder(ShownFrom(base.columns, Identity(n)), n));
  }

  /** What the executor prints of a planned query, at any depth, are the query's columns. */
  lemma {:induction false} QueryShows(q: Select, scan: Plan)
    requires PlanSelect(q, scan).Some? && ListsKnown(q, scan.desc)
    ensures Shown(PlanSelect(q, scan).value.desc) == ShownOf(q, scan.desc)
  {
    var p, base := PlanSelect(q, scan).value, scan.desc;
    if q.list.Columns? {
      ListShows(q, scan);
    } else if q.from.Base? {
      BaseShows(base);
    } else {
      var inner := q.from.query;
      QueryShows(inner, scan);
      StarShows(inner, q.where, scan);
      assert q == Select(Star, Sub(inner), q.where);
      var sub := ShownOf(inner, base);
      InOrderAscends(sub, |base.columns|);
      assert forall c: nat :: c in sub ==> c < |base.columns|;
      assert forall c: nat :: c in Shown(p.desc) <==> c in InOrder(sub, |base.columns|);
      AscendingUnique(Shown(p.desc), InOrder(sub, |base.columns|));
    }
  }
}
