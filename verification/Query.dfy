/** Which query a text writes, and the plan of its tree. */
module Query {
  import opened CText
  import opened ParseTree
  import opened WrittenText
  import opened QueryText
  import opened FilterPlanner
  import opened SelectPlanner
  import Where

  // ----- planning the tree -----

  /** The select list of a child chain: a star, if that comes first, or else column references. */
  function ListOf(items: seq<Node>): SelectList {
    if items != [] && items[0].kind == STAR then Star else Columns(RefsOf(items))
  }

  function RefsOf(items: seq<Node>): seq<ColumnRef> {
    if items == [] then [] else [ColumnRef(items[0].tblref, items[0].content)] + RefsOf(items[1..])
  }

  /** The first function call of a chain. */
  function FirstCall(items: seq<Node>): (r: Option<Node>)
    ensures r.Some? ==> r.value in items && r.value.kind == IDENT_FUN
  {
    if items == [] then None else if items[0].kind == IDENT_FUN then Some(items[0]) else FirstCall(items[1..])
  }

  /** The filter for the WHERE node, if the chain has one. */
  function FilteredNodes(chain: seq<Node>, from: Plan): Option<Plan> {
    if |chain| <= 2 then Some(from)
    else
      match PlanOps(chain[2].child, from.desc)
      case None => None
      case Some(ops) => Some(OpFilter(ops, from.desc, from))
  }

  /** What `planSelect` plans first on the chain SELECT, FROM, WHERE; a sub-query is the child chain
      of FROM, and whatever else stands there is scanned by `scan`. */
  function TreeBelow(chain: seq<Node>, scan: Plan): Option<Plan>
    decreases chain, 1
  {
    if |chain| < 2 || chain[1].child == [] then None
    else
      match (if chain[1].child[0].kind == SELECT then PlanTree(chain[1].child, scan) else Some(scan))
      case None => None
      case Some(from) => FilteredNodes(chain, from)
  }

  /** And the projection. A sub-query that calls a function is not part of this model. */
  function PlanTree(chain: seq<Node>, scan: Plan): Option<Plan>
    decreases chain, 2
  {
    if chain == [] || FirstCall(chain[0].child).Some? then None
    else
      match TreeBelow(chain, scan)
      case None => None
      case Some(child) =>
        match Projection(ListOf(chain[0].child), child.desc)
        case None => None
        case Some(desc) => Some(OpProject(desc, child))
  }

  /** The loop of `buildSelect`. */
  method FindCall(items: seq<Node>) returns (r: Option<Node>)
    ensures r == FirstCall(items)
  {
    var i := 0;
    assert items[0..] == items;
    while i < |items|
      invariant i <= |items| && FirstCall(items) == FirstCall(items[i..])
    {
      assert items[i..][0] == items[i] && items[i..][1..] == items[i + 1..];
      if items[i].kind == IDENT_FUN {
        return Some(items[i]);
      }
      i := i + 1;
    }
    return None;
  }

  method MakeTreeBelow(chain: seq<Node>, scan: Plan) returns (r: Option<Plan>)
    ensures r == TreeBelow(chain, scan)
    decreases chain, 1
  {
    if |chain| < 2 || chain[1].child == [] {
      return None;
    }
    var from := Some(scan);
    if chain[1].child[0].kind == SELECT {
      from := MakePlanOfTree(chain[1].child, scan);
    }
    if from == None || |chain| == 2 {
      return from;
    }
    var ops := MakeFilterOps(chain[2].child, from.value.desc);
    if ops == None {
      return None;
    }
    return Some(OpFilter(ops.value, from.value.desc, from.value));
  }

  method MakePlanOfTree(chain: seq<Node>, scan: Plan) returns (r: Option<Plan>)
    ensures r == PlanTree(chain, scan)
    decreases chain, 2
  {
    if chain == [] {
      return None;
    }
    var call := FindCall(chain[0].child);
    if call.Some? {
      return None;
    }
    var child := MakeTreeBelow(chain, scan);
    if child == None {
      return None;
    }
    var desc := MakeProjectOp(ListOf(chain[0].child), child.value.desc);
    if desc == None {
      return None;
    }
    return Some(OpProject(desc.value, child.value));
  }

  // ----- which query a text writes -----

  function RefOf(o: Operand): ColumnRef
    requires o.Column?
  {
    ColumnRef(o.tblref, o.name)
  }

  predicate ItemsWrite(x: Items, list: SelectList) {
    match list
    case Star => x.item.StarItem? && x.rest.None?
    case Columns(refs) => RefsWritten(x, refs)
  }

  predicate RefsWritten(x: Items, refs: seq<ColumnRef>) {
    && refs != [] && x.item.ColumnItem? && x.item.o.Column? && RefOf(x.item.o) == refs[0]
    && (if x.rest.None? then |refs| == 1 else RefsWritten(x.rest.value, refs[1..]))
  }

  /** The text `x` writes a query from `from` with the condition `where`. */
  predicate BelowWrites(x: WrittenQuery, from: From, where: Option<Condition>)
    decreases x, 1
  {
    && (match from
        case Base => !x.place.Nested?
        case Sub(inner) => x.place.Nested? && QueryWrites(x.place.q, inner))
    && (match where
        case None => x.where.None?
        case Some(c) => x.where.Some? && Writes(x.where.value.x, c))
  }

  /** The text `x` writes the query `q`. */
  predicate QueryWrites(x: WrittenQuery, q: Select)
    decreases x, 2
  {
    ItemsWrite(x.items, q.list) && BelowWrites(x, q.from, q.where)
  }

  /** The first call in a list, with its arguments. */
  function CallOf(x: Items): Option<(string, Items)> {
    if x.item.CallItem? then Some((x.item.f, x.item.args))
    else if x.rest.Some? then CallOf(x.rest.value)
    else None
  }

  /** A query with a list of columns, or with a function of one column. */
  datatype Statement =
    | Listing(q: Select)
    | Aggregation(f: string, column: string, from: From, where: Option<Condition>)

  predicate Names(i: ListItem, column: string) {
    i.ColumnItem? && i.o.Column? && i.o.name == column
  }

  predicate StatementWrites(x: WrittenQuery, s: Statement) {
    match s
    case Listing(q) => QueryWrites(x, q)
    case Aggregation(f, column, from, where) =>
      && CallOf(x.items).Some? && CallOf(x.items).value.0 == f && Names(CallOf(x.items).value.1.item, column)
      && BelowWrites(x, from, where)
  }

  lemma {:induction false} RefsRead(x: Items, refs: seq<ColumnRef>)
    requires RefsWritten(x, refs)
    ensures RefsOf(ItemsAdd(x)) == refs && ItemsAdd(x) != []
    ensures forall i :: 0 <= i < |ItemsAdd(x)| ==> ItemsAdd(x)[i].kind == IDENT_COL
  {
    assert refs == [refs[0]] + refs[1..];
    if x.rest.Some? {
      RefsRead(x.rest.value, refs[1..]);
    } else {
      assert refs[1..] == [] && RefsOf([]) == [];
      assert ItemsAdd(x)[1..] == [];
    }
  }

  lemma {:induction false} NoCallIn(items: seq<Node>)
    requires forall i :: 0 <= i < |items| ==> items[i].kind != IDENT_FUN
    ensures FirstCall(items) == None
  {
    if items != [] {
      NoCallIn(items[1..]);
    }
  }

  lemma ListRead(x: Items, list: SelectList)
    requires ItemsWrite(x, list)
    ensures ListOf(ItemsNodes(x)) == list && FirstCall(ItemsNodes(x)) == None
  {
    if list.Columns? {
      RefsRead(x, list.refs);
    } else {
      assert ItemsAdd(x) == [Leaf(STAR, "*")];
    }
    NestsPlain(ItemsAdd(x));
    NoCallIn(ItemsAdd(x));
  }

  /** In the tree of a list the first call is found, with its first argument. */
  lemma {:induction false} FirstCallRead(x: Items)
    ensures match CallOf(x)
            case None => FirstCall(ItemsNodes(x)) == None
            case Some(call) =>
              var node := FirstCall(ItemsNodes(x));
              && node.Some? && node.value.content == call.0 && node.value.child != []
              && node.value.child[0].kind == ItemsAdd(call.1)[0].kind
              && node.value.child[0].content == ItemsAdd(call.1)[0].content
  {
    var added := ItemsAdd(x);
    if x.item.CallItem? {
      var args := ItemsAdd(x.item.args);
      var more := args + if x.rest.Some? then ItemsAdd(x.rest.value) else [];
      assert added == [Leaf(IDENT_FUN, x.item.f)] + more;
      NestsNext(Leaf(IDENT_FUN, x.item.f), more);
      NestsFirst(more);
      hide Nest, ItemsAdd;
    } else {
      var n := ItemAdds(x.item)[0];
      if x.rest.Some? {
        FirstCallRead(x.rest.value);
        assert added == [n] + ItemsAdd(x.rest.value);
        NestsNext(n, ItemsAdd(x.rest.value));
        var rest := ItemsNodes(x.rest.value);
        assert ([n] + rest)[1..] == rest;
        hide Nest, ItemsAdd;
      } else {
        assert added == [n];
        NestsPlain(added);
        NoCallIn(added);
      }
    }
  }

  /** Planning the tree of a text, up to its list, is planning what the text writes. */
  lemma {:induction false} TreePlansBelow(x: WrittenQuery, from: From, where: Option<Condition>, scan: Plan)
    requires BelowWrites(x, from, where)
    ensures TreeBelow(QueryNodes(x), scan) == PlanBelow(from, where, scan)
    decreases x, 1
  {
    hide Writes, ItemsWrite, PlanOps, Projection, ListOf, ItemsNodes, NodesOf, Nodes;
    if where.Some? {
      WritesNodes(x.where.value.x, where.value);
    }
    if from.Sub? {
      TreePlansQuery(x.place.q, from.query, scan);
    }
  }

  /** Planning the tree of a text is planning the query it writes. */
  lemma {:induction false} TreePlansQuery(x: WrittenQuery, q: Select, scan: Plan)
    requires QueryWrites(x, q)
    ensures PlanTree(QueryNodes(x), scan) == PlanSelect(q, scan)
    decreases x, 2
  {
    TreePlansBelow(x, q.from, q.where, scan);
    ListRead(x.items, q.list);
    hide Writes, ItemsWrite, TreeBelow, PlanBelow, Projection, ListOf, ItemsNodes, NodesOf;
  }

  // ----- every query can be written -----

  /** Column names and conditions that can be spelled. */
  predicate WritableBelow(from: From, where: Option<Condition>)
    decreases from, 1
  {
    (from.Sub? ==> Writable(from.query)) && (where.Some? ==> Where.Writable(where.value))
  }

  predicate Writable(q: Select)
    decreases q, 2
  {
    && (q.list.Columns? ==>
          q.list.refs != []
          && forall i :: 0 <= i < |q.list.refs| ==> WellSpelled(Column(q.list.refs[i].tblref, q.list.refs[i].name)))
    && WritableBelow(q.from, q.where)
  }

  predicate WritableStatement(s: Statement) {
    match s
    case Listing(q) => Writable(q)
    case Aggregation(f, column, from, where) =>
      WellItem(CallItem(f, NoItems())) && WellSpelled(Column("", column)) && WritableBelow(from, where)
  }

  function CanonicalItems(refs: seq<ColumnRef>): Items
    requires refs != []
  {
    var item := ColumnItem(Column(refs[0].tblref, refs[0].name));
    if |refs| == 1 then Items(" ", item, " ", None) else Items(" ", item, "", Some(CanonicalItems(refs[1..])))
  }

  function CanonicalCall(f: string, column: string): Items {
    Items(" ", CallItem(f, Items("", ColumnItem(Column("", column)), "", None)), " ", None)
  }

  function CanonicalBelow(items: Items, from: From, where: Option<Condition>, place: Place): WrittenQuery
    requires WritableBelow(from, where)
    decreases from, 1
  {
    WrittenQuery(
      "", items, " ",
      match from case Base => place case Sub(inner) => Nested(Canonical(inner, place), " ", None),
      match where case None => None case Some(c) => Some(WrittenWhere(" ", Where.Canonical(c))))
  }

  /** The text with one blank between its words, over one table or a join of two. */
  function Canonical(q: Select, place: Place): WrittenQuery
    requires Writable(q)
    decreases q, 2
  {
    CanonicalBelow(if q.list.Star? then Items(" ", StarItem, " ", None) else CanonicalItems(q.list.refs),
                   q.from, q.where, place)
  }

  function CanonicalStatement(s: Statement, place: Place): WrittenQuery
    requires WritableStatement(s)
  {
    match s
    case Listing(q) => Canonical(q, place)
    case Aggregation(f, column, from, where) => CanonicalBelow(CanonicalCall(f, column), from, where, place)
  }

  lemma {:induction false} CanonicalItemsWrite(refs: seq<ColumnRef>)
    requires refs != []
    requires forall i :: 0 <= i < |refs| ==> WellSpelled(Column(refs[i].tblref, refs[i].name))
    ensures var x := CanonicalItems(refs); RefsWritten(x, refs) && WellItems(x) && ItemsEndBlank(x)
  {
    hide WellSpelled;
    if |refs| > 1 {
      CanonicalItemsWrite(refs[1..]);
    }
  }

  lemma StarIsWell()
    ensures WellItems(Items(" ", StarItem, " ", None)) && ItemsEndBlank(Items(" ", StarItem, " ", None))
  {
  }

  lemma CanonicalCallIsWell(f: string, column: string)
    requires WellItem(CallItem(f, NoItems())) && WellSpelled(Column("", column))
    ensures WellItems(CanonicalCall(f, column)) && ItemsEndBlank(CanonicalCall(f, column))
  {
    var args := Items("", ColumnItem(Column("", column)), "", None);
    assert WellItems(args);
    assert WellItem(CallItem(f, args));
    hide WellSpelled;
  }

  /** A place that can stand before WHERE can stand at the end. */
  ghost predicate Placeable(place: Place) {
    !place.Nested? && PlaceStands(place, "W") && PlaceStands(place, "")
  }

  lemma {:induction false} CanonicalBelowWrites(items: Items, from: From, where: Option<Condition>, place: Place)
    requires WritableBelow(from, where) && Placeable(place) && WellItems(items) && ItemsEndBlank(items)
    ensures var x := CanonicalBelow(items, from, where, place); BelowWrites(x, from, where) && WellQuery(x)
    decreases from, 1
  {
    hide WellSpelled, WellItems, WellWritten, Writes, RefsWritten, ItemsEndBlank, OriginStands, JoinStands;
    if from.Sub? {
      CanonicalWritesQuery(from.query, place);
    }
    if where.Some? {
      Where.CanonicalWrites(where.value);
    }
  }

  lemma {:induction false} CanonicalWritesQuery(q: Select, place: Place)
    requires Writable(q) && Placeable(place)
    ensures QueryWrites(Canonical(q, place), q) && WellQuery(Canonical(q, place))
    decreases q, 2
  {
    var items := if q.list.Star? then Items(" ", StarItem, " ", None) else CanonicalItems(q.list.refs);
    if q.list.Columns? {
      CanonicalItemsWrite(q.list.refs);
    } else {
      StarIsWell();
    }
    CanonicalBelowWrites(items, q.from, q.where, place);
    hide WellSpelled, WellItems, WellQuery, RefsWritten, BelowWrites, CanonicalBelow, Placeable;
  }

  /** Every statement of spellable names and conditions can be written, over every place. */
  lemma CanonicalWrites(s: Statement, place: Place)
    requires WritableStatement(s) && Placeable(place)
    ensures StatementWrites(CanonicalStatement(s, place), s) && WellQuery(CanonicalStatement(s, place))
  {
    match s {
      case Listing(q) =>
        CanonicalWritesQuery(q, place);
      case Aggregation(f, column, from, where) =>
        CanonicalCallIsWell(f, column);
        CanonicalBelowWrites(CanonicalCall(f, column), from, where, place);
    }
    hide WellSpelled, WellItems, WellQuery, QueryWrites, BelowWrites, CanonicalBelow, Canonical, Placeable;
  }
}
