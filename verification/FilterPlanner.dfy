/** From the node chain of a WHERE or ON clause to the list of filter operators. */
module FilterPlanner {
  import opened CText
  import opened Filter
  import opened ParseTree

  datatype ColumnMetadata = ColumnMetadata(name: string, resultSetAlias: string, dtype: Datatype, active: bool)

  datatype ResultSet = ResultSet(columns: seq<ColumnMetadata>, columnOrder: seq<nat>)

  function TypesOf(cols: seq<ColumnMetadata>): (d: seq<Datatype>)
    ensures |d| == |cols|
  {
    seq(|cols|, i requires 0 <= i < |cols| => cols[i].dtype)
  }

  /** The first column with that name and table alias; `None` is the exit when there is none. */
  function FindColIdxInResDesc(cols: seq<ColumnMetadata>, name: string, tblref: string): (r: Option<nat>)
    ensures r.Some? ==> r.value < |cols| && cols[r.value].name == name && cols[r.value].resultSetAlias == tblref
    ensures forall i :: 0 <= i < (if r.Some? then r.value else |cols|) ==>
              !(cols[i].name == name && cols[i].resultSetAlias == tblref)
  {
    if cols == [] then None
    else if cols[0].name == name && cols[0].resultSetAlias == tblref then Some(0)
    else
      match FindColIdxInResDesc(cols[1..], name, tblref)
      case None => None
      case Some(i) => Some(i + 1)
  }

  function MapNodeTypeToDataType(kind: NodeType): Datatype {
    match kind
    case NUMBER => DTYPE_LONG
    case STRING => DTYPE_STR
    case _ => DTYPE_UNDEFINED
  }

  function MapBoolOpToInt(content: string): Option<int> {
    if content == "=" then Some(-1)
    else if content == "!=" then Some(-2)
    else if content == "<" then Some(-3)
    else if content == ">" then Some(-4)
    else if content == ">=" then Some(-5)
    else if content == "<=" then Some(-6)
    else None
  }

  function DeduceComparisonType(left: NodeType, right: NodeType): ComparisonType {
    if left == IDENT_COL && right == IDENT_COL then CMP_COL_COL
    else if left == IDENT_COL then CMP_COL_CONST
    else if right == IDENT_COL then CMP_CONST_COL
    else CMP_CONST_CONST
  }

  /** Location, type and constants of one side of a comparison. */
  function MakeSide(n: Node, desc: ResultSet): Option<Side> {
    if n.kind == IDENT_COL then
      match FindColIdxInResDesc(desc.columns, n.content, n.tblref)
      case None => None
      case Some(i) => Some(Side(i, desc.columns[i].dtype, "", 0))
    else
      Some(Side(-1, MapNodeTypeToDataType(n.kind),
                if n.kind in {STRING, NUMBER} then n.content else "",
                if n.kind == NUMBER then Atol(n.content) else 0))
  }

  /** One comparison, from the first three nodes of the chain; `None` is an exit.
      A connector that was never set is only read when no operator follows. */
  function MakeFilterOp(chain: seq<Node>, desc: ResultSet): (r: Option<FilterOp>)
    ensures r.Some? ==> r.value.Comparison?
  {
    if |chain| < 3 || chain[1].kind != BOOLOP then None
    else
      match (MakeSide(chain[0], desc), MakeSide(chain[2], desc), MapBoolOpToInt(chain[1].content))
      case (Some(l), Some(r), Some(op)) =>
        Some(Comparison(l, op, r, DeduceComparisonType(chain[0].kind, chain[2].kind), AND))
      case _ => None
  }

  function ConnectorOf(kind: NodeType): Option<Connector> {
    match kind
    case NODE_AND => Some(AND)
    case NODE_OR => Some(OR)
    case _ => None
  }

  function WithConnector(op: FilterOp, conn: Connector): FilterOp
    requires op.Comparison?
  {
    Comparison(op.left, op.boolOp, op.right, op.compType, conn)
  }

  /** `ops` in front of a list that was planned. */
  function Prepend(ops: seq<FilterOp>, planned: Option<seq<FilterOp>>): Option<seq<FilterOp>> {
    match planned
    case None => None
    case Some(rest) => Some(ops + rest)
  }

  /** The operators of a chain of comparisons, four nodes apart. */
  function PlanComparisons(chain: seq<Node>, desc: ResultSet): Option<seq<FilterOp>> {
    match MakeFilterOp(chain, desc)
    case None => None
    case Some(op) =>
      if |chain| <= 4 then Some([op])
      else
        match (ConnectorOf(chain[3].kind), PlanComparisons(chain[4..], desc))
        case (Some(conn), Some(rest)) => Some([WithConnector(op, conn)] + rest)
        case _ => None
  }

  function PlanOps(chain: seq<Node>, desc: ResultSet): Option<seq<FilterOp>> {
    if chain == [] then None
    else if chain[0].kind != OPAREN then PlanComparisons(chain, desc)
    else
      match PlanOps(chain[0].child, desc)
      case None => None
      case Some(child) =>
        if |chain| <= 2 || chain[1].kind == CPAREN then Some([Parenthesis(child, AND)])
        else
          match (ConnectorOf(chain[1].kind), PlanOps(chain[2..], desc))
          case (Some(conn), Some(rest)) => Some([Parenthesis(child, conn)] + rest)
          case _ => None
  }

  /** `_makeFilterOps`. */
  method MakeFilterOps(chain: seq<Node>, desc: ResultSet) returns (r: Option<seq<FilterOp>>)
    ensures r == PlanOps(chain, desc)
    decreases chain
  {
    if chain == [] {
      return None;
    }
    if chain[0].kind == OPAREN {
      var child := MakeFilterOps(chain[0].child, desc);
      if child == None {
        return None;
      }
      if |chain| == 1 || chain[1].kind == CPAREN || |chain| == 2 {
        return Some([Parenthesis(child.value, AND)]);
      }
      var conn := ConnectorOf(chain[1].kind);
      var next := MakeFilterOps(chain[2..], desc);
      if conn == None || next == None {
        return None;
      }
      return Some([Parenthesis(child.value, conn.value)] + next.value);
    }
    r := MakeComparisons(chain, desc);
  }

  lemma PrependNothing(planned: Option<seq<FilterOp>>)
    ensures Prepend([], planned) == planned
  {
    if planned.Some? {
      assert [] + planned.value == planned.value;
    }
  }

  lemma PrependTwice(a: seq<FilterOp>, b: seq<FilterOp>, planned: Option<seq<FilterOp>>)
    ensures Prepend(a, Prepend(b, planned)) == Prepend(a + b, planned)
  {
    if planned.Some? {
      assert a + (b + planned.value) == a + b + planned.value;
    }
  }

  /** The comparison at place `i`, and the rest of the chain. */
  lemma NextPlanned(chain: seq<Node>, i: nat, desc: ResultSet)
    requires i <= |chain|
    ensures PlanComparisons(chain[i..], desc) ==
            match MakeFilterOp(chain[i..], desc)
            case None => None
            case Some(op) =>
              if i + 4 >= |chain| then Some([op])
              else
                match ConnectorOf(chain[i + 3].kind)
                case None => None
                case Some(conn) => Prepend([WithConnector(op, conn)], PlanComparisons(chain[i + 4..], desc))
  {
    if i + 4 < |chain| {
      assert chain[i..][3] == chain[i + 3] && chain[i..][4..] == chain[i + 4..];
    }
    hide MakeFilterOp, WithConnector;
  }

  /** Its loop: append an operator for every fourth node, and put each connector on the
      operator before it. */
  method MakeComparisons(chain: seq<Node>, desc: ResultSet) returns (r: Option<seq<FilterOp>>)
    ensures r == PlanComparisons(chain, desc)
  {
    hide PlanComparisons, MakeFilterOp, WithConnector;
    assert chain[0..] == chain;
    NextPlanned(chain, 0, desc);
    PrependNothing(PlanComparisons(chain, desc));
    var op := MakeFilterOp(chain, desc);
    if op == None {
      return None;
    }
    var ops := [op.value];
    var i := 0;
    while i + 4 < |chain|
      invariant i <= |chain| && ops != [] && Some(ops[|ops| - 1]) == MakeFilterOp(chain[i..], desc)
      invariant PlanComparisons(chain, desc) == Prepend(ops[..|ops| - 1], PlanComparisons(chain[i..], desc))
    {
      NextPlanned(chain, i, desc);
      var optype := ConnectorOf(chain[i + 3].kind);
      if optype == None {
        return None;
      }
      i := i + 4;
      NextPlanned(chain, i, desc);
      op := MakeFilterOp(chain[i..], desc);
      if op == None {
        return None;
      }
      var last := |ops| - 1;
      ghost var done := ops[..last];
      ops := ops[last := WithConnector(ops[last], optype.value)] + [op.value];
      assert ops[..last + 1] == done + [ops[last]];
      PrependTwice(done, [ops[last]], PlanComparisons(chain[i..], desc));
    }
    NextPlanned(chain, i, desc);
    assert ops == ops[..|ops| - 1] + [ops[|ops| - 1]];
    return Some(ops);
  }
}
