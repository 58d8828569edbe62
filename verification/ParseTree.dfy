/** The nodes of the parse tree, and the conditions that can be written after WHERE and ON. */
module ParseTree {
  import opened Filter

  datatype NodeType =
    | IDENT_COL | IDENT_FUN | IDENT_TBL | STRING | NUMBER | STAR | BOOLOP
    | NODE_AND | NODE_OR | OPAREN | CPAREN
    | SELECT | FROM | WHERE | JOIN | ON | FILEPATH

  /** A node with its child chain. The `next` chain a node belongs to is a sequence of nodes. */
  datatype Node = Node(kind: NodeType, content: string, tblref: string, child: seq<Node>, alias: string)

  function Leaf(kind: NodeType, content: string): Node {
    Node(kind, content, "", [], "")
  }

  function Branch(kind: NodeType, content: string, child: seq<Node>): Node {
    Node(kind, content, "", child, "")
  }

  /** From the start of a chain the parser goes on from node to next node, and behind the name of a
      function to its child, where it stays: the chain of the nodes it adds in this order. */
  function Nest(added: seq<Node>): (chain: seq<Node>)
    ensures |chain| <= |added|
  {
    if added == [] then []
    else if added[0].kind == IDENT_FUN then [added[0].(child := Nest(added[1..]))]
    else [added[0]] + Nest(added[1..])
  }

  /** What is added behind a call becomes its children; anything else is followed by a next node. */
  lemma NestsNext(n: Node, more: seq<Node>)
    ensures Nest([n] + more) == if n.kind == IDENT_FUN then [n.(child := Nest(more))] else [n] + Nest(more)
  {
    assert ([n] + more)[1..] == more;
  }

  lemma NestsFirst(added: seq<Node>)
    requires added != []
    ensures Nest(added) != [] && Nest(added)[0].kind == added[0].kind && Nest(added)[0].content == added[0].content
  {
  }

  lemma {:induction false} NestsPlain(added: seq<Node>)
    requires forall i :: 0 <= i < |added| ==> added[i].kind != IDENT_FUN
    ensures Nest(added) == added
  {
    if added != [] {
      NestsPlain(added[1..]);
    }
  }

  // ----- conditions as written -----

  datatype Operand = Column(tblref: string, name: string) | StringConst(s: string) | NumberConst(digits: string)

  datatype Operator = Equal | NotEqual | Less | Greater | GreaterOrEqual | LessOrEqual

  /** Comparisons and parenthesised groups, joined by AND and OR. */
  datatype Condition = Last(item: Item) | More(item: Item, conn: Connector, rest: Condition)

  datatype Item = Plain(l: Operand, op: Operator, r: Operand) | Group(inner: Condition)

  function Spelling(op: Operator): string {
    match op
    case Equal => "="
    case NotEqual => "!="
    case Less => "<"
    case Greater => ">"
    case GreaterOrEqual => ">="
    case LessOrEqual => "<="
  }

  function OperandNode(o: Operand): Node {
    match o
    case Column(tblref, name) => Node(IDENT_COL, name, tblref, [], "")
    case StringConst(s) => Leaf(STRING, s)
    case NumberConst(digits) => Leaf(NUMBER, digits)
  }

  function ConnectorNode(c: Connector): Node {
    match c
    case AND => Leaf(NODE_AND, "AND")
    case OR => Leaf(NODE_OR, "OR")
  }

  function ItemNodes(i: Item): (n: seq<Node>)
    ensures |n| == if i.Plain? then 3 else 1
  {
    match i
    case Plain(l, op, r) => [OperandNode(l), Leaf(BOOLOP, Spelling(op)), OperandNode(r)]
    case Group(inner) => [Branch(OPAREN, "(", Nodes(inner) + [Leaf(CPAREN, ")")])]
  }

  /** The chain of nodes a condition becomes. The chain inside a group ends with its CPAREN. */
  function Nodes(c: Condition): (n: seq<Node>)
    ensures n != []
  {
    match c
    case Last(i) => ItemNodes(i)
    case More(i, conn, rest) => ItemNodes(i) + [ConnectorNode(conn)] + Nodes(rest)
  }

  // ----- the conditions the planner handles -----

  predicate AllPlain(c: Condition) {
    c.item.Plain? && (c.More? ==> AllPlain(c.rest))
  }

  /** Groups first, then comparisons; and so inside every group. */
  predicate GroupsFirst(c: Condition) {
    match c
    case Last(i) => i.Plain? || GroupsFirst(i.inner)
    case More(i, _, rest) => if i.Plain? then AllPlain(rest) else GroupsFirst(i.inner) && GroupsFirst(rest)
  }
}
