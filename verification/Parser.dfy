/** The recursive-descent parser: a cursor over the query text, and the chain of nodes it appends
    to. A method that returns `false` stands for the parser's exit. */
module Parser {
  import opened CText
  import opened Filter
  import opened ParseTree
  import opened QueryText
  import opened WrittenText

  class Parser {
    const rawSql: string
    var cursor: nat
    var nextChar: char
    /** The nodes added to the current chain. */
    var nodes: seq<Node>
    var nodeCount: nat

    ghost predicate Valid()
      reads this
    {
      && NUL !in rawSql
      && 1 <= cursor <= |rawSql| + 1
      && nextChar == Head(Rest())
    }

    /** The text from the current character on. */
    ghost function Rest(): string
      reads this
    {
      if 1 <= cursor <= |rawSql| then rawSql[cursor - 1..] else ""
    }

    constructor (input: string)
      requires NUL !in input
      ensures Valid() && Rest() == input && nodes == [] && nodeCount == 0 && rawSql == input
    {
      rawSql := input;
      cursor, nextChar := 1, Head(input);
      nodes, nodeCount := [], 0;
    }

    method AddNode(kind: NodeType, content: string, tblref: string)
      modifies this`nodes, this`nodeCount
      ensures nodes == old(nodes) + [Node(kind, content, tblref, [], "")]
      ensures nodeCount == old(nodeCount) + 1
    {
      nodeCount := nodeCount + 1;
      nodes := nodes + [Node(kind, content, tblref, [], "")];
    }

    method GetNextChar()
      requires Valid() && Rest() != ""
      modifies this`cursor, this`nextChar
      ensures Valid() && Rest() == old(Rest())[1..]
    {
      nextChar := if cursor < |rawSql| then rawSql[cursor] else NUL;
      cursor := cursor + 1;
    }

    method SkipWhiteSpace()
      requires Valid()
      modifies this`cursor, this`nextChar
      ensures Valid() && Rest() == SkipWhite(old(Rest()))
    {
      while IsWhiteSpace(nextChar) && cursor < |rawSql|
        invariant Valid() && SkipWhite(Rest()) == SkipWhite(old(Rest()))
        decreases |Rest()|
      {
        GetNextChar();
      }
    }

    method PeekWordMatches(w: string) returns (b: bool)
      requires Valid() && w != ""
      ensures b == PeekWord(Rest(), w)
    {
      hide CommonPrefix;
      ghost var text, left := Rest(), w;
      var i, start := 0, cursor - 1;
      while i < |w| && start < |rawSql| && w[i] == rawSql[start]
        invariant i <= |w| && start == cursor - 1 + i && start <= |rawSql|
        invariant text == rawSql[start..] && left == w[i..]
        invariant CommonPrefix(Rest(), w) == i + CommonPrefix(text, left)
      {
        PrefixNext(text, left);
        text, left := text[1..], left[1..];
        i, start := i + 1, start + 1;
      }
      PrefixEnds(text, left);
      b := start + 1 <= |rawSql| && i + 1 >= |w|;
    }

    /** Consumes the letters that match; the last one may be missing. */
    method ExpectWord(w: string) returns (ok: bool)
      requires Valid() && w != ""
      modifies this`cursor, this`nextChar
      ensures Valid() && Rest() == old(Rest())[CommonPrefix(old(Rest()), w)..]
      ensures ok == (CommonPrefix(old(Rest()), w) + 1 >= |w|)
    {
      hide CommonPrefix;
      var i := 0;
      while i < |w| && w[i] == nextChar && nextChar != NUL
        invariant i <= |w| && Valid() && i <= |old(Rest())| && Rest() == old(Rest())[i..]
        invariant CommonPrefix(old(Rest()), w) == i + CommonPrefix(Rest(), w[i..])
      {
        PrefixNext(Rest(), w[i..]);
        assert w[i..][1..] == w[i + 1..];
        GetNextChar();
        i := i + 1;
      }
      PrefixEnds(Rest(), w[i..]);
      ok := i + 1 >= |w|;
    }

    /** The word, where it is there in full. */
    method ReadWord(ghost fits: bool, w: string, ghost follow: string) returns (ok: bool)
      requires Valid() && w != "" && (fits ==> Rest() == w + follow)
      modifies this`cursor, this`nextChar
      ensures Valid() && |Rest()| <= |old(Rest())| && (ok ==> |Rest()| + |w| <= |old(Rest())| + 1)
      ensures fits ==> ok && Rest() == follow
    {
      if fits {
        PrefixOfWord(w, follow);
      }
      hide *;
      ok := ExpectWord(w);
    }

    method Keyword(w: string, kind: NodeType) returns (ok: bool)
      requires Valid() && w != ""
      modifies this
      ensures Valid() && Rest() == old(Rest())[CommonPrefix(old(Rest()), w)..]
      ensures ok == (CommonPrefix(old(Rest()), w) + 1 >= |w|)
      ensures ok ==> nodes == old(nodes) + [Leaf(kind, w)]
    {
      ok := ExpectWord(w);
      if ok {
        AddNode(kind, w, "");
      }
    }

    method PeekNextNonAlphanumeric() returns (c: char)
      requires Valid()
      ensures c == LookAhead(Rest())
    {
      var start := cursor - 1;
      while start < |rawSql| && IsAlphaNumeric(rawSql[start])
        invariant cursor - 1 <= start <= |rawSql|
        invariant LookAhead(Rest()) == LookAhead(if start < |rawSql| then rawSql[start..] else "")
      {
        start := start + 1;
      }
      c := if start + 1 >= |rawSql| then NUL else rawSql[start];
    }

    method Ident(kind: NodeType)
      requires Valid()
      modifies this
      ensures Valid()
      ensures var (buff, cutOff, rest) := ScanIdent(old(Rest()), "", 0);
              && Rest() == rest
              && nodes == old(nodes) + [Node(kind, buff[cutOff..], buff[..cutOff], [], "")]
    {
      var buff: string, cutOff: nat := "", 0;
      while IsIdent(nextChar)
        invariant Valid() && nodes == old(nodes) && cutOff <= |buff|
        invariant ScanIdent(Rest(), buff, cutOff) == ScanIdent(old(Rest()), "", 0)
        decreases |Rest()|
      {
        ghost var s := Rest();
        buff := buff + [nextChar];
        GetNextChar();
        if nextChar == '.' {
          GetNextChar();
          cutOff := |buff|;
          assert s[1..][1..] == s[2..];
        }
      }
      AddNode(kind, buff[cutOff..], buff[..cutOff]);
    }

    /** A quoted string, or a quoted file name. Without a closing quote the source reads on until it gives up
        and exits. */
    method StringLiteral(kind: NodeType) returns (ok: bool)
      requires Valid() && nextChar == '\''
      modifies this
      ensures Valid() && |Rest()| < |old(Rest())|
      ensures var r := ScanString(old(Rest())[1..], "");
              ok == r.Some? &&
              (ok ==> Rest() == r.value.1 && nodes == old(nodes) + [Leaf(kind, r.value.0)])
    {
      GetNextChar();
      var buff := "";
      while nextChar != '\''
        invariant Valid() && nodes == old(nodes) && |Rest()| < |old(Rest())|
        invariant ScanString(Rest(), buff) == ScanString(old(Rest())[1..], "")
        decreases |Rest()|
      {
        if cursor > |rawSql| {
          return false;
        }
        buff := buff + [nextChar];
        GetNextChar();
      }
      GetNextChar();
      AddNode(kind, buff, "");
      return true;
    }

    method Number() returns (ok: bool)
      requires Valid()
      modifies this
      ensures Valid()
      ensures ok == IsDigit(Head(old(Rest())))
      ensures var (digits, rest) := ScanNumber(old(Rest()), "");
              Rest() == rest && (ok ==> nodes == old(nodes) + [Leaf(NUMBER, digits)])
    {
      if !IsDigit(nextChar) {
        return false;
      }
      var buff := "";
      while IsDigit(nextChar)
        invariant Valid() && nodes == old(nodes)
        invariant ScanNumber(Rest(), buff) == ScanNumber(old(Rest()), "")
        decreases |Rest()|
      {
        buff := buff + [nextChar];
        GetNextChar();
      }
      AddNode(NUMBER, buff, "");
      return true;
    }

    method Constant(ghost fits: bool, ghost o: Operand, ghost rest: string) returns (ok: bool)
      requires Valid()
      requires fits ==> !o.Column? && WellSpelled(o) && !IsDigit(Head(rest)) && Rest() == OperandText(o) + rest
      modifies this
      ensures Valid() && |Rest()| <= |old(Rest())| && (ok ==> |Rest()| < |old(Rest())|)
      ensures fits ==>
                ok && Rest() == rest && nodes == old(nodes) + [OperandNode(o)]
    {
      ConstantReads(o, Rest(), rest);
      if nextChar == '\'' {
        ok := StringLiteral(STRING);
      } else {
        ok := Number();
      }
    }

    /** A comparison operator, if there is one. */
    method BoolOp(ghost fits: bool, ghost op: Operator, ghost follow: string) returns (found: bool, ok: bool)
      requires Valid()
      requires fits ==> Rest() == Spelling(op) + follow && Head(follow) != '='
      modifies this
      ensures Valid() && |Rest()| <= |old(Rest())| && (found ==> |Rest()| < |old(Rest())|)
      ensures fits ==>
                found && ok && Rest() == follow && nodes == old(nodes) + [Leaf(BOOLOP, Spelling(op))]
      ensures Head(old(Rest())) !in {'=', '<', '>', '!'} ==>
                !found && ok && Rest() == old(Rest()) && nodes == old(nodes)
    {
      OperatorHead(op, follow);
      if nextChar == '=' || nextChar == '<' || nextChar == '>' {
        var text := [nextChar];
        GetNextChar();
        if nextChar == '=' {
          text := text + [nextChar];
          GetNextChar();
        }
        AddNode(BOOLOP, text, "");
        return true, true;
      }
      if nextChar == '!' {
        GetNextChar();
        if nextChar != '=' {
          return false, false;
        }
        GetNextChar();
        AddNode(BOOLOP, "!=", "");
        return true, true;
      }
      return false, true;
    }

    /** An operand that is not a group: a call, a column, a star or a constant. */
    method ParseOperand(ghost fits: bool, ghost i: ListItem, ghost follow: string) returns (ok: bool)
      requires Valid()
      requires fits ==> ItemStands(i, follow) && Rest() == ItemText(i, follow)
      modifies this
      ensures Valid() && |Rest()| <= |old(Rest())| && (ok ==> |Rest()| < |old(Rest())|)
      ensures fits ==> ok && Rest() == follow && nodes == old(nodes) + ItemAdds(i)
      decreases |Rest()|, 1
    {
      if fits {
        ItemHead(i, follow);
        if i.ColumnItem? && i.o.Column? {
          ColumnReads(i.o, follow);
        }
      }
      hide ScanIdent, LookAhead, WellSpelled, OperandText, ItemsAdd;
      if IsLetter(nextChar) {
        var c := PeekNextNonAlphanumeric();
        if c == '(' {
          ok := Call(fits, i, follow);
          return;
        }
        Ident(IDENT_COL);
        return true;
      } else if nextChar == '*' {
        GetNextChar();
        AddNode(STAR, "*", "");
        return true;
      }
      ok := Constant(fits, if fits && i.ColumnItem? then i.o else NumberConst(""), follow);
    }

    /** A function call: its arguments become the children of its name. */
    method Call(ghost fits: bool, ghost i: ListItem, ghost follow: string) returns (ok: bool)
      requires Valid() && IsLetter(nextChar)
      requires fits ==> i.CallItem? && WellItem(i) && Rest() == ItemText(i, follow)
      modifies this
      ensures Valid() && |Rest()| <= |old(Rest())| && (ok ==> |Rest()| < |old(Rest())|)
      ensures fits ==> ok && Rest() == follow && nodes == old(nodes) + ItemAdds(i)
      decreases |Rest()|, 0
    {
      ghost var args := if fits then i.args else NoItems();
      if fits {
        CallReads(i.f, args, follow);
      }
      Ident(IDENT_FUN);
      if nextChar != '(' {
        return false;
      }
      GetNextChar();
      ok := ExprList(fits, args, ")" + follow);
      if !ok || nextChar != ')' {
        return false;
      }
      GetNextChar();
      if fits {
        AppendTwice(old(nodes), [Leaf(IDENT_FUN, i.f)], ItemsAdd(args));
      }
    }

    // In the methods below `fits` says that the text to read is that of the condition `x`,
    // followed by `rest`; nothing is assumed about other text.

    /** An expression. If a comparison operator follows, the rest of the condition belongs to it. */
    method Expr(ghost fits: bool, ghost x: Written, ghost rest: string) returns (ok: bool)
      requires Valid()
      requires fits ==> Stands(x, rest) && Rest() == TextOf(x) + rest
      modifies this
      ensures Valid() && |Rest()| <= |old(Rest())| && (ok ==> |Rest()| < |old(Rest())|)
      ensures fits ==> ok && Remains(Rest(), AfterExpr(x, rest)) && nodes == old(nodes) + ExprNodes(x)
      decreases |Rest()|, 2
    {
      if fits {
        TextSplits(x, rest);
        TermHead(x.term);
        FollowHead(x, rest);
      }
      if nextChar == '(' {
        ok := GroupExpr(fits, x, rest);
        return;
      }
      assert fits ==> x.term.Opd?;
      ok := ParseOperand(fits, if fits then ColumnItem(x.term.o) else StarItem, Follow(x, rest));
      if !ok {
        return false;
      }
      ok := ExprTail(fits, x, rest);
      AppendTwice(old(nodes), [TermNode(x.term)], TailNodes(x.tail));
    }

    /** What `expr` does after an operand. */
    method ExprTail(ghost fits: bool, ghost x: Written, ghost rest: string) returns (ok: bool)
      requires Valid()
      requires fits ==> Stands(x, rest) && Rest() == Follow(x, rest)
      modifies this
      ensures Valid() && |Rest()| <= |old(Rest())|
      ensures fits ==> ok && Remains(Rest(), AfterExpr(x, rest)) &&
                       nodes == old(nodes) + (if x.tail.Cmp? then TailNodes(x.tail) else [])
      decreases |Rest()|, 0
    {
      ghost var compares := fits && x.tail.Cmp?;
      ghost var y, w, op := x, "", Equal;
      if fits {
        ExprTailStarts(x, rest);
        if compares {
          op, w, y := x.tail.op, x.tail.w, x.tail.rest;
        }
      }
      hide Valid, Rest, WellWritten, Follow, AfterExpr, TailNodes, NodesOf, TextOf, TailText, SkipWhite,
           Boundary, AllWhite;
      SkipWhiteSpace();
      var found;
      found, ok := BoolOp(compares, op, w + (TextOf(y) + rest));
      if found {
        ok := BoolExprList(compares, w, y, rest);
        AppendTwice(old(nodes), [Leaf(BOOLOP, Spelling(op))], NodesOf(y));
      }
    }

    /** A parenthesised group: its nodes become the child chain, closed by the CPAREN node. */
    method GroupExpr(ghost fits: bool, ghost x: Written, ghost rest: string) returns (ok: bool)
      requires Valid() && nextChar == '(' && Rest() != ""
      requires fits ==> Stands(x, rest) && x.term.Paren? && Rest() == TextOf(x) + rest
      modifies this
      ensures Valid() && |Rest()| < |old(Rest())|
      ensures fits ==> ok && Remains(Rest(), AfterExpr(x, rest)) && nodes == old(nodes) + ExprNodes(x)
      decreases |Rest()|, 0
    {
      ghost var inner, after := if fits then x.term.inner else x, ")" + Follow(x, rest);
      if fits {
        GroupSplits(x, rest);
      }
      hide *;
      GetNextChar();
      SkipWhiteSpace();
      var outer := nodes;
      StartChain();
      ok := GroupItems(fits, inner, after);
      if !ok {
        return false;
      }
      CloseGroup(fits, x, rest, outer);
    }

    /** The closing parenthesis, and back to the chain the group stands in. */
    method CloseGroup(ghost fits: bool, ghost x: Written, ghost rest: string, outer: seq<Node>)
      requires Valid() && nextChar == ')' && Rest() != ""
      requires fits ==> Stands(x, rest) && x.term.Paren?
      requires fits ==> Rest() == ")" + Follow(x, rest) && nodes == NodesOf(x.term.inner)
      modifies this
      ensures Valid() && |Rest()| < |old(Rest())|
      ensures fits ==> Remains(Rest(), AfterExpr(x, rest)) && nodes == outer + ExprNodes(x)
    {
      if fits {
        GroupCloses(x, rest);
        GroupNests(x.term.inner);
      }
      hide *;
      GetNextChar();
      SkipWhiteSpace();
      EndChain(outer);
    }

    /** A chain of its own for the children of the node that comes next. */
    method StartChain()
      requires Valid()
      modifies this`nodes, this`nodeCount
      ensures Valid() && Rest() == old(Rest()) && nodes == []
    {
      nodeCount, nodes := nodeCount + 1, [];
    }

    /** The chain of a group ends with its CPAREN, and becomes the child of its OPAREN. */
    method EndChain(outer: seq<Node>)
      requires Valid()
      modifies this`nodes, this`nodeCount
      ensures Valid() && Rest() == old(Rest())
      ensures nodes == outer + [Branch(OPAREN, "(", Nest(old(nodes) + [Leaf(CPAREN, ")")]))]
    {
      AddNode(CPAREN, ")", "");
      nodes := outer + [Branch(OPAREN, "(", Nest(nodes))];
    }

    /** The expressions up to the closing parenthesis. */
    method GroupItems(ghost fits: bool, ghost x: Written, ghost rest: string) returns (ok: bool)
      requires Valid() && nodes == []
      requires fits ==> Stands(x, rest) && Rest() == TextOf(x) + rest
      requires fits ==> x.term.Opd? && !x.tail.Conn? && Head(rest) == ')'
      modifies this
      ensures Valid() && |Rest()| <= |old(Rest())| && (ok ==> nextChar == ')')
      ensures fits ==> ok && Rest() == rest && nodes == NodesOf(x)
      decreases |Rest()|, 3
    {
      ghost var done := false;
      if fits {
        InGroup(x, rest);
      }
      hide *;
      while nextChar != ')'
        invariant Valid() && |Rest()| <= |old(Rest())|
        invariant fits ==> if done then Rest() == rest && nodes == NodesOf(x)
                           else Rest() == TextOf(x) + rest && nodes == [] && nextChar != ')'
        decreases |Rest()|
      {
        ok := Expr(fits && !done, x, rest);
        if !ok {
          return false;
        }
        SkipWhiteSpace();
        done := true;
      }
      return true;
    }

    /** Expressions joined by AND and OR. */
    method BoolExprList(ghost fits: bool, ghost w: string, ghost x: Written, ghost rest: string) returns (ok: bool)
      requires Valid()
      requires fits ==> AllWhite(w) && Stands(x, rest) && Rest() == w + (TextOf(x) + rest)
      modifies this
      ensures Valid() && |Rest()| <= |old(Rest())|
      ensures fits ==> ok && Remains(Rest(), rest) && nodes == old(nodes) + NodesOf(x)
      decreases |Rest()|, 4
    {
      if fits {
        TermHead(x.term);
        SkipsWhite(w, TextOf(x) + rest);
      }
      SkipWhiteSpace();
      ok := Expr(fits, x, rest);
      if !ok {
        return false;
      }
      if fits {
        AfterExprSkips(x, rest, Rest());
      }
      SkipWhiteSpace();
      ok := MoreExprs(fits, x, rest);
      if fits && x.tail.Conn? {
        AppendTwice(old(nodes), ExprNodes(x), TailNodes(x.tail));
      }
    }

    /** The connector behind an expression, if there is one, and what it connects. */
    method MoreExprs(ghost fits: bool, ghost x: Written, ghost rest: string) returns (ok: bool)
      requires Valid()
      requires fits ==> Stands(x, rest)
      requires fits && x.tail.Conn? ==> Rest() == TailText(x.tail) + rest
      requires fits && !x.tail.Conn? ==>
                 Remains(Rest(), rest) && !PeekWord(Rest(), "AND") && !PeekWord(Rest(), "OR")
      modifies this
      ensures Valid() && |Rest()| <= |old(Rest())|
      ensures fits ==> ok && Remains(Rest(), rest)
                       && nodes == old(nodes) + (if x.tail.Conn? then TailNodes(x.tail) else [])
      decreases |Rest()|, 2
    {
      ghost var connects := fits && x.tail.Conn?;
      ghost var y, w, conn := x, "", AND;
      if connects {
        y, w, conn := x.tail.rest, x.tail.w, x.tail.conn;
        ConnSplits(x, rest);
      }
      hide *;
      var isAnd := PeekWordMatches("AND");
      var isOr := PeekWordMatches("OR");
      if !isAnd && !isOr {
        return true;
      }
      PeekedLength(Rest(), if isAnd then "AND" else "OR");
      ok := Keyword(if isAnd then "AND" else "OR", if isAnd then NODE_AND else NODE_OR);
      ok := BoolExprList(connects, w, y, rest);
      AppendTwice(old(nodes), [ConnectorNode(conn)], NodesOf(y));
    }

    /** The WHERE clause of a query, if there is one. */
    method WhereClause(ghost fits: bool, ghost w: string, ghost x: Written, ghost rest: string)
      returns (found: bool, ok: bool)
      requires Valid() && nodes == []
      requires fits ==> AllWhite(w) && Stands(x, rest)
                        && Rest() == "WHERE" + (w + (TextOf(x) + rest))
      modifies this
      ensures Valid() && |Rest()| <= |old(Rest())|
      ensures found == PeekWord(old(Rest()), "WHERE") && (!found ==> ok && Rest() == old(Rest()) && nodes == [])
      ensures fits ==> found && ok && Remains(Rest(), rest) && nodes == NodesOf(x)
    {
      if fits {
        WhereStarts(w, x, rest);
      }
      NothingBefore(NodesOf(x));
      hide Valid, Rest, CommonPrefix, PeekWord, SkipWhite, TextOf, WellWritten, Boundary, NodesOf, AllWhite;
      found := PeekWordMatches("WHERE");
      if !found {
        return false, true;
      }
      ok := ExpectWord("WHERE");
      SkipWhiteSpace();
      ok := BoolExprList(fits, "", x, rest);
      if ok {
        if fits {
          RemainsSkips(Rest(), rest);
        }
        SkipWhiteSpace();
      }
    }

    // ----- queries -----

    /** `expr`, on an item of a list. What else it might find there is parsed, but nothing is said
        about it. */
    method ListExpr(ghost fits: bool, ghost i: ListItem, ghost after: string, ghost next: string) returns (ok: bool)
      requires Valid()
      requires fits ==> ItemStands(i, after + next) && Rest() == ItemText(i, after + next)
      requires fits ==> SkipWhite(after + next) == next && Head(next) !in {'=', '<', '>', '!'}
      modifies this
      ensures Valid() && |Rest()| <= |old(Rest())| && (ok ==> |Rest()| < |old(Rest())|)
      ensures fits ==> ok && Rest() == next && nodes == old(nodes) + ItemAdds(i)
      decreases |Rest()|, 5
    {
      if fits {
        ItemHead(i, after + next);
      }
      if nextChar == '(' {
        ok := GroupExpr(false, NoCondition(), "");
        return;
      }
      ok := ParseOperand(fits, i, after + next);
      if !ok {
        return false;
      }
      SkipWhiteSpace();
      var found;
      found, ok := BoolOp(false, Equal, "");
      if found {
        ok := BoolExprList(false, "", NoCondition(), "");
      }
    }

    /** The items of a list. */
    method ExprList(ghost fits: bool, ghost x: Items, ghost k: string) returns (ok: bool)
      requires Valid()
      requires fits ==> ItemsStand(x, k) && Rest() == ItemsText(x, k)
      modifies this
      ensures Valid() && |Rest()| <= |old(Rest())|
      ensures fits ==> ok && Rest() == k && nodes == old(nodes) + ItemsAdd(x)
      decreases |Rest()|, 6
    {
      if fits {
        ItemsSkip(x, k);
      }
      SkipWhiteSpace();
      ok := ListExpr(fits, x.item, x.after, NextText(x, k));
      if !ok {
        return false;
      }
      SkipWhiteSpace();
      if nextChar == ',' {
        GetNextChar();
        ghost var more := fits && x.rest.Some?;
        ghost var rest := if more then x.rest.value else x;
        ok := ExprList(more, rest, k);
        AppendTwice(old(nodes), ItemAdds(x.item), ItemsAdd(rest));
      }
    }

    /** The two letters of AS, and the letters of the alias. */
    method AddAlias(ghost fits: bool, ghost a: Alias, ghost k: string) returns (name: string)
      requires Valid() && |Rest()| >= 2
      requires fits ==> AliasStands(Some(a), k) && Rest() == AliasText(Some(a), k)
      modifies this`cursor, this`nextChar
      ensures Valid() && |Rest()| < |old(Rest())|
      ensures fits ==> name == a.name && Rest() == a.after + k
    {
      if fits {
        AliasReads(a, k);
      }
      GetNextChar();
      GetNextChar();
      assert old(Rest())[1..][1..] == old(Rest())[2..];
      SkipWhiteSpace();
      name := "";
      while IsLetter(nextChar)
        invariant Valid() && |Rest()| < |old(Rest())|
        invariant ScanAlias(Rest(), name) == ScanAlias(SkipWhite(old(Rest())[2..]), "")
        decreases |Rest()|
      {
        name := name + [nextChar];
        GetNextChar();
      }
    }

    /** A quoted file or a table. */
    method ParseTarget(ghost fits: bool, ghost t: Target, ghost k: string) returns (ok: bool)
      requires Valid()
      requires fits ==> WellTarget(t) && (t.Table? ==> !IsIdent(Head(k)) && Head(k) != '.')
      requires fits ==> Rest() == TargetText(t, k)
      modifies this
      ensures Valid() && |Rest()| <= |old(Rest())| && (ok ==> |nodes| > 0)
      ensures fits ==> ok && Rest() == k && nodes == old(nodes) + [OriginNode(Origin(t, "", None))]
    {
      if fits {
        TargetReads(t, k);
      }
      if nextChar == '\'' {
        ok := StringLiteral(FILEPATH);
      } else {
        Ident(IDENT_TBL);
        ok := true;
      }
    }

    /** The node that was added last gets an alias. */
    method NameLast(name: string)
      requires Valid() && |nodes| > 0
      modifies this`nodes
      ensures Valid() && Rest() == old(Rest())
      ensures nodes == WithAlias(old(nodes), name)
    {
      nodes := WithAlias(nodes, name);
    }

    /** `source`, on a file or a table. */
    method Source(ghost fits: bool, ghost o: Origin, ghost k: string) returns (ok: bool)
      requires Valid()
      requires fits ==> OriginStands(o, k) && Rest() == OriginText(o, k)
      modifies this
      ensures Valid() && |Rest()| <= |old(Rest())|
      ensures fits ==> ok && Rest() == BehindAlias(o.w, o.alias, k) && nodes == old(nodes) + [OriginNode(o)]
    {
      ghost var named := fits && o.alias.Some?;
      ghost var a := if named then o.alias.value else Alias("", "", "");
      if fits {
        OriginReads(o, k);
        AliasFollows(o.w, o.alias, k);
        SourceNamed(nodes, o);
        assert named ==> AliasStands(Some(a), k) && o.alias == Some(a);
      }
      hide *;
      ok := ParseTarget(fits, o.target, o.w + AliasText(o.alias, k));
      if !ok {
        return false;
      }
      SkipWhiteSpace();
      var alias := PeekWordMatches("AS");
      if alias {
        PeekedLength(Rest(), "AS");
        var name := AddAlias(named, a, k);
        NameLast(name);
      }
    }

    /** `from`: a query in parentheses, a table, or two tables and the condition that joins them.
        A sub-query as a side of a join is refused here; the planner does not handle it. */
    method From(ghost fits: bool, ghost p: Place, ghost k: string) returns (ok: bool)
      requires Valid()
      requires fits ==> PlaceStands(p, k) && Rest() == PlaceText(p, k)
      modifies this
      ensures Valid() && |Rest()| <= |old(Rest())|
      ensures fits ==> ok && Remains(Rest(), if p.Nested? then AliasText(p.alias, k) else k)
                       && nodes == old(nodes) + PlaceNodes(p)
      decreases |Rest()|, 9
    {
      if fits {
        PlaceHead(p, k);
      }
      SkipWhiteSpace();
      if nextChar == '(' {
        ok := FromQuery(fits, p, k);
      } else {
        ok := FromTables(fits, p, k);
      }
    }

    /** A query in parentheses. */
    method FromQuery(ghost fits: bool, ghost p: Place, ghost k: string) returns (ok: bool)
      requires Valid() && nextChar == '('
      requires fits ==> PlaceStands(p, k) && p.Nested? && Rest() == PlaceText(p, k)
      modifies this
      ensures Valid() && |Rest()| <= |old(Rest())|
      ensures fits ==> ok && Remains(Rest(), AliasText(p.alias, k)) && nodes == old(nodes) + PlaceNodes(p)
      decreases |Rest()|, 0
    {
      ghost var q, next := NoQuery(), "";
      if fits {
        q, next := p.q, ")" + (p.after + AliasText(p.alias, k));
        NestedParts(p, k);
        assert PlaceNodes(p) == QueryNodes(q);
      }
      assert Rest() != "";
      hide *;
      GetNextChar();
      ok := Query(fits, q, next);
      if fits {
        OnlyRemains(Rest(), next);
      }
      if !ok || nextChar != ')' {
        return false;
      }
      GetNextChar();
      SkipWhiteSpace();
      var join := PeekWordMatches("JOIN");
      ok := !join;
    }

    /** A table, or two of them. */
    method FromTables(ghost fits: bool, ghost p: Place, ghost k: string) returns (ok: bool)
      requires Valid() && nextChar != '('
      requires fits ==> PlaceStands(p, k) && !p.Nested? && Rest() == PlaceText(p, k)
      modifies this
      ensures Valid() && |Rest()| <= |old(Rest())|
      ensures fits ==> ok && Remains(Rest(), k) && nodes == old(nodes) + PlaceNodes(p)
      decreases |Rest()|, 8
    {
      ghost var o, next := NoOrigin(), k;
      ghost var joined := fits && p.Joined?;
      if fits {
        o := if p.Joined? then p.left else p.origin;
        next := if p.Joined? then JoinText(p.w, p.right, p.v, p.on, k) else k;
        TablesParts(p, k);
      }
      hide *;
      ok := Source(fits, o, next);
      if !ok {
        return false;
      }
      SkipWhiteSpace();
      var join := PeekWordMatches("JOIN");
      if join {
        ok := JoinPart(joined, p, k);
        if joined {
          AppendTwice(old(nodes), [OriginNode(o)], JoinNodes(p));
        }
      }
    }

    /** JOIN, the right table, ON and its condition. */
    method JoinPart(ghost fits: bool, ghost p: Place, ghost k: string) returns (ok: bool)
      requires Valid()
      requires fits ==> p.Joined? && JoinStands(p.w, p.right, p.v, p.on, k)
      requires fits ==> Rest() == JoinText(p.w, p.right, p.v, p.on, k)
      modifies this
      ensures Valid() && |Rest()| <= |old(Rest())|
      ensures fits ==> ok && Remains(Rest(), k) && nodes == old(nodes) + JoinNodes(p)
      decreases |Rest()|, 7
    {
      ghost var right, v, on := NoOrigin(), "", NoCondition();
      if fits {
        right, v, on := p.right, p.v, p.on;
        JoinStarts(p.w, right, v, on, k);
        BehindAliasSkips(right.w, right.alias, OnText(v, on, k));
        OnStarts(v, on, k);
        assert OriginStands(right, OnText(v, on, k));
      }
      hide *;
      ok := Keyword("JOIN", JOIN);
      if !ok {
        return false;
      }
      SkipWhiteSpace();
      if nextChar == '(' {
        return false;
      }
      ok := Source(fits, right, OnText(v, on, k));
      if !ok {
        return false;
      }
      SkipWhiteSpace();
      var found := PeekWordMatches("ON");
      if !found {
        return false;
      }
      if fits {
        JoinNodesAre(old(nodes), p);
      }
      ok := OnPart(fits, v, on, k);
    }

    /** ON and its condition. */
    method OnPart(ghost fits: bool, ghost v: string, ghost on: Written, ghost k: string) returns (ok: bool)
      requires Valid()
      requires fits ==> AllWhite(v) && Stands(on, k) && Rest() == OnText(v, on, k)
      modifies this
      ensures Valid() && |Rest()| <= |old(Rest())|
      ensures fits ==> ok && Remains(Rest(), k) && nodes == old(nodes) + [Branch(ON, "ON", NodesOf(on))]
      decreases |Rest()|, 6
    {
      if fits {
        OnStarts(v, on, k);
      }
      hide *;
      SkipWhiteSpace();
      ok := ReadWord(fits, "ON", v + (TextOf(on) + k));
      if !ok {
        return false;
      }
      var outer := nodes;
      ok := OnCondition(fits, v, on, k);
      EndOn(outer);
    }

    /** The chain of the condition becomes the child of ON. */
    method EndOn(outer: seq<Node>)
      requires Valid()
      modifies this`nodes
      ensures Valid() && Rest() == old(Rest())
      ensures nodes == outer + [Branch(ON, "ON", Nest(old(nodes)))]
    {
      nodes := outer + [Branch(ON, "ON", Nest(nodes))];
    }

    /** The condition of ON, in a chain of its own. */
    method OnCondition(ghost fits: bool, ghost v: string, ghost on: Written, ghost k: string) returns (ok: bool)
      requires Valid()
      requires fits ==> AllWhite(v) && Stands(on, k) && Rest() == v + (TextOf(on) + k)
      modifies this
      ensures Valid() && |Rest()| <= |old(Rest())|
      ensures fits ==> ok && Remains(Rest(), k) && Nest(nodes) == NodesOf(on)
      decreases |Rest()|, 5
    {
      if fits {
        NoCalls(on);
      }
      NothingBefore(NodesOf(on));
      hide *;
      StartChain();
      ok := BoolExprList(fits, v, on, k);
    }

    /** A query: its three parts are three nodes, each with a chain of its own. */
    method Query(ghost fits: bool, ghost q: WrittenQuery, ghost rest: string) returns (ok: bool)
      requires Valid()
      requires fits ==> WellQuery(q) && QueryBoundary(rest) && Rest() == TextOfQuery(q, rest)
      modifies this
      ensures Valid() && |Rest()| <= |old(Rest())|
      ensures fits ==> ok && Remains(Rest(), rest) && nodes == old(nodes) + QueryNodes(q)
      decreases |Rest()|, 12
    {
      if fits {
        FromStarts(q, rest);
        QuerySplits(q, rest);
      }
      hide *;
      var outer := nodes;
      ok := SelectPart(fits, q, FromText(q, rest));
      if !ok {
        return false;
      }
      var list := nodes;
      var alias;
      ok, alias := FromPart(fits, q, rest);
      if !ok {
        return false;
      }
      var from := nodes;
      var found;
      found, ok := WherePart(fits, q, rest);
      Assemble(outer, list, from, alias, found);
    }

    /** The three parts become the nodes of the query, behind the nodes that were there. */
    method Assemble(outer: seq<Node>, list: seq<Node>, from: seq<Node>, alias: string, found: bool)
      requires Valid()
      modifies this`nodes
      ensures Valid() && Rest() == old(Rest())
      ensures nodes == outer + ([Branch(SELECT, "SELECT", Nest(list)), Branch(FROM, "FROM", from).(alias := alias)]
                                + if found then [Branch(WHERE, "WHERE", Nest(old(nodes)))] else [])
    {
      nodes := outer + ([Branch(SELECT, "SELECT", Nest(list)), Branch(FROM, "FROM", from).(alias := alias)]
                        + if found then [Branch(WHERE, "WHERE", Nest(nodes))] else []);
    }

    /** The keyword and the select list. */
    method SelectPart(ghost fits: bool, ghost q: WrittenQuery, ghost k: string) returns (ok: bool)
      requires Valid()
      requires fits ==> WellQuery(q) && Head(k) == 'F' && Rest() == q.before + ("SELECT" + ItemsText(q.items, k))
      modifies this
      ensures Valid() && |Rest()| <= |old(Rest())| && (ok ==> |Rest()| < |old(Rest())|)
      ensures fits ==> ok && Rest() == k && Nest(nodes) == ItemsNodes(q.items)
      decreases |Rest()|, 7
    {
      ghost var x := q.items.(w := "");
      if fits {
        SelectStarts(q, k);
        assert ItemsNodes(x) == Nest(ItemsAdd(x));
      }
      hide *;
      SkipWhiteSpace();
      ok := ReadWord(fits, "SELECT", ItemsText(q.items, k));
      if !ok {
        return false;
      }
      NothingBefore(ItemsAdd(x));
      StartChain();
      SkipWhiteSpace();
      ok := ExprList(fits, x, k);
    }

    /** The keyword and what is selected from, up to a WHERE. */
    method FromPart(ghost fits: bool, ghost q: WrittenQuery, ghost rest: string) returns (ok: bool, alias: string)
      requires Valid()
      requires fits ==> WellQuery(q) && QueryBoundary(rest) && Rest() == FromText(q, rest)
      modifies this
      ensures Valid() && |Rest()| <= |old(Rest())|
      ensures fits ==> ok && Remains(Rest(), WhereText(q.where, rest)) && nodes == PlaceNodes(q.place)
                       && alias == PlaceAlias(q.place)
      decreases |Rest()|, 11
    {
      ghost var p, tail := q.place, WhereText(q.where, rest);
      if fits {
        FromStarts(q, rest);
      }
      NothingBefore(PlaceNodes(p));
      hide *;
      alias := "";
      ok := ReadWord(fits, "FROM", q.w + PlaceText(p, tail));
      if !ok {
        return false, "";
      }
      StartChain();
      SkipWhiteSpace();
      ok := From(fits, p, tail);
      if !ok {
        return false, "";
      }
      alias := AliasPart(fits, p, tail);
    }

    /** The alias of a sub-query, if there is one. */
    method AliasPart(ghost fits: bool, ghost p: Place, ghost tail: string) returns (alias: string)
      requires Valid()
      requires fits ==> PlaceStands(p, tail) && Remains(Rest(), if p.Nested? then AliasText(p.alias, tail) else tail)
      modifies this`cursor, this`nextChar
      ensures Valid() && |Rest()| <= |old(Rest())|
      ensures fits ==> Remains(Rest(), tail) && alias == PlaceAlias(p)
    {
      ghost var named := fits && p.Nested? && p.alias.Some?;
      ghost var a := if named then p.alias.value else Alias("", "", "");
      if fits {
        AliasOfPlace(p, tail, Rest());
        if named {
          SkipsTo(a.after, tail);
        }
      }
      hide *;
      alias := "";
      SkipWhiteSpace();
      var found := PeekWordMatches("AS");
      if found {
        PeekedLength(Rest(), "AS");
        alias := AddAlias(named, a, tail);
        SkipWhiteSpace();
      }
    }

    method WherePart(ghost fits: bool, ghost q: WrittenQuery, ghost rest: string) returns (found: bool, ok: bool)
      requires Valid()
      requires fits ==> WellQuery(q) && QueryBoundary(rest) && Remains(Rest(), WhereText(q.where, rest))
      modifies this
      ensures Valid() && |Rest()| <= |old(Rest())|
      ensures fits ==> ok && Remains(Rest(), rest)
      ensures fits ==> (if found then [Branch(WHERE, "WHERE", Nest(nodes))] else []) == WhereNodes(q.where)
    {
      ghost var conditional := fits && q.where.Some?;
      ghost var c := if conditional then q.where.value else WrittenWhere("", NoCondition());
      if fits {
        WhereFollows(q, rest, Rest());
        NoCalls(c.x);
      }
      hide Valid, Rest, WellQuery, WhereText, SkipWhite, PeekWord, WellWritten, AllWhite, Nest, NodesOf;
      StartChain();
      found, ok := WhereClause(conditional, c.w, c.x, rest);
    }

    lemma NothingBefore(a: seq<Node>)
      ensures [] + a == a
    {
    }

    lemma AppendTwice(a: seq<Node>, b: seq<Node>, c: seq<Node>)
      ensures a + b + c == a + (b + c)
    {
    }
  }
}
