/** The text of a condition, with any white space, and what the parser's lexical helpers do on it. */
module WrittenText {
  import opened CText
  import opened Filter
  import opened ParseTree

  const MAXEXPRSIZE: nat := 100

  // ----- characters -----

  predicate IsLetter(c: char) { 'A' <= c <= 'Z' || 'a' <= c <= 'z' }

  predicate IsAlphaNumeric(c: char) { IsLetter(c) || IsDigit(c) }

  predicate IsIdent(c: char) { IsAlphaNumeric(c) || c == '_' }

  /** A C `char` is signed, so everything from 128 on is below 33 as well. */
  predicate IsWhiteSpace(c: char) { c as int <= 32 || c as int >= 128 }

  /** The classes of the 256 bytes: what a signed `char` has up to 32 is white; names have digits, letters
      and the underscore. */
  lemma Characters(c: char)
    requires c as int < 256
    ensures IsWhiteSpace(c) <==> SignedByte(c) <= 32
    ensures IsDigit(c) <==> 48 <= c as int <= 57
    ensures IsLetter(c) <==> 65 <= c as int <= 90 || 97 <= c as int <= 122
    ensures IsAlphaNumeric(c) <==> IsDigit(c) || IsLetter(c)
    ensures IsIdent(c) <==> IsAlphaNumeric(c) || c as int == 95
  {
  }

  predicate AllWhite(s: string) { forall i :: 0 <= i < |s| ==> IsWhiteSpace(s[i]) }

  predicate AllIdent(s: string) { forall i :: 0 <= i < |s| ==> IsIdent(s[i]) }

  predicate AllDigits(s: string) { forall i :: 0 <= i < |s| ==> IsDigit(s[i]) }

  /** The next character, NUL at the end of the query. */
  function Head(s: string): char { if s == "" then NUL else s[0] }

  // ----- what is left to read after each helper -----

  /** `skipWhite` stops before the last character of the query. */
  function SkipWhite(s: string): (r: string)
    ensures |r| <= |s|
  {
    if |s| >= 2 && IsWhiteSpace(s[0]) then SkipWhite(s[1..]) else s
  }

  /** `peekWordMatches`: the last letter of the word may differ, but must lie in the query. */
  predicate PeekWord(s: string, w: string) {
    CommonPrefix(s, w) + 1 >= |w| && CommonPrefix(s, w) + 1 <= |s|
  }

  /** What the lexical helpers make of the end of a query: the last character is kept though it is white,
      and the last letter of a word is there but is not looked at, unless it ends the query, where the
      word is not found. */
  lemma EndOfQuery()
    ensures SkipWhite("  ") == " " && SkipWhite(" a") == "a" && SkipWhite(" ") == " "
    ensures PeekWord("ON ", "ON") && PeekWord("OX", "ON")
    ensures !PeekWord("ON", "ON") && !PeekWord("O", "ON") && !PeekWord("XN ", "ON")
  {
    assert "  "[1..] == " " && " a"[1..] == "a";
    assert "ON"[1..] == "N" && "ON "[1..] == "N " && "N"[1..] == "" && "N "[1..] == " " && "OX"[1..] == "X";
    assert CommonPrefix("N", "N") == 1 && CommonPrefix("N ", "N") == 1 && CommonPrefix("X", "N") == 0;
  }

  /** The text `ident` collects (dots dropped), where its last dot was, and what is left. */
  function ScanIdent(s: string, buff: string, cutOff: nat): (r: (string, nat, string))
    ensures |r.2| <= |s| && |buff| <= |r.0| && (cutOff <= |buff| ==> r.1 <= |r.0|)
    ensures s != "" && IsIdent(s[0]) ==> |r.2| < |s|
    decreases |s|
  {
    if s == "" || !IsIdent(s[0]) then (buff, cutOff, s)
    else if |s| >= 2 && s[1] == '.' then ScanIdent(s[2..], buff + [s[0]], |buff| + 1)
    else ScanIdent(s[1..], buff + [s[0]], cutOff)
  }

  /** The first character that is not alphanumeric, NUL if that is the last one of the query. */
  function LookAhead(s: string): char {
    if s == "" then NUL
    else if !IsAlphaNumeric(s[0]) then (if |s| == 1 then NUL else s[0])
    else LookAhead(s[1..])
  }

  /** The digits `number` collects, and what is left behind them. */
  function ScanNumber(s: string, buff: string): (r: (string, string))
    ensures |r.1| <= |s| && (s != "" && IsDigit(s[0]) ==> |r.1| < |s|)
  {
    if s == "" || !IsDigit(s[0]) then (buff, s) else ScanNumber(s[1..], buff + [s[0]])
  }

  /** The text up to the closing quote and what is left behind it, if there is a closing quote. */
  function ScanString(s: string, buff: string): (r: Option<(string, string)>)
    ensures r.Some? ==> |r.value.1| < |s|
  {
    if s == "" then None
    else if s[0] == '\'' then Some((buff, s[1..]))
    else ScanString(s[1..], buff + [s[0]])
  }

  // ----- written conditions -----

  /** Operands and groups with what stands between them. Every `w` is white space. */
  datatype Written = Written(term: Term, w: string, tail: Tail)

  datatype Term = Opd(o: Operand) | Paren(w: string, inner: Written)

  datatype Tail = End | Cmp(op: Operator, w: string, rest: Written) | Conn(conn: Connector, w: string, rest: Written)

  function OperandText(o: Operand): string {
    match o
    case Column(tblref, name) => if tblref == "" then name else tblref + "." + name
    case StringConst(s) => "'" + s + "'"
    case NumberConst(digits) => digits
  }

  function ConnectorText(c: Connector): string {
    if c == AND then "AND" else "OR"
  }

  function TermText(t: Term): string {
    match t
    case Opd(o) => OperandText(o)
    case Paren(w, inner) => "(" + w + TextOf(inner) + ")"
  }

  function TailText(t: Tail): string {
    match t
    case End => ""
    case Cmp(op, w, rest) => Spelling(op) + (w + TextOf(rest))
    case Conn(conn, w, rest) => ConnectorText(conn) + (w + TextOf(rest))
  }

  function TextOf(x: Written): string {
    TermText(x.term) + (x.w + TailText(x.tail))
  }

  // ----- the nodes the parser makes of it -----

  function TermNode(t: Term): Node {
    match t
    case Opd(o) => OperandNode(o)
    case Paren(_, inner) => Branch(OPAREN, "(", NodesOf(inner) + [Leaf(CPAREN, ")")])
  }

  function TailNodes(t: Tail): seq<Node> {
    match t
    case End => []
    case Cmp(op, _, rest) => [Leaf(BOOLOP, Spelling(op))] + NodesOf(rest)
    case Conn(conn, _, rest) => [ConnectorNode(conn)] + NodesOf(rest)
  }

  function NodesOf(x: Written): seq<Node> {
    [TermNode(x.term)] + TailNodes(x.tail)
  }

  lemma {:induction false} NoCalls(x: Written)
    ensures forall i :: 0 <= i < |NodesOf(x)| ==> NodesOf(x)[i].kind != IDENT_FUN
    ensures Nest(NodesOf(x)) == NodesOf(x)
  {
    match x.tail {
      case End =>
        assert NodesOf(x) == [TermNode(x.term)];
      case Cmp(op, _, rest) =>
        NoCalls(rest);
        assert NodesOf(x) == [TermNode(x.term), Leaf(BOOLOP, Spelling(op))] + NodesOf(rest);
      case Conn(conn, _, rest) =>
        NoCalls(rest);
        assert NodesOf(x) == [TermNode(x.term), ConnectorNode(conn)] + NodesOf(rest);
    }
    NestsPlain(NodesOf(x));
  }

  lemma GroupNests(x: Written)
    ensures Nest(NodesOf(x) + [Leaf(CPAREN, ")")]) == NodesOf(x) + [Leaf(CPAREN, ")")]
  {
    NoCalls(x);
    NestsPlain(NodesOf(x) + [Leaf(CPAREN, ")")]);
  }

  // ----- well-formed text -----

  predicate WellSpelled(o: Operand) {
    match o
    case Column(tblref, name) =>
      && name != "" && AllIdent(name) && AllIdent(tblref)
      && IsLetter(if tblref == "" then name[0] else tblref[0])
      && |tblref| + |name| < MAXEXPRSIZE
    case StringConst(s) => '\'' !in s && NUL !in s && |s| < MAXEXPRSIZE
    case NumberConst(digits) => digits != "" && AllDigits(digits) && |digits| < MAXEXPRSIZE
  }

  /** White space where it is meant to be; a column name is set off from AND and OR; a group
      is followed by a connector or nothing; a group starts with a comparison, or is one operand. */
  predicate WellWritten(x: Written) {
    && AllWhite(x.w)
    && WellWrittenTerm(x.term)
    && (x.term.Opd? && x.term.o.Column? && x.tail.Conn? ==> x.w != "")
    && (x.term.Paren? ==> !x.tail.Cmp?)
    && WellWrittenTail(x.tail)
  }

  predicate WellWrittenTerm(t: Term) {
    match t
    case Opd(o) => WellSpelled(o)
    case Paren(w, inner) => AllWhite(w) && inner.term.Opd? && !inner.tail.Conn? && WellWritten(inner)
  }

  predicate WellWrittenTail(t: Tail) {
    match t
    case End => true
    case Cmp(_, w, rest) => AllWhite(w) && WellWritten(rest)
    case Conn(_, w, rest) => AllWhite(w) && WellWritten(rest)
  }

  /** What may follow a condition: the end of the query, the parenthesis of a sub-query, or WHERE. */
  predicate Boundary(rest: string) {
    rest == "" || rest[0] == ')' || rest[0] == 'W'
  }

  /** White space ends the condition. */
  predicate EndsBlank(x: Written) {
    match x.tail
    case End => x.w != ""
    case Cmp(_, _, rest) => EndsBlank(rest)
    case Conn(_, _, rest) => EndsBlank(rest)
  }

  /** The condition `x` can stand before `rest`: it is set off from WHERE. */
  predicate Stands(x: Written, rest: string) {
    WellWritten(x) && Boundary(rest) && (Head(rest) == 'W' ==> EndsBlank(x))
  }

  /** What is left to read is `rest`, or at the end of the query at most white space. */
  predicate Remains(s: string, rest: string) {
    s == rest || (rest == "" && AllWhite(s))
  }

  // ----- which condition a text writes -----

  predicate Writes(x: Written, c: Condition)
    decreases c, 1
  {
    match c.item
    case Plain(l, op, r) =>
      x.term == Opd(l) && x.tail.Cmp? && x.tail.op == op && x.tail.rest.term == Opd(r)
      && TailWrites(x.tail.rest.tail, c)
    case Group(inner) =>
      x.term.Paren? && Writes(x.term.inner, inner) && TailWrites(x.tail, c)
  }

  predicate TailWrites(t: Tail, c: Condition)
    decreases c, 0
  {
    match c
    case Last(_) => t.End?
    case More(_, conn, rest) => t.Conn? && t.conn == conn && Writes(t.rest, rest)
  }

  /** The parser makes of the text of a condition exactly the nodes of that condition. */
  lemma {:induction false} WritesNodes(x: Written, c: Condition)
    requires Writes(x, c)
    ensures NodesOf(x) == Nodes(c)
    decreases c, 1
  {
    match c.item {
      case Plain(l, op, r) =>
        TailWritesNodes(x.tail.rest.tail, c);
        assert NodesOf(x) == [OperandNode(l)] + ([Leaf(BOOLOP, Spelling(op))] + NodesOf(x.tail.rest));
      case Group(inner) =>
        WritesNodes(x.term.inner, inner);
        TailWritesNodes(x.tail, c);
    }
  }

  lemma {:induction false} TailWritesNodes(t: Tail, c: Condition)
    requires TailWrites(t, c)
    ensures ItemNodes(c.item) + TailNodes(t) == Nodes(c)
    decreases c, 0
  {
    if c.More? {
      WritesNodes(t.rest, c.rest);
    }
  }

  // ----- the helpers on well-formed text -----

  lemma {:induction false} SkipsWhite(w: string, rest: string)
    requires AllWhite(w) && rest != "" && !IsWhiteSpace(rest[0])
    ensures SkipWhite(w + rest) == rest
  {
    if w == "" {
      assert w + rest == rest;
    } else {
      assert (w + rest)[1..] == w[1..] + rest;
      SkipsWhite(w[1..], rest);
    }
  }

  lemma {:induction false} SkipsToEnd(w: string)
    requires AllWhite(w)
    ensures AllWhite(SkipWhite(w))
  {
    if |w| >= 2 {
      SkipsToEnd(w[1..]);
    }
  }

  lemma {:induction false} ScansPlainIdent(name: string, rest: string, buff: string, cutOff: nat)
    requires AllIdent(name) && (rest == "" || !IsIdent(rest[0]))
    requires name != "" ==> Head(rest) != '.'
    ensures ScanIdent(name + rest, buff, cutOff) == (buff + name, cutOff, rest)
    decreases |name|
  {
    var s := name + rest;
    if name == "" {
      assert s == rest && buff + name == buff;
    } else {
      assert s[1..] == name[1..] + rest;
      assert (buff + [s[0]]) + name[1..] == buff + name;
      if |name| > 1 {
        assert s[1] == name[1];
      }
      ScansPlainIdent(name[1..], rest, buff + [s[0]], cutOff);
    }
  }

  lemma {:induction false} ScansTableRef(tblref: string, name: string, rest: string, buff: string, cutOff: nat)
    requires tblref != "" && name != "" && AllIdent(tblref) && AllIdent(name)
    requires (rest == "" || !IsIdent(rest[0])) && Head(rest) != '.'
    ensures ScanIdent(tblref + "." + name + rest, buff, cutOff) ==
            (buff + tblref + name, |buff| + |tblref|, rest)
    decreases |tblref|
  {
    var s := tblref + "." + name + rest;
    var buff' := buff + [s[0]];
    if |tblref| == 1 {
      assert s[2..] == name + rest;
      ScansPlainIdent(name, rest, buff', |buff| + 1);
      assert buff' == buff + tblref;
    } else {
      assert s[1] == tblref[1];
      assert s[1..] == tblref[1..] + "." + name + rest;
      ScansTableRef(tblref[1..], name, rest, buff', cutOff);
      assert buff' + tblref[1..] == buff + tblref;
    }
  }

  lemma {:induction false} ScansNumber(digits: string, rest: string, buff: string)
    requires AllDigits(digits) && (rest == "" || !IsDigit(rest[0]))
    ensures ScanNumber(digits + rest, buff) == (buff + digits, rest)
    decreases |digits|
  {
    if digits == "" {
      assert digits + rest == rest && buff + digits == buff;
    } else {
      assert (digits + rest)[1..] == digits[1..] + rest;
      ScansNumber(digits[1..], rest, buff + [digits[0]]);
      assert buff + [digits[0]] + digits[1..] == buff + digits;
    }
  }

  lemma {:induction false} ScansString(s: string, rest: string, buff: string)
    requires '\'' !in s
    ensures ScanString(s + "'" + rest, buff) == Some((buff + s, rest))
    decreases |s|
  {
    var text := s + "'" + rest;
    if s == "" {
      assert text[1..] == rest && buff + s == buff;
    } else {
      assert text[1..] == s[1..] + "'" + rest;
      ScansString(s[1..], rest, buff + [s[0]]);
      assert buff + [s[0]] + s[1..] == buff + s;
    }
  }

  /** A column name is not taken for a function call. */
  lemma {:induction false} NoCall(ident: string, rest: string)
    requires forall i :: 0 <= i < |ident| ==> ident[i] != '('
    requires Head(rest) != '(' && !IsAlphaNumeric(Head(rest))
    ensures LookAhead(ident + rest) != '('
  {
    if ident == "" {
      assert ident + rest == rest;
    } else {
      assert (ident + rest)[1..] == ident[1..] + rest;
      NoCall(ident[1..], rest);
    }
  }

  /** What the scanners of constants find on the text of a constant. */
  lemma ConstantReads(o: Operand, text: string, rest: string)
    ensures o.StringConst? && WellSpelled(o) && text == OperandText(o) + rest ==>
              text != "" && text[0] == '\'' && ScanString(text[1..], "") == Some((o.s, rest))
    ensures o.NumberConst? && WellSpelled(o) && text == OperandText(o) + rest && !IsDigit(Head(rest)) ==>
              text != "" && IsDigit(text[0]) && text[0] != '\'' && ScanNumber(text, "") == (o.digits, rest)
  {
    if o.StringConst? && WellSpelled(o) && text == OperandText(o) + rest {
      assert text[1..] == o.s + "'" + rest;
      ScansString(o.s, rest, "");
      assert "" + o.s == o.s;
    }
    if o.NumberConst? && WellSpelled(o) && text == OperandText(o) + rest && !IsDigit(Head(rest)) {
      ScansNumber(o.digits, rest, "");
      assert text[0] == o.digits[0] && "" + o.digits == o.digits;
    }
  }

  /** What follows the term of a condition. */
  function Follow(x: Written, rest: string): string {
    x.w + (TailText(x.tail) + rest)
  }

  lemma TextSplits(x: Written, rest: string)
    ensures TextOf(x) + rest == TermText(x.term) + Follow(x, rest)
  {
    assert TextOf(x) + rest == TermText(x.term) + (x.w + TailText(x.tail) + rest);
    assert x.w + TailText(x.tail) + rest == x.w + (TailText(x.tail) + rest);
  }

  lemma TermHead(t: Term)
    requires WellWrittenTerm(t)
    ensures TermText(t) != "" && !IsWhiteSpace(TermText(t)[0])
    ensures t.Opd? ==> TermText(t)[0] !in {'(', ')', '*', '=', '<', '>', '!'}
    ensures t.Opd? && t.o.Column? <==> IsLetter(TermText(t)[0])
  {
  }

  lemma TailHead(t: Tail, rest: string)
    requires WellWrittenTail(t) && Boundary(rest) && TailText(t) + rest != ""
    ensures var c := (TailText(t) + rest)[0];
            && !IsWhiteSpace(c) && !IsDigit(c) && c !in {'(', '.', '_'}
            && (!t.Conn? && (t.End? ==> rest[0] != 'W') ==> !IsIdent(c))
            && (t.Cmp? <==> c in {'=', '<', '>', '!'})
            && (t.End? ==> c in {')', 'W'})
  {
    hide WellWritten, TextOf;
  }

  /** White space before the tail is skipped; at the end of the query some may be left. */
  lemma SkipsToTail(x: Written, rest: string)
    requires Stands(x, rest)
    ensures var tail := TailText(x.tail) + rest;
            if tail != "" then SkipWhite(Follow(x, rest)) == tail else AllWhite(SkipWhite(Follow(x, rest)))
  {
    if TailText(x.tail) + rest != "" {
      TailHead(x.tail, rest);
      SkipsWhite(x.w, TailText(x.tail) + rest);
    } else {
      assert Follow(x, rest) == x.w;
      SkipsToEnd(x.w);
    }
  }

  lemma FollowHead(x: Written, rest: string)
    requires Stands(x, rest)
    ensures !IsDigit(Head(Follow(x, rest)))
    ensures x.term.Opd? && x.term.o.Column? ==>
              !IsIdent(Head(Follow(x, rest))) && Head(Follow(x, rest)) !in {'.', '('}
  {
    if x.w == "" {
      assert Follow(x, rest) == TailText(x.tail) + rest;
      if Follow(x, rest) != "" {
        TailHead(x.tail, rest);
      }
    }
  }

  /** A column name is read back, and is not taken for a function call. */
  lemma ColumnReads(o: Operand, follow: string)
    requires o.Column? && WellSpelled(o) && !IsIdent(Head(follow)) && Head(follow) !in {'.', '('}
    ensures ScanIdent(OperandText(o) + follow, "", 0) == (o.tblref + o.name, |o.tblref|, follow)
    ensures LookAhead(OperandText(o) + follow) != '('
  {
    if o.tblref == "" {
      ScansPlainIdent(o.name, follow, "", 0);
      assert "" + o.name == o.tblref + o.name;
    } else {
      ScansTableRef(o.tblref, o.name, follow, "", 0);
      assert "" + o.tblref == o.tblref;
    }
    NoCall(OperandText(o), follow);
  }

  lemma {:induction false} PrefixOfWord(w: string, follow: string)
    ensures CommonPrefix(w + follow, w) == |w| && (w + follow)[|w|..] == follow
  {
    if w != "" {
      assert (w + follow)[1..] == w[1..] + follow;
      PrefixOfWord(w[1..], follow);
    }
  }

  /** AND and OR are told apart, and nothing else is taken for either. */
  lemma PeeksConnector(conn: Connector, follow: string)
    requires follow != ""
    ensures var s := ConnectorText(conn) + follow;
            PeekWord(s, ConnectorText(conn)) && (conn == OR ==> !PeekWord(s, "AND"))
  {
    PrefixOfWord(ConnectorText(conn), follow);
    if conn == OR {
      assert (ConnectorText(conn) + follow)[0] == 'O';
    }
  }

  lemma PeeksNothing(s: string)
    requires s == "" || s[0] == ')' || s[0] == 'W' || IsWhiteSpace(s[0])
    ensures !PeekWord(s, "AND") && !PeekWord(s, "OR")
  {
  }

  lemma OperandHead(o: Operand, follow: string)
    requires WellSpelled(o)
    ensures var s := OperandText(o) + follow;
            s != "" && s[0] != '*' && (o.Column? <==> IsLetter(s[0]))
  {
  }

  lemma OperatorHead(op: Operator, follow: string)
    ensures var s := Spelling(op) + follow;
            && s[0] == Spelling(op)[0]
            && (if |Spelling(op)| == 1 then s[1..] == follow && Spelling(op) == [s[0]]
                else s[1] == '=' && s[1..][1..] == follow && Spelling(op) == [s[0]] + ['='])
            && (op == NotEqual <==> s[0] == '!')
  {
  }

  /** What an expression leaves: all of the condition, or from the connector on. */
  function AfterExpr(x: Written, rest: string): string {
    if x.tail.Cmp? then rest else TailText(x.tail) + rest
  }

  function ExprNodes(x: Written): seq<Node> {
    if x.tail.Cmp? then NodesOf(x) else [TermNode(x.term)]
  }

  lemma CmpSplits(x: Written, rest: string)
    requires WellWritten(x) && x.tail.Cmp?
    ensures var after := x.tail.w + (TextOf(x.tail.rest) + rest);
            TailText(x.tail) + rest == Spelling(x.tail.op) + after && Head(after) != '='
  {
    assert WellWritten(x.tail.rest);
    TermHead(x.tail.rest.term);
    var y := TextOf(x.tail.rest);
    assert Spelling(x.tail.op) + (x.tail.w + y) + rest == Spelling(x.tail.op) + (x.tail.w + (y + rest));
    assert y[0] == TermText(x.tail.rest.term)[0];
  }

  /** What follows an operand, after white space: a comparison operator and its right side, or
      nothing that could be taken for one. */
  lemma ExprTailStarts(x: Written, rest: string)
    requires Stands(x, rest)
    ensures var s := SkipWhite(Follow(x, rest));
            match x.tail
            case Cmp(op, w, y) =>
              var after := w + (TextOf(y) + rest);
              && s == Spelling(op) + after && Head(after) != '=' && AllWhite(w) && WellWritten(y)
              && AfterExpr(x, rest) == rest && TailNodes(x.tail) == [Leaf(BOOLOP, Spelling(op))] + NodesOf(y)
            case _ =>
              && Head(s) !in {'=', '<', '>', '!'}
              && (s == AfterExpr(x, rest) || (AfterExpr(x, rest) == "" && AllWhite(s)))
  {
    SkipsToTail(x, rest);
    if TailText(x.tail) + rest != "" {
      TailHead(x.tail, rest);
    }
    if x.tail.Cmp? {
      CmpSplits(x, rest);
    } else {
      assert AfterExpr(x, rest) == TailText(x.tail) + rest;
      WhiteHead(SkipWhite(Follow(x, rest)));
    }
    hide SkipWhite, Follow, WellWritten, TextOf, TailText, AfterExpr, AllWhite;
  }

  lemma WhiteHead(s: string)
    ensures AllWhite(s) ==> Head(s) !in {'=', '<', '>', '!'}
  {
  }

  lemma PrefixNext(s: string, w: string)
    requires s != "" && w != "" && s[0] == w[0]
    ensures CommonPrefix(s, w) == 1 + CommonPrefix(s[1..], w[1..])
  {
  }

  lemma PrefixEnds(s: string, w: string)
    requires s == "" || w == "" || s[0] != w[0]
    ensures CommonPrefix(s, w) == 0
  {
  }

  /** Inside the parentheses: white space, the inner condition, the closing parenthesis. */
  lemma GroupSplits(x: Written, rest: string)
    requires WellWritten(x) && x.term.Paren?
    ensures var s, after := TextOf(x) + rest, ")" + Follow(x, rest);
            && s != "" && SkipWhite(s[1..]) == TextOf(x.term.inner) + after && Head(after) == ')'
            && Stands(x.term.inner, after) && x.term.inner.term.Opd? && !x.term.inner.tail.Conn?
            && AfterExpr(x.term.inner, after) == after && ExprNodes(x.term.inner) == NodesOf(x.term.inner)
  {
    TextSplits(x, rest);
    var inner, after := x.term.inner, ")" + Follow(x, rest);
    assert WellWritten(inner) && WellWrittenTerm(inner.term);
    TermHead(inner.term);
    assert TermText(x.term) + Follow(x, rest) == "(" + (x.term.w + (TextOf(inner) + after));
    SkipsWhite(x.term.w, TextOf(inner) + after);
  }

  /** A word that was seen lies in the text but for its last letter. */
  lemma PeekedLength(s: string, w: string)
    requires PeekWord(s, w)
    ensures |s| >= |w| && CommonPrefix(s, w) + 1 >= |w|
  {
  }

  lemma ConnSplits(x: Written, rest: string)
    requires Stands(x, rest) && x.tail.Conn?
    ensures Stands(x.tail.rest, rest) && AllWhite(x.tail.w)
    ensures TailNodes(x.tail) == [ConnectorNode(x.tail.conn)] + NodesOf(x.tail.rest)
    ensures var word, follow := ConnectorText(x.tail.conn), x.tail.w + (TextOf(x.tail.rest) + rest);
            && TailText(x.tail) + rest == word + follow
            && (x.tail.conn == AND <==> PeekWord(word + follow, "AND"))
            && PeekWord(word + follow, word)
            && CommonPrefix(word + follow, word) == |word| && (word + follow)[|word|..] == follow
  {
    var y, word := x.tail.rest, ConnectorText(x.tail.conn);
    var follow := x.tail.w + (TextOf(y) + rest);
    assert WellWritten(x) && WellWrittenTail(x.tail);
    assert WellWritten(y);
    TermHead(y.term);
    assert word + (x.tail.w + TextOf(y)) + rest == word + follow;
    assert TextOf(y) != "";
    PeeksConnector(x.tail.conn, follow);
    PrefixOfWord(word, follow);
  }

  /** Behind an expression there is a connector, or nothing that could be taken for one. */
  lemma AfterExprSkips(x: Written, rest: string, s: string)
    requires Stands(x, rest)
    requires s == AfterExpr(x, rest) || (AfterExpr(x, rest) == "" && AllWhite(s))
    ensures x.tail.Conn? ==>
              SkipWhite(s) == TailText(x.tail) + rest && ExprNodes(x) + TailNodes(x.tail) == NodesOf(x)
    ensures !x.tail.Conn? ==>
              && !PeekWord(SkipWhite(s), "AND") && !PeekWord(SkipWhite(s), "OR")
              && (SkipWhite(s) == rest || (rest == "" && AllWhite(SkipWhite(s))))
              && ExprNodes(x) == NodesOf(x)
  {
    hide CommonPrefix, TextOf, WellWritten;
    if x.tail.Conn? {
      assert ConnectorText(x.tail.conn) != "" && !IsWhiteSpace(s[0]);
    } else {
      assert AfterExpr(x, rest) == rest;
      if rest == "" {
        SkipsToEnd(s);
      }
      PeeksNothing(SkipWhite(s));
    }
  }

  /** The expression in a group is all of it, and reading it ends at the closing parenthesis. */
  lemma InGroup(x: Written, rest: string)
    requires Stands(x, rest) && x.term.Opd? && !x.tail.Conn? && Head(rest) == ')'
    ensures Head(TextOf(x) + rest) != ')' && SkipWhite(rest) == rest && rest != ""
    ensures AfterExpr(x, rest) == rest && ExprNodes(x) == NodesOf(x)
    ensures forall s :: Remains(s, rest) <==> s == rest
  {
    TextSplits(x, rest);
    TermHead(x.term);
  }

  lemma OnlyRemains(s: string, rest: string)
    requires Remains(s, rest) && rest != ""
    ensures s == rest
  {
  }

  /** What is left, and which node is there, once a group is closed. */
  lemma GroupCloses(x: Written, rest: string)
    requires Stands(x, rest) && x.term.Paren?
    ensures (")" + Follow(x, rest))[1..] == Follow(x, rest)
    ensures var left := SkipWhite(Follow(x, rest));
            left == AfterExpr(x, rest) || (AfterExpr(x, rest) == "" && AllWhite(left))
    ensures ExprNodes(x) == [Branch(OPAREN, "(", NodesOf(x.term.inner) + [Leaf(CPAREN, ")")])]
  {
    SkipsToTail(x, rest);
  }
}
