/** The text of a query, with any white space, and the tree the parser makes of it. */
module QueryText {
  import opened CText
  import opened ParseTree
  import opened WrittenText

  // Every text function takes the text that follows as its last parameter.

  /** An item of a select list; the arguments of a function are a list, too. */
  datatype ListItem = StarItem | ColumnItem(o: Operand) | CallItem(f: string, args: Items)

  /** A select list: white space, an item, white space, and after a comma the rest. */
  datatype Items = Items(w: string, item: ListItem, after: string, rest: Option<Items>)

  /** A quoted file or a stored table. */
  datatype Target = Path(file: string) | Table(name: string)

  /** AS, white space, a name, and white space. */
  datatype Alias = Alias(w: string, name: string, after: string)

  /** A table with white space and maybe an alias behind it. */
  datatype Origin = Origin(target: Target, w: string, alias: Option<Alias>)

  /** What is selected from; `w` stands behind JOIN and `v` behind ON. */
  datatype Place =
    | Single(origin: Origin)
    | Nested(q: WrittenQuery, after: string, alias: Option<Alias>)
    | Joined(left: Origin, w: string, right: Origin, v: string, on: Written)

  datatype WrittenWhere = WrittenWhere(w: string, x: Written)

  datatype WrittenQuery =
    WrittenQuery(before: string, items: Items, w: string, place: Place, where: Option<WrittenWhere>)

  function ItemText(i: ListItem, k: string): string {
    match i
    case StarItem => "*" + k
    case ColumnItem(o) => OperandText(o) + k
    case CallItem(f, args) => f + ("(" + ItemsText(args, ")" + k))
  }

  /** What follows an item. */
  function NextText(x: Items, k: string): string
    decreases x, 0
  {
    match x.rest
    case None => k
    case Some(rest) => "," + ItemsText(rest, k)
  }

  function ItemsText(x: Items, k: string): string
    decreases x, 1
  {
    x.w + ItemText(x.item, x.after + NextText(x, k))
  }

  function WhereText(c: Option<WrittenWhere>, k: string): string {
    match c
    case None => k
    case Some(c) => "WHERE" + (c.w + (TextOf(c.x) + k))
  }

  function TargetText(t: Target, k: string): string {
    match t
    case Path(file) => "'" + (file + "'" + k)
    case Table(name) => name + k
  }

  function AliasText(a: Option<Alias>, k: string): string {
    match a
    case None => k
    case Some(a) => "AS" + (a.w + (a.name + (a.after + k)))
  }

  function OriginText(o: Origin, k: string): string {
    TargetText(o.target, o.w + AliasText(o.alias, k))
  }

  /** ON and its condition. */
  function OnText(v: string, on: Written, k: string): string {
    "ON" + (v + (TextOf(on) + k))
  }

  /** JOIN and what is joined. */
  function JoinText(w: string, right: Origin, v: string, on: Written, k: string): string {
    "JOIN" + (w + OriginText(right, OnText(v, on, k)))
  }

  function PlaceText(p: Place, k: string): string
    decreases p, 0
  {
    match p
    case Single(origin) => OriginText(origin, k)
    case Nested(q, after, alias) => "(" + TextOfQuery(q, ")" + (after + AliasText(alias, k)))
    case Joined(left, w, right, v, on) => OriginText(left, JoinText(w, right, v, on, k))
  }

  function FromText(q: WrittenQuery, k: string): string
    decreases q, 0
  {
    "FROM" + (q.w + PlaceText(q.place, WhereText(q.where, k)))
  }

  function TextOfQuery(q: WrittenQuery, k: string): string
    decreases q, 1
  {
    q.before + ("SELECT" + ItemsText(q.items, FromText(q, k)))
  }

  // ----- the tree -----

  /** The nodes that are added for an item, in this order. */
  function ItemAdds(i: ListItem): (r: seq<Node>)
    ensures r != []
  {
    match i
    case StarItem => [Leaf(STAR, "*")]
    case ColumnItem(o) => [OperandNode(o)]
    case CallItem(f, args) => [Leaf(IDENT_FUN, f)] + ItemsAdd(args)
  }

  function ItemsAdd(x: Items): (r: seq<Node>)
    ensures r != []
  {
    match x.rest
    case None => ItemAdds(x.item)
    case Some(rest) => ItemAdds(x.item) + ItemsAdd(rest)
  }

  function ItemsNodes(x: Items): seq<Node> {
    Nest(ItemsAdd(x))
  }

  function WhereNodes(c: Option<WrittenWhere>): seq<Node> {
    match c
    case None => []
    case Some(c) => [Branch(WHERE, "WHERE", NodesOf(c.x))]
  }

  function AliasName(a: Option<Alias>): string {
    if a.Some? then a.value.name else ""
  }

  function OriginNode(o: Origin): Node {
    match o.target
    case Path(file) => Leaf(FILEPATH, file).(alias := AliasName(o.alias))
    case Table(name) => Leaf(IDENT_TBL, name).(alias := AliasName(o.alias))
  }

  function PlaceNodes(p: Place): seq<Node> {
    match p
    case Single(origin) => [OriginNode(origin)]
    case Nested(q, _, _) => QueryNodes(q)
    case Joined(left, _, _, _, _) => [OriginNode(left)] + JoinNodes(p)
  }

  /** What is behind the left table of a join. */
  function JoinNodes(p: Place): seq<Node>
    requires p.Joined?
  {
    [Leaf(JOIN, "JOIN"), OriginNode(p.right), Branch(ON, "ON", NodesOf(p.on))]
  }

  /** The alias of a sub-query goes to FROM. */
  function PlaceAlias(p: Place): string {
    if p.Nested? then AliasName(p.alias) else ""
  }

  /** SELECT, FROM and WHERE, each with what belongs to it as its child chain. */
  function QueryNodes(q: WrittenQuery): seq<Node> {
    [Branch(SELECT, "SELECT", ItemsNodes(q.items)),
     Branch(FROM, "FROM", PlaceNodes(q.place)).(alias := PlaceAlias(q.place))]
    + WhereNodes(q.where)
  }

  // ----- well-formed text -----

  predicate AllLetters(s: string) { forall i :: 0 <= i < |s| ==> IsLetter(s[i]) }

  predicate AllAlphaNumeric(s: string) { forall i :: 0 <= i < |s| ==> IsAlphaNumeric(s[i]) }

  predicate WellItem(i: ListItem) {
    match i
    case StarItem => true
    case ColumnItem(o) => o.Column? && WellSpelled(o)
    case CallItem(f, args) =>
      f != "" && IsLetter(f[0]) && AllAlphaNumeric(f) && |f| < MAXEXPRSIZE && WellItems(args)
  }

  predicate WellItems(x: Items) {
    AllWhite(x.w) && AllWhite(x.after) && WellItem(x.item) && (x.rest.Some? ==> WellItems(x.rest.value))
  }

  /** White space ends the list, unless its last item is no column. */
  predicate ItemsEndBlank(x: Items) {
    match x.rest
    case None => x.item.ColumnItem? ==> x.after != ""
    case Some(rest) => ItemsEndBlank(rest)
  }

  /** The list can stand before `k`: FROM, from which it is set off, or the end of the arguments. */
  predicate ItemsStand(x: Items, k: string) {
    WellItems(x) && Head(k) in {'F', ')'} && (Head(k) == 'F' ==> ItemsEndBlank(x))
  }

  /** An operand, a star or a call that is read to its end before `k`. */
  predicate ItemStands(i: ListItem, k: string) {
    match i
    case StarItem => true
    case ColumnItem(o) =>
      WellSpelled(o) && !IsDigit(Head(k)) && (o.Column? ==> !IsIdent(Head(k)) && Head(k) !in {'.', '('})
    case CallItem(_, _) => WellItem(i)
  }

  predicate WellTarget(t: Target) {
    match t
    case Path(file) => '\'' !in file && NUL !in file && |file| < MAXEXPRSIZE
    case Table(name) => name != "" && AllIdent(name) && |name| < MAXEXPRSIZE
  }

  predicate WellAlias(a: Option<Alias>) {
    match a
    case None => true
    case Some(a) =>
      AllWhite(a.w) && a.name != "" && AllLetters(a.name) && |a.name| < MAXEXPRSIZE && AllWhite(a.after)
  }

  /** The alias of a stored table is set off from its name. */
  predicate WellOrigin(o: Origin) {
    WellTarget(o.target) && AllWhite(o.w) && WellAlias(o.alias) && (o.target.Table? && o.alias.Some? ==> o.w != "")
  }

  /** What follows a table or a sub-query: nothing, the end of a sub-query, or WHERE, JOIN or ON. */
  predicate Follows(k: string) {
    k == "" || k[0] in {')', 'W', 'J', 'O'}
  }

  predicate AliasStands(a: Option<Alias>, k: string) {
    WellAlias(a) && Follows(k) && (a.Some? && a.value.after == "" ==> !IsLetter(Head(k)))
  }

  /** The table can stand before `k`, from which it is set off. */
  predicate OriginStands(o: Origin, k: string) {
    && WellOrigin(o) && AliasStands(o.alias, k)
    && (o.target.Table? && o.alias.None? && o.w == "" ==> !IsLetter(Head(k)))
  }

  predicate JoinStands(w: string, right: Origin, v: string, on: Written, k: string) {
    AllWhite(w) && OriginStands(right, OnText(v, on, k)) && AllWhite(v) && Stands(on, k)
  }

  /** What can follow what a query selects from: WHERE, or what follows the query. */
  predicate Behind(tail: string) {
    tail == "" || tail[0] == ')' || tail[0] == 'W'
  }

  predicate PlaceStands(p: Place, k: string)
    decreases p
  {
    && Behind(k)
    && match p
       case Single(origin) => OriginStands(origin, k)
       case Nested(q, after, alias) => WellQuery(q) && AllWhite(after) && AliasStands(alias, k)
       case Joined(left, w, right, v, on) =>
         OriginStands(left, JoinText(w, right, v, on, k)) && JoinStands(w, right, v, on, k)
  }

  /** The query can stand at the end of the text or before a parenthesis. */
  predicate WellQuery(q: WrittenQuery)
    decreases q
  {
    && AllWhite(q.before) && WellItems(q.items) && ItemsEndBlank(q.items) && AllWhite(q.w)
    && PlaceStands(q.place, if q.where.Some? then "W" else "")
    && (q.where.Some? ==> AllWhite(q.where.value.w) && WellWritten(q.where.value.x))
  }

  // ----- what the parser finds: a select list -----

  /** The letters `addAlias` collects, and what is left behind them. */
  function ScanAlias(s: string, buff: string): (r: (string, string))
    ensures |r.1| <= |s|
  {
    if s == "" || !IsLetter(s[0]) then (buff, s) else ScanAlias(s[1..], buff + [s[0]])
  }

  lemma {:induction false} ScansAlias(name: string, rest: string, buff: string)
    requires AllLetters(name) && !IsLetter(Head(rest))
    ensures ScanAlias(name + rest, buff) == (buff + name, rest)
    decreases |name|
  {
    if name == "" {
      assert name + rest == rest && buff + name == buff;
    } else {
      assert (name + rest)[1..] == name[1..] + rest;
      ScansAlias(name[1..], rest, buff + [name[0]]);
      assert buff + [name[0]] + name[1..] == buff + name;
    }
  }

  /** The name of a function is taken for one. */
  lemma {:induction false} LooksLikeCall(f: string, rest: string)
    requires AllAlphaNumeric(f) && rest != ""
    ensures LookAhead(f + ("(" + rest)) == '('
  {
    if f == "" {
      assert f + ("(" + rest) == "(" + rest;
    } else {
      assert (f + ("(" + rest))[1..] == f[1..] + ("(" + rest);
      LooksLikeCall(f[1..], rest);
    }
  }

  /** The name of a function, and what stands between its parentheses. */
  lemma CallReads(f: string, args: Items, k: string)
    requires WellItem(CallItem(f, args))
    ensures var s, inner := ItemText(CallItem(f, args), k), ItemsText(args, ")" + k);
            && s != "" && IsLetter(s[0]) && LookAhead(s) == '('
            && ScanIdent(s, "", 0) == (f, 0, "(" + inner) && ("(" + inner)[1..] == inner
            && ItemsStand(args, ")" + k)
  {
    var inner := ItemsText(args, ")" + k);
    SomeText(args, ")" + k);
    LooksLikeCall(f, inner);
    ScansPlainIdent(f, "(" + inner, "", 0);
    assert "" + f == f;
    hide ScanIdent, LookAhead, WellItems, ItemsText;
  }

  lemma {:induction false} SomeText(x: Items, k: string)
    requires k != ""
    ensures ItemsText(x, k) != ""
  {
    match x.item {
      case StarItem =>
      case CallItem(_, _) =>
      case ColumnItem(o) =>
        if x.rest.Some? {
          SomeText(x.rest.value, k);
        }
    }
  }

  /** The first character of an item tells which one it is. */
  lemma ItemHead(i: ListItem, k: string)
    requires ItemStands(i, k)
    ensures var s := ItemText(i, k);
            && s != "" && !IsWhiteSpace(s[0]) && s[0] != '('
            && (i.StarItem? ==> s[0] == '*' && s[1..] == k) && (i.CallItem? ==> IsLetter(s[0]) && LookAhead(s) == '(')
            && (i.ColumnItem? ==> s[0] != '*' && (i.o.Column? <==> IsLetter(s[0])))
            && (i.ColumnItem? && i.o.Column? ==> LookAhead(s) != '(')
  {
    match i {
      case StarItem =>
      case CallItem(f, args) =>
        CallReads(f, args, k);
      case ColumnItem(o) =>
        OperandHead(o, k);
        TermHead(Opd(o));
        if o.Column? {
          ColumnReads(o, k);
        }
    }
    hide LookAhead, WellSpelled, WellItem, OperandText, ItemsText;
  }

  /** After its white space, an item; after the item and its white space, a comma or the end. */
  lemma ItemsSkip(x: Items, k: string)
    requires ItemsStand(x, k)
    ensures var next := NextText(x, k);
            && ItemStands(x.item, x.after + next)
            && SkipWhite(ItemsText(x, k)) == ItemText(x.item, x.after + next)
            && next != "" && Head(next) == (if x.rest.None? then Head(k) else ',')
            && SkipWhite(x.after + next) == next && SkipWhite(next) == next
            && Head(next) !in {'=', '<', '>', '!'}
            && (x.rest.Some? ==> next[1..] == ItemsText(x.rest.value, k) && ItemsStand(x.rest.value, k))
  {
    var next := NextText(x, k);
    assert AllWhite(x.w) && AllWhite(x.after) && WellItem(x.item);
    if x.after == "" {
      assert x.after + next == next;
    }
    assert ItemStands(x.item, x.after + next);
    ItemHead(x.item, x.after + next);
    SkipsWhite(x.w, ItemText(x.item, x.after + next));
    SkipsWhite(x.after, next);
    hide ItemText, WellSpelled, AllWhite;
  }

  // ----- what the parser finds: what is selected from -----

  /** A word is not taken for another one that starts with a different letter. */
  lemma PeeksNotWord(s: string, w: string)
    requires |w| >= 2 && Head(s) != w[0] && w[0] != NUL
    ensures !PeekWord(s, w)
  {
  }

  lemma PeeksWord(w: string, follow: string)
    requires w != "" && follow != ""
    ensures PeekWord(w + follow, w)
    ensures CommonPrefix(w + follow, w) == |w| && (w + follow)[|w|..] == follow
  {
    PrefixOfWord(w, follow);
  }

  lemma RemainsSkips(s: string, k: string)
    requires Remains(s, k) && (k == "" || !IsWhiteSpace(k[0]))
    ensures Remains(SkipWhite(s), k)
  {
    if k == "" {
      SkipsToEnd(s);
    }
  }

  lemma SkipsTo(w: string, k: string)
    requires AllWhite(w) && (k == "" || !IsWhiteSpace(k[0]))
    ensures Remains(SkipWhite(w + k), k)
  {
    if k != "" {
      SkipsWhite(w, k);
    } else {
      assert w + k == w;
      SkipsToEnd(w);
    }
  }

  /** No word is seen that does not follow. */
  lemma PeeksNone(s: string, k: string, w: string)
    requires Remains(s, k) && |w| >= 2 && IsLetter(w[0]) && Head(k) != w[0]
    ensures !PeekWord(s, w)
  {
    PeeksNotWord(s, w);
  }

  lemma AliasHead(a: Option<Alias>, k: string)
    requires AliasStands(a, k)
    ensures var s := AliasText(a, k);
            && (s == "" || !IsWhiteSpace(s[0])) && Head(s) == (if a.Some? then 'A' else Head(k))
            && (a.Some? ==> |s| >= 2 && PeekWord(s, "AS"))
  {
    if a.Some? {
      PeeksWord("AS", a.value.w + (a.value.name + (a.value.after + k)));
    }
  }

  lemma AliasReads(a: Alias, k: string)
    requires AliasStands(Some(a), k)
    ensures ScanAlias(SkipWhite(AliasText(Some(a), k)[2..]), "") == (a.name, a.after + k)
  {
    var text := a.name + (a.after + k);
    SkipsWhite(a.w, text);
    if a.after == "" {
      assert a.after + k == k;
    }
    ScansAlias(a.name, a.after + k, "");
    assert "" + a.name == a.name;
    hide ScanAlias;
  }

  /** What is left behind the alias, if there is one. */
  function BehindAlias(w: string, a: Option<Alias>, k: string): string {
    match a
    case None => SkipWhite(w + k)
    case Some(a) => a.after + k
  }

  /** Behind a table or a sub-query: an alias, or nothing that could be taken for one. */
  lemma AliasFollows(w: string, a: Option<Alias>, k: string)
    requires AllWhite(w) && AliasStands(a, k)
    ensures var s := SkipWhite(w + AliasText(a, k));
            && Remains(s, AliasText(a, k)) && (PeekWord(s, "AS") <==> a.Some?)
            && (if a.Some? then s == AliasText(a, k) && BehindAlias(w, a, k) == a.value.after + k
                else s == BehindAlias(w, a, k))
  {
    AliasHead(a, k);
    SkipsTo(w, AliasText(a, k));
    if a.None? {
      PeeksNone(SkipWhite(w + AliasText(a, k)), k, "AS");
    }
    hide PeekWord;
  }

  lemma IdentIsPlain(c: char)
    requires IsIdent(c)
    ensures !IsWhiteSpace(c) && c !in {'(', '\''}
  {
  }

  lemma PathReads(file: string, k: string)
    requires '\'' !in file
    ensures var s := TargetText(Path(file), k);
            s != "" && s[0] == '\'' && ScanString(s[1..], "") == Some((file, k))
  {
    assert TargetText(Path(file), k)[1..] == file + "'" + k;
    ScansString(file, k, "");
    assert "" + file == file;
    hide ScanString;
  }

  lemma TableReads(name: string, k: string)
    requires name != "" && AllIdent(name) && !IsIdent(Head(k)) && Head(k) != '.'
    ensures var s := TargetText(Table(name), k);
            s != "" && IsIdent(s[0]) && ScanIdent(s, "", 0) == (name, 0, k)
  {
    ScansPlainIdent(name, k, "", 0);
    assert "" + name == name;
    hide ScanIdent, IsIdent;
  }

  lemma TargetReads(t: Target, k: string)
    requires WellTarget(t) && (t.Table? ==> !IsIdent(Head(k)) && Head(k) != '.')
    ensures var s := TargetText(t, k);
            && s != "" && !IsWhiteSpace(s[0]) && s[0] != '(' && (t.Path? <==> s[0] == '\'')
            && (t.Path? ==> ScanString(s[1..], "") == Some((t.file, k)))
            && (t.Table? ==> ScanIdent(s, "", 0) == (t.name, 0, k))
  {
    match t {
      case Path(file) =>
        PathReads(file, k);
      case Table(name) =>
        TableReads(name, k);
        IdentIsPlain(TargetText(t, k)[0]);
    }
    hide ScanString, ScanIdent, IsIdent, AllIdent, TargetText;
  }

  lemma OriginReads(o: Origin, k: string)
    requires OriginStands(o, k)
    ensures var follow := o.w + AliasText(o.alias, k);
            && OriginText(o, k) == TargetText(o.target, follow) && WellTarget(o.target)
            && (o.target.Table? ==> !IsIdent(Head(follow)) && Head(follow) != '.')
  {
    AliasHead(o.alias, k);
    var follow := o.w + AliasText(o.alias, k);
    if o.w == "" {
      assert follow == AliasText(o.alias, k);
    }
    hide AliasText, TargetText;
  }

  lemma BehindAliasSkips(w: string, a: Option<Alias>, k: string)
    requires AllWhite(w) && AliasStands(a, k)
    ensures Remains(SkipWhite(BehindAlias(w, a, k)), k)
  {
    match a {
      case None =>
        SkipsTo(w, k);
        RemainsSkips(SkipWhite(w + k), k);
      case Some(a) =>
        SkipsTo(a.after, k);
    }
  }

  /** The last node with an alias. */
  function WithAlias(nodes: seq<Node>, name: string): (r: seq<Node>)
    requires nodes != []
    ensures |r| == |nodes|
  {
    nodes[..|nodes| - 1] + [nodes[|nodes| - 1].(alias := name)]
  }

  /** The node of a table, with the alias it is given. */
  lemma SourceNamed(before: seq<Node>, o: Origin)
    ensures var nodes := before + [OriginNode(Origin(o.target, "", None))];
            before + [OriginNode(o)] == if o.alias.None? then nodes else WithAlias(nodes, o.alias.value.name)
  {
  }

  lemma JoinNodesAre(before: seq<Node>, p: Place)
    requires p.Joined?
    ensures before + [Leaf(JOIN, "JOIN")] + [OriginNode(p.right)] + [Branch(ON, "ON", NodesOf(p.on))] ==
            before + JoinNodes(p)
  {
  }

  lemma OnStarts(v: string, on: Written, k: string)
    requires AllWhite(v) && Stands(on, k)
    ensures var s, follow := OnText(v, on, k), v + (TextOf(on) + k);
            s == "ON" + follow && s[0] == 'O' && SkipWhite(s) == s && PeekWord(s, "ON")
  {
    TermHead(on.term);
    PeeksWord("ON", v + (TextOf(on) + k));
  }

  lemma JoinStarts(w: string, right: Origin, v: string, on: Written, k: string)
    requires JoinStands(w, right, v, on, k)
    ensures var s, follow := JoinText(w, right, v, on, k), OriginText(right, OnText(v, on, k));
            && s != "" && s[0] == 'J' && PeekWord(s, "JOIN")
            && CommonPrefix(s, "JOIN") == 4 && SkipWhite(s[4..]) == follow
            && follow != "" && follow[0] != '('
  {
    var text := OriginText(right, OnText(v, on, k));
    OriginReads(right, OnText(v, on, k));
    TargetReads(right.target, right.w + AliasText(right.alias, OnText(v, on, k)));
    PeeksWord("JOIN", w + text);
    SkipsWhite(w, text);
    hide OriginText, OnText, OriginStands;
  }

  lemma WhereStarts(w: string, x: Written, rest: string)
    requires AllWhite(w) && WellWritten(x)
    ensures var s, text := "WHERE" + (w + (TextOf(x) + rest)), TextOf(x) + rest;
            && PeekWord(s, "WHERE") && CommonPrefix(s, "WHERE") == 5 && SkipWhite(s[5..]) == "" + text
  {
    TermHead(x.term);
    PeeksWord("WHERE", w + (TextOf(x) + rest));
    SkipsWhite(w, TextOf(x) + rest);
    assert "" + (TextOf(x) + rest) == TextOf(x) + rest;
  }

  // ----- what the parser finds: a query -----

  /** What may follow a query: the end of the text, or the parenthesis around it. */
  predicate QueryBoundary(rest: string) {
    rest == "" || rest[0] == ')'
  }

  lemma PlaceStandsBefore(q: WrittenQuery, rest: string)
    requires WellQuery(q) && QueryBoundary(rest)
    ensures PlaceStands(q.place, WhereText(q.where, rest))
  {
    var k, k' := if q.where.Some? then "W" else "", WhereText(q.where, rest);
    assert Head(k) == Head(k') || (k == "" && Head(k') == ')');
    match q.place {
      case Single(origin) =>
      case Nested(_, _, _) =>
      case Joined(left, w, right, v, on) =>
        assert Head(OnText(v, on, k)) == Head(OnText(v, on, k')) == 'O';
        assert Head(JoinText(w, right, v, on, k)) == Head(JoinText(w, right, v, on, k')) == 'J';
    }
    hide WellWritten, WellTarget, WellQuery, WellItems;
  }

  /** The start of a query, as the parser goes through it. */
  lemma SelectStarts(q: WrittenQuery, k: string)
    requires WellQuery(q) && Head(k) == 'F'
    ensures var s, x := "SELECT" + ItemsText(q.items, k), q.items.(w := "");
            && SkipWhite(q.before + s) == s
            && SkipWhite(ItemsText(q.items, k)) == ItemsText(x, k) && ItemsStand(x, k)
            && ItemsNodes(x) == ItemsNodes(q.items) && ItemsAdd(x) == ItemsAdd(q.items)
  {
    SkipsWhite(q.before, "SELECT" + ItemsText(q.items, k));
    ItemsSkip(q.items, k);
    var text := ItemText(q.items.item, q.items.after + NextText(q.items, k));
    assert "" + text == text;
  }

  lemma QuerySplits(q: WrittenQuery, rest: string)
    ensures TextOfQuery(q, rest) == q.before + ("SELECT" + ItemsText(q.items, FromText(q, rest)))
    ensures QueryNodes(q) ==
            [Branch(SELECT, "SELECT", ItemsNodes(q.items)),
             Branch(FROM, "FROM", PlaceNodes(q.place)).(alias := PlaceAlias(q.place))]
            + WhereNodes(q.where)
  {
  }

  lemma PlaceHead(p: Place, k: string)
    requires PlaceStands(p, k)
    ensures var s := PlaceText(p, k);
            s != "" && (p.Nested? <==> s[0] == '(') && !IsWhiteSpace(s[0])
  {
    match p {
      case Nested(_, _, _) =>
      case Single(o) =>
        OriginReads(o, k);
        TargetReads(o.target, o.w + AliasText(o.alias, k));
      case Joined(o, w, right, v, on) =>
        var join := JoinText(w, right, v, on, k);
        OriginReads(o, join);
        TargetReads(o.target, o.w + AliasText(o.alias, join));
    }
    hide OriginText, OriginStands, JoinText, TargetText, AliasText;
  }

  /** A sub-query is read to its parenthesis, and no join follows it. */
  lemma NestedParts(p: Place, k: string)
    requires PlaceStands(p, k) && p.Nested?
    ensures var next := ")" + (p.after + AliasText(p.alias, k));
            && WellQuery(p.q) && QueryBoundary(next) && PlaceText(p, k)[1..] == TextOfQuery(p.q, next)
            && next[1..] == p.after + AliasText(p.alias, k)
    ensures var s := SkipWhite(p.after + AliasText(p.alias, k));
            Remains(s, AliasText(p.alias, k)) && !PeekWord(s, "JOIN")
  {
    AliasHead(p.alias, k);
    SkipsTo(p.after, AliasText(p.alias, k));
    PeeksNone(SkipWhite(p.after + AliasText(p.alias, k)), AliasText(p.alias, k), "JOIN");
    hide AliasText, PeekWord, WellQuery;
  }

  /** A table is read to what follows it. */
  lemma TableParts(o: Origin, k: string)
    requires OriginStands(o, k)
    ensures var s := SkipWhite(BehindAlias(o.w, o.alias, k));
            Remains(s, k) && (Head(k) != 'J' ==> !PeekWord(s, "JOIN"))
  {
    BehindAliasSkips(o.w, o.alias, k);
    if Head(k) != 'J' {
      PeeksNone(SkipWhite(BehindAlias(o.w, o.alias, k)), k, "JOIN");
    }
    hide BehindAlias, PeekWord;
  }

  /** One table, or the left one of a join, is read to what follows it. */
  lemma TablesParts(p: Place, k: string)
    requires PlaceStands(p, k) && !p.Nested?
    ensures var o := if p.Joined? then p.left else p.origin;
            var next := if p.Joined? then JoinText(p.w, p.right, p.v, p.on, k) else k;
            var s := SkipWhite(BehindAlias(o.w, o.alias, next));
            && OriginStands(o, next) && PlaceText(p, k) == OriginText(o, next)
            && (p.Joined? <==> PeekWord(s, "JOIN"))
            && (p.Joined? ==> s == next && JoinStands(p.w, p.right, p.v, p.on, k))
            && (p.Single? ==> Remains(s, k) && PlaceNodes(p) == [OriginNode(o)])
            && (p.Joined? ==> PlaceNodes(p) == [OriginNode(o)] + JoinNodes(p))
  {
    if p.Joined? {
      JoinStarts(p.w, p.right, p.v, p.on, k);
      TableParts(p.left, JoinText(p.w, p.right, p.v, p.on, k));
    } else {
      TableParts(p.origin, k);
    }
    hide OriginStands, JoinStands, JoinText, OriginText, BehindAlias, PeekWord, CommonPrefix;
  }

  /** Behind what is selected from, the alias of a sub-query, if there is one. */
  lemma AliasOfPlace(p: Place, k: string, s: string)
    requires PlaceStands(p, k) && Remains(s, if p.Nested? then AliasText(p.alias, k) else k)
    ensures var t := SkipWhite(s);
            if p.Nested? && p.alias.Some?
            then t == AliasText(p.alias, k) && PeekWord(t, "AS") && AliasStands(p.alias, k)
                 && AllWhite(p.alias.value.after) && PlaceAlias(p) == p.alias.value.name
                 && (k == "" || !IsWhiteSpace(k[0]))
            else !PeekWord(t, "AS") && Remains(t, k) && PlaceAlias(p) == ""
  {
    if p.Nested? && p.alias.Some? {
      AliasHead(p.alias, k);
      RemainsSkips(s, AliasText(p.alias, k));
    } else {
      RemainsSkips(s, k);
      PeeksNone(SkipWhite(s), k, "AS");
    }
    hide PeekWord, WellQuery, OriginStands, JoinStands, TextOfQuery;
  }

  /** And its second part. */
  lemma FromStarts(q: WrittenQuery, rest: string)
    requires WellQuery(q) && QueryBoundary(rest)
    ensures var s, tail := FromText(q, rest), WhereText(q.where, rest);
            && s == "FROM" + (q.w + PlaceText(q.place, tail)) && Head(s) == 'F'
            && SkipWhite(q.w + PlaceText(q.place, tail)) == PlaceText(q.place, tail)
            && PlaceStands(q.place, tail)
  {
    var tail := WhereText(q.where, rest);
    PlaceStandsBefore(q, rest);
    PlaceHead(q.place, tail);
    SkipsWhite(q.w, PlaceText(q.place, tail));
  }

  /** And its last one. */
  lemma WhereFollows(q: WrittenQuery, rest: string, s: string)
    requires WellQuery(q) && QueryBoundary(rest) && Remains(s, WhereText(q.where, rest))
    ensures match q.where
            case None => !PeekWord(s, "WHERE") && Remains(s, rest)
            case Some(c) => AllWhite(c.w) && Stands(c.x, rest) && s == "WHERE" + (c.w + (TextOf(c.x) + rest))
  {
    if q.where.None? {
      PeeksNone(s, rest, "WHERE");
    }
  }

  /** Stand-ins where no text is promised. */
  function NoCondition(): Written {
    Written(Opd(NumberConst("")), "", End)
  }

  function NoItems(): Items {
    Items("", StarItem, "", None)
  }

  function NoOrigin(): Origin {
    Origin(Path(""), "", None)
  }

  function NoQuery(): WrittenQuery {
    WrittenQuery("", NoItems(), "", Single(NoOrigin()), None)
  }
}
