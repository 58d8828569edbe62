/** From the text of a WHERE clause to its answer on a tuple. */
module Where {
  import opened CText
  import opened Tuples
  import opened Evaluator
  import opened Filter
  import opened ParseTree
  import opened WrittenText
  import opened FilterPlanner
  import opened WhereMeaning
  import opened Readings
  import Parser

  /** `text` is a WHERE clause that writes the condition `c`: groups of comparisons, then
      comparisons, with any white space. */
  ghost predicate IsWhereClause(text: string, c: Condition, w: string, x: Written, rest: string) {
    && NUL !in text && text == "WHERE" + (w + (TextOf(x) + rest))
    && AllWhite(w) && Stands(x, rest)
    && Writes(x, c) && GroupsFirst(c)
  }

  /** Parse the clause, plan it, and evaluate it on a tuple. The answer is the meaning of the
      written condition; the program stops (`None`) just when a column is unknown or a
      comparison mixes types. Numbers are cast on the way, and all can be read as before. */
  method EvaluateWhere(text: string, desc: ResultSet, ref: TupleRef,
                       ghost c: Condition, ghost w: string, ghost x: Written, ghost rest: string)
    returns (r: Option<bool>)
    requires NUL !in text && Ready(ref, DescribedReadings(desc))
    modifies ref.Repr()
    ensures Ready(ref, DescribedReadings(desc)) && ViewOf(ref) == old(ViewOf(ref))
    ensures IsWhereClause(text, c, w, x, rest) ==>
              var t := ViewOf(ref);
              && (r.Some? <==> Resolves(c, desc) && WellTyped(c, desc))
              && (r.Some? && Typed(OpsOf(c, desc)) && AllFaithful(OpsOf(c, desc), t, t) ==>
                    r == Some(Means(c, desc, t, t)))
  {
    ghost var t := ViewOf(ref);
    hide Ready, ViewOf, IsWhereClause, Resolves, OpsOf, WellTyped, Typed, AllFaithful, Means, Holds;
    var found, ops := PlanWhere(text, desc, t, c, w, x, rest);
    if !found {
      return Some(true);
    }
    if ops == None {
      return None;
    }
    r := EvaluateTuplesAgainstFilterOps(ref, ref, ops.value, DescribedReadings(desc), DescribedReadings(desc));
  }

  /** The planned operators of the clause; `None` is an exit. */
  method PlanWhere(text: string, desc: ResultSet, ghost t: View,
                   ghost c: Condition, ghost w: string, ghost x: Written, ghost rest: string)
    returns (found: bool, ops: Option<seq<FilterOp>>)
    requires NUL !in text
    ensures ops.Some? ==> ReadsAs(ops.value, DescribedReadings(desc), DescribedReadings(desc))
    ensures IsWhereClause(text, c, w, x, rest) ==>
              && found && (ops.Some? <==> Resolves(c, desc))
              && (ops.Some? ==> ops.value == OpsOf(c, desc) && (Typed(ops.value) <==> WellTyped(c, desc))
                                && (Typed(ops.value) && AllFaithful(ops.value, t, t) ==>
                                      Holds(ops.value, t, t) == Means(c, desc, t, t)))
  {
    ghost var fits := IsWhereClause(text, c, w, x, rest);
    if fits {
      ClausePlans(x, c, desc, t);
    }
    assert fits ==> AllWhite(w) && Stands(x, rest) && text == "WHERE" + (w + (TextOf(x) + rest));
    hide *;
    var parser := new Parser.Parser(text);
    var ok;
    found, ok := parser.WhereClause(fits, w, x, rest);
    if !found || !ok {
      return found, None;
    }
    ops := MakeFilterOps(parser.nodes, desc);
    if ops.Some? {
      ChainReadsAs(parser.nodes, desc);
    }
  }

  lemma ClausePlans(x: Written, c: Condition, desc: ResultSet, t: View)
    requires Writes(x, c) && GroupsFirst(c)
    ensures NodesOf(x) == Nodes(c)
    ensures PlanOps(Nodes(c), desc) == if Resolves(c, desc) then Some(OpsOf(c, desc)) else None
    ensures Resolves(c, desc) ==>
              && (Typed(OpsOf(c, desc)) <==> WellTyped(c, desc))
              && (Typed(OpsOf(c, desc)) && AllFaithful(OpsOf(c, desc), t, t) ==>
                    Holds(OpsOf(c, desc), t, t) == Means(c, desc, t, t))
  {
    WritesNodes(x, c);
    PlansCondition(c, false, desc);
    assert Nodes(c) + Closing(false) == Nodes(c);
    PlannedConditionMeans(c, desc, t, t);
  }

  // ----- every such condition can be written -----

  /** Operands that can be written, and groups that start with a comparison. */
  predicate Writable(c: Condition) {
    (match c.item
     case Plain(l, _, r) => WellSpelled(l) && WellSpelled(r)
     case Group(inner) => inner.item.Plain? && Writable(inner))
    && (c.More? ==> Writable(c.rest))
  }

  /** The text with one blank around AND and OR and nothing else. */
  function Canonical(c: Condition): Written
    decreases c, 1
  {
    match c.item
    case Plain(l, op, r) =>
      Written(Opd(l), "", Cmp(op, "", Written(Opd(r), if c.More? then " " else "", CanonicalTail(c))))
    case Group(inner) =>
      Written(Paren("", Canonical(inner)), if c.More? then " " else "", CanonicalTail(c))
  }

  function CanonicalTail(c: Condition): Tail
    decreases c, 0
  {
    match c
    case Last(_) => End
    case More(_, conn, rest) => Conn(conn, " ", Canonical(rest))
  }

  lemma {:induction false} CanonicalWrites(c: Condition)
    requires Writable(c)
    ensures Writes(Canonical(c), c) && WellWritten(Canonical(c))
    decreases c
  {
    var x := Canonical(c);
    if c.More? {
      CanonicalWrites(c.rest);
    }
    assert WellWrittenTail(CanonicalTail(c)) && TailWrites(CanonicalTail(c), c);
    match c.item {
      case Plain(l, op, r) =>
        assert WellWritten(x.tail.rest);
      case Group(inner) =>
        CanonicalWrites(inner);
    }
  }
}
