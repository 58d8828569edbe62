/** AND and OR: the evaluator reads them from left to right; SQL binds AND tighter
    (section 8.12 of SQL-92). When do the two agree? */
module Precedence {
  import opened Tuples
  import opened Filter

  /** The chain `first conns[0] vals[0] conns[1] vals[1] ...`, read from left to right. */
  predicate LeftToRight(first: bool, conns: seq<Connector>, vals: seq<bool>)
    requires |conns| == |vals|
    decreases conns
  {
    if conns == [] then first
    else LeftToRight(Combine(conns[0], vals[0], first), conns[1..], vals[1..])
  }

  /** The same chain as a disjunction of conjunctions. */
  predicate AndFirst(first: bool, conns: seq<Connector>, vals: seq<bool>)
    requires |conns| == |vals|
    decreases conns
  {
    if conns == [] then first
    else if conns[0] == AND then AndFirst(first && vals[0], conns[1..], vals[1..])
    else first || AndFirst(vals[0], conns[1..], vals[1..])
  }

  /** No AND comes after an OR. */
  ghost predicate AndsThenOrs(conns: seq<Connector>) {
    forall i, j :: 0 <= i < j < |conns| && conns[i] == OR ==> conns[j] == OR
  }

  lemma {:induction false} OrsDistribute(a: bool, b: bool, conns: seq<Connector>, vals: seq<bool>)
    requires |conns| == |vals| && forall i :: 0 <= i < |conns| ==> conns[i] == OR
    ensures LeftToRight(a || b, conns, vals) == (a || LeftToRight(b, conns, vals))
    decreases conns
  {
    if conns != [] {
      OrsDistribute(a, vals[0] || b, conns[1..], vals[1..]);
    }
  }

  lemma {:induction false} AgreeWhenAndsThenOrs(first: bool, conns: seq<Connector>, vals: seq<bool>)
    requires |conns| == |vals| && AndsThenOrs(conns)
    ensures LeftToRight(first, conns, vals) == AndFirst(first, conns, vals)
    decreases conns
  {
    if conns != [] {
      AgreeWhenAndsThenOrs(Combine(conns[0], vals[0], first), conns[1..], vals[1..]);
      if conns[0] == OR {
        AgreeWhenAndsThenOrs(vals[0], conns[1..], vals[1..]);
        OrsDistribute(first, vals[0], conns[1..], vals[1..]);
      }
    }
  }

  /** True up to operand `j`, false from there on. */
  function Witness(n: nat, j: nat): seq<bool> {
    seq(n, k => k < j)
  }

  lemma {:induction false} FalseStaysFalse(conns: seq<Connector>, vals: seq<bool>)
    requires |conns| == |vals| && forall k :: 0 <= k < |vals| ==> !vals[k]
    ensures !LeftToRight(false, conns, vals)
  {
    if conns != [] {
      FalseStaysFalse(conns[1..], vals[1..]);
    }
  }

  /** Left to right the AND at `j` makes the witness false for good. */
  lemma {:induction false} WitnessLeftToRight(conns: seq<Connector>, j: nat)
    requires j < |conns| && conns[j] == AND
    ensures !LeftToRight(true, conns, Witness(|conns|, j))
    decreases |conns|
  {
    var vals := Witness(|conns|, j);
    if j == 0 {
      FalseStaysFalse(conns[1..], vals[1..]);
    } else {
      assert vals[1..] == Witness(|conns[1..]|, j - 1);
      WitnessLeftToRight(conns[1..], j - 1);
    }
  }

  /** With AND binding tighter, an OR before `j` has already made it true. */
  lemma {:induction false} WitnessAndFirst(conns: seq<Connector>, i: nat, j: nat)
    requires i < j < |conns| && conns[i] == OR
    ensures AndFirst(true, conns, Witness(|conns|, j))
    decreases |conns|
  {
    var vals := Witness(|conns|, j);
    if conns[0] == AND {
      assert vals[1..] == Witness(|conns[1..]|, j - 1);
      WitnessAndFirst(conns[1..], i - 1, j - 1);
    }
  }

  /** The two readings agree for all truth values exactly when no AND follows an OR. */
  lemma AgreeIffAndsThenOrs(conns: seq<Connector>)
    ensures (forall first, vals: seq<bool> | |vals| == |conns| ::
               LeftToRight(first, conns, vals) == AndFirst(first, conns, vals))
            <==> AndsThenOrs(conns)
  {
    if AndsThenOrs(conns) {
      forall first, vals: seq<bool> | |vals| == |conns|
        ensures LeftToRight(first, conns, vals) == AndFirst(first, conns, vals)
      {
        AgreeWhenAndsThenOrs(first, conns, vals);
      }
    } else {
      var i, j :| 0 <= i < j < |conns| && conns[i] == OR && conns[j] == AND;
      WitnessLeftToRight(conns, j);
      WitnessAndFirst(conns, i, j);
      assert |Witness(|conns|, j)| == |conns|;
    }
  }

  // ----- and the evaluator reads from left to right -----

  ghost function Results(ops: seq<FilterOp>, t1: View, t2: View): (r: seq<bool>)
    requires Typed(ops)
    ensures |r| == |ops|
  {
    if ops == [] then [] else [EvalOp(ops[0], t1, t2)] + Results(ops[1..], t1, t2)
  }

  function Connectors(ops: seq<FilterOp>): (c: seq<Connector>)
    ensures |c| == if ops == [] then 0 else |ops| - 1
  {
    if |ops| <= 1 then [] else [ops[0].operatorNext] + Connectors(ops[1..])
  }

  lemma {:induction false} FoldIsLeftToRight(ops: seq<FilterOp>, acc: bool, conn: Connector, t1: View, t2: View)
    requires Typed(ops) && ops != []
    ensures var r := Results(ops, t1, t2);
            Fold(ops, acc, conn, t1, t2) == LeftToRight(Combine(conn, r[0], acc), Connectors(ops), r[1..])
  {
    if |ops| > 1 {
      FoldIsLeftToRight(ops[1..], Combine(conn, EvalOp(ops[0], t1, t2), acc), ops[0].operatorNext, t1, t2);
    }
  }

  /** A list of operators has SQL's meaning on all tuples if no AND in it follows an OR. */
  lemma HoldsIsAndFirst(ops: seq<FilterOp>, t1: View, t2: View)
    requires Typed(ops) && ops != [] && AndsThenOrs(Connectors(ops))
    ensures var r := Results(ops, t1, t2);
            Holds(ops, t1, t2) == AndFirst(r[0], Connectors(ops), r[1..])
  {
    FoldIsLeftToRight(ops, true, AND, t1, t2);
    var r := Results(ops, t1, t2);
    AgreeWhenAndsThenOrs(r[0], Connectors(ops), r[1..]);
  }
}
