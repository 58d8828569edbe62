/** What a join is: the pairs of a left and a right tuple that satisfy the ON list, left-major. */
module JoinSpec {
  import opened Arithmetic
  import opened Tuples
  import opened Filter

  type Pair = (Row, Row)

  predicate On(l: Row, r: Row, ops: seq<FilterOp>)
    requires Typed(ops)
  {
    Holds(ops, Flat(l), Flat(r))
  }

  /** The pairs of one left tuple. */
  function Matches(l: Row, rights: seq<Row>, ops: seq<FilterOp>): seq<Pair>
    requires Typed(ops)
  {
    if rights == [] then []
    else (if On(l, rights[0], ops) then [(l, rights[0])] else []) + Matches(l, rights[1..], ops)
  }

  function Join(lefts: seq<Row>, rights: seq<Row>, ops: seq<FilterOp>): seq<Pair>
    requires Typed(ops)
  {
    if lefts == [] then [] else Matches(lefts[0], rights, ops) + Join(lefts[1..], rights, ops)
  }

  /** What a run still emits from the left tuple `l` on, `rest` being the right tuples it has not met yet. */
  function RemainingFrom(l: Row, rest: seq<Row>, lefts: seq<Row>, rights: seq<Row>, ops: seq<FilterOp>): seq<Pair>
    requires Typed(ops)
  {
    Matches(l, rest, ops) + Join(lefts, rights, ops)
  }

  lemma StepRight(l: Row, i: nat, lefts: seq<Row>, rights: seq<Row>, ops: seq<FilterOp>)
    requires Typed(ops) && i < |rights|
    ensures RemainingFrom(l, rights[i..], lefts, rights, ops) ==
            (if On(l, rights[i], ops) then [(l, rights[i])] else [])
            + RemainingFrom(l, rights[i + 1..], lefts, rights, ops)
  {
    hide On;
    assert rights[i..][0] == rights[i] && rights[i..][1..] == rights[i + 1..];
  }

  lemma StepLeft(l: Row, i: nat, lefts: seq<Row>, rights: seq<Row>, ops: seq<FilterOp>)
    requires Typed(ops) && i == |rights|
    ensures RemainingFrom(l, rights[i..], lefts, rights, ops) ==
            if lefts == [] then [] else RemainingFrom(lefts[0], rights[0..], lefts[1..], rights, ops)
  {
    assert rights[i..] == [] && rights[0..] == rights;
  }

  /** The join is complete and sound: a pair is in it just as often as left and right tuples
      that satisfy the ON list say. */
  lemma {:induction false} JoinCounts(lefts: seq<Row>, rights: seq<Row>, ops: seq<FilterOp>, p: Pair)
    requires Typed(ops)
    ensures multiset(Join(lefts, rights, ops))[p] ==
            if On(p.0, p.1, ops) then multiset(lefts)[p.0] * multiset(rights)[p.1] else 0
  {
    hide On;
    if lefts != [] {
      MatchCounts(lefts[0], rights, ops, p);
      JoinCounts(lefts[1..], rights, ops, p);
      CountCons(lefts, p.0);
      CountAppend(Matches(lefts[0], rights, ops), Join(lefts[1..], rights, ops), p);
      var m, n := multiset(lefts[1..])[p.0], multiset(rights)[p.1];
      Distribute(m, n);
    }
  }

  lemma CountCons<T>(s: seq<T>, x: T)
    requires s != []
    ensures multiset(s)[x] == multiset(s[1..])[x] + (if s[0] == x then 1 else 0)
  {
    assert s == [s[0]] + s[1..];
  }

  lemma CountAppend<T>(s: seq<T>, t: seq<T>, x: T)
    ensures multiset(s + t)[x] == multiset(s)[x] + multiset(t)[x]
  {
  }

  lemma {:induction false} MatchCounts(l: Row, rights: seq<Row>, ops: seq<FilterOp>, p: Pair)
    requires Typed(ops)
    ensures multiset(Matches(l, rights, ops))[p] ==
            if p.0 == l && On(l, p.1, ops) then multiset(rights)[p.1] else 0
  {
    hide On;
    if rights != [] {
      MatchCounts(l, rights[1..], ops, p);
      CountCons(rights, p.1);
    }
  }
}
