/** The nested-loop join as an operator that is resumed for every tuple. */
module NestedLoopJoin {
  import opened CText
  import opened Filter
  import opened Comparison
  import opened JoinSpec
  import opened Evaluator
  import opened RightRelation
  import opened JoinTuples

  class NestedLoopJoin {
    const pair: JoinTuples
    var leftAllocated: bool
    var rightTupleIdx: nat
    /** The run has ended, and the memory is released. */
    ghost var ended: bool
    ghost var Repr: set<object>

    /** The right input is collected, and there is a left tuple. */
    ghost predicate Probing()
      reads this, pair, pair.Repr
      requires pair.Valid()
    {
      && leftAllocated && pair.right.rightTuplesCollected && rightTupleIdx <= |pair.right.tuples| == |pair.right.Rows()|
      && (!ended ==> pair.Holding())
    }

    ghost predicate Valid()
      reads this, Repr
      ensures Valid() ==> this in Repr
    {
      && this in Repr && pair in Repr && pair.Repr <= Repr && this !in pair.Repr && pair.Valid()
      && (if leftAllocated then Probing()
          else
            && rightTupleIdx == 0 && !ended && pair.left.Rest() != []
            && (pair.right.rightTuplesCollected ==> |pair.right.tuples| == |pair.right.Rows()|))
    }

    /** The pairs still to be emitted. */
    ghost function Remaining(): seq<Pair>
      requires Valid()
      reads this, Repr
    {
      if ended then []
      else if leftAllocated then StillToProbe()
      else Join(pair.left.Rest(), pair.right.Rows(), pair.filter)
    }

    ghost function StillToProbe(): seq<Pair>
      requires pair.Valid() && Probing()
      reads this, pair, pair.Repr
    {
      RemainingFrom(pair.leftTuple.row, pair.right.Rows()[rightTupleIdx..], pair.left.Rest(),
                    pair.right.Rows(), pair.filter)
    }

    /** The left input is not empty: with nothing to read there, the source releases the buffer of the
        exhausted scan twice. */
    constructor (pair: JoinTuples)
      requires pair.Valid() && !pair.right.rightTuplesCollected && pair.left.Rest() != []
      ensures Valid() && !ended && fresh(Repr - pair.Repr) && this.pair == pair
      ensures Remaining() == Join(pair.left.Rest(), pair.right.Rows(), pair.filter)
    {
      this.pair, leftAllocated, rightTupleIdx, ended := pair, false, 0, false;
      Repr := {this} + pair.Repr;
    }

    /** The pair that is handed on. */
    ghost function Current(): Pair
      requires pair.Handing()
      reads this, pair, pair.Repr
    {
      (pair.leftTuple.row, pair.right.Rows()[pair.current])
    }

    /** A pair was handed on, and may be read. */
    ghost predicate Handing()
      reads this, Repr
    {
      Valid() && !ended && pair.Handing()
    }

    /** The next pair of the run, if there is one left. */
    method GetTuple() returns (more: bool)
      requires Valid() && !ended
      modifies Repr
      ensures Valid() && fresh(Repr - old(Repr))
      ensures var todo := old(Remaining());
              if todo == [] then !more && ended
              else more && Handing() && Current() == todo[0] && Remaining() == todo[1..]
    {
      hide Join, RemainingFrom;
      CollectRight();
      Prime();
      more := Probe();
    }

    /** Only entered on the first call: read the whole right input. */
    method CollectRight()
      requires Valid() && !ended
      modifies this`Repr, pair`Repr, pair.right.Repr
      ensures Valid() && fresh(Repr - old(Repr)) && !ended && leftAllocated == old(leftAllocated)
      ensures pair.right.rightTuplesCollected && |pair.right.tuples| == |pair.right.Rows()|
      ensures Remaining() == old(Remaining())
    {
      hide JoinTuples.LeftSide, RightRelation.Kept, RightRelation.Buffered, ReadyTuple;
      if pair.right.rightTuplesCollected {
        return;
      }
      pair.CollectAll();
      Repr := Repr + pair.Repr;
    }

    /** Only on the first call: the first left tuple. */
    method Prime()
      requires Valid() && !ended && pair.right.rightTuplesCollected
               && |pair.right.tuples| == |pair.right.Rows()|
      modifies this`leftAllocated, pair.left, pair.leftTuple, pair.leftTuple.data
      ensures Valid() && !ended && leftAllocated && Remaining() == old(Remaining())
    {
      hide JoinTuples.LeftSide, RightRelation.Kept, RightRelation.Buffered, ReadyTuple, Matches;
      if !leftAllocated {
        leftAllocated := true;
        var r := pair.FetchLeft();
        assert pair.right.Rows()[0..] == pair.right.Rows();
      }
    }

    /** The loop over the pairs that are left. */
    method Probe() returns (more: bool)
      requires Valid() && !ended && leftAllocated
      modifies Repr
      ensures Valid() && Repr == old(Repr)
      ensures var todo := old(Remaining());
              if todo == [] then !more && ended
              else more && Handing() && Current() == todo[0] && Remaining() == todo[1..]
    {
      hide RemainingFrom, JoinTuples.LeftSide, JoinTuples.Holding, RightRelation.Kept, RightRelation.Buffered,
           ReadyTuple;
      var going := true;
      more := false;
      while going
        invariant Valid() && Repr == old(Repr) && leftAllocated && (ended <==> !going && !more)
        invariant going ==> !more && StillToProbe() == old(StillToProbe())
        invariant !going ==> if !more then old(StillToProbe()) == []
                             else pair.Handing() && old(StillToProbe()) == [Current()] + StillToProbe()
        decreases going, |pair.left.Rest()|, |pair.right.Rows()| - rightTupleIdx
      {
        more, going := ProbeStep();
      }
    }

    /** One round of the loop: a pair, or the end, or it is `going` on. */
    method ProbeStep() returns (more: bool, going: bool)
      requires Valid() && !ended && leftAllocated
      modifies Repr
      ensures Valid() && Repr == old(Repr) && leftAllocated
      ensures if more then !going && !ended && pair.Handing() && old(StillToProbe()) == [Current()] + StillToProbe()
              else if !going then ended && old(StillToProbe()) == []
              else !ended && StillToProbe() == old(StillToProbe())
      ensures going ==>
                || |pair.left.Rest()| < |old(pair.left.Rest())|
                || (pair.left.Rest() == old(pair.left.Rest()) && rightTupleIdx > old(rightTupleIdx))
    {
      hide RemainingFrom, JoinTuples.LeftSide, JoinTuples.Holding, RightRelation.Kept, RightRelation.Buffered,
           ReadyTuple;
      if rightTupleIdx >= |pair.right.tuples| {
        going := NextLeft();
        return false, going;
      }
      more := TryPair();
      going := !more;
    }

    /** All right tuples were met: start over with the next left tuple. */
    method NextLeft() returns (going: bool)
      requires Valid() && !ended && leftAllocated && rightTupleIdx == |pair.right.tuples|
      modifies this`rightTupleIdx, this`ended, pair.left, pair.leftTuple, pair.leftTuple.data
      ensures Valid() && leftAllocated
      ensures if going then
                !ended && StillToProbe() == old(StillToProbe()) && |pair.left.Rest()| < |old(pair.left.Rest())|
              else ended && old(StillToProbe()) == []
    {
      hide RemainingFrom, JoinTuples.LeftSide, RightRelation.Kept, RightRelation.Buffered, ReadyTuple;
      StepLeft(pair.leftTuple.row, rightTupleIdx, pair.left.Rest(), pair.right.Rows(), pair.filter);
      rightTupleIdx := 0;
      var r := pair.FetchLeft();
      going := r.Some?;
      ended := !going;
    }

    /** The pair of the left tuple and the right tuple whose turn it is. */
    method TryPair() returns (matches: bool)
      requires Valid() && !ended && leftAllocated && rightTupleIdx < |pair.right.tuples|
      modifies this`rightTupleIdx, pair.Repr
      ensures Valid() && Repr == old(Repr) && !ended && leftAllocated && pair.left.Rest() == old(pair.left.Rest())
      ensures rightTupleIdx == old(rightTupleIdx) + 1
      ensures if matches then pair.Handing() && old(StillToProbe()) == [Current()] + StillToProbe()
              else StillToProbe() == old(StillToProbe())
    {
      hide RemainingFrom, JoinTuples.LeftSide, JoinTuples.Holding, RightRelation.Kept, RightRelation.Buffered,
           ReadyTuple, Holds;
      StepRight(pair.leftTuple.row, rightTupleIdx, pair.left.Rest(), pair.right.Rows(), pair.filter);
      matches := pair.TryPair(rightTupleIdx);
      rightTupleIdx := rightTupleIdx + 1;
    }

    /** A list of operators on the pair that is handed on, as WHERE asks it between two calls. */
    method Evaluate(ops: seq<FilterOp>) returns (r: Option<bool>)
      requires Handing() && ReadsAs(ops, pair.Joint(), pair.Joint())
      modifies Repr
      ensures Handing() && Repr == old(Repr) && pair.View() == old(pair.View()) && Remaining() == old(Remaining())
      ensures r == if Typed(ops) then Some(Holds(ops, pair.View(), pair.View())) else None
    {
      hide RemainingFrom, JoinTuples.LeftSide, RightRelation.Kept, RightRelation.Buffered, ReadyTuple, Holds,
           Typed, ReadsAs;
      r := pair.Evaluate(ops);
    }

    /** A column of the pair. */
    method Read(c: nat, how: Access) returns (v: Value)
      requires Handing() && c < |pair.Joint()| && how.Allowed(pair.Joint()[c])
      modifies Repr
      ensures Handing() && Repr == old(Repr) && pair.View() == old(pair.View()) && Remaining() == old(Remaining())
      ensures v == how.Value(pair.View().StrCol(c), pair.View().LongCol(c))
    {
      hide RemainingFrom, JoinTuples.LeftSide, RightRelation.Kept, RightRelation.Buffered, ReadyTuple, Holds,
           Typed, ReadsAs;
      v := pair.Read(c, how);
    }
  }
}
