/** The hash join as an operator that is resumed for every tuple: the right input goes into a
    hashmap from join value to position, and every left tuple drains the positions of its value. */
module HashJoin {
  import opened CText
  import opened Tuples
  import opened Filter
  import opened Comparison
  import opened HashTable
  import opened JoinSpec
  import opened HashJoinSpec
  import opened Evaluator
  import opened Scan
  import opened RightRelation
  import opened JoinTuples
  import opened Hashmap

  /** An equality reads its two columns, and casts the left one first. */
  lemma EqualityReads(ops: seq<FilterOp>, lc: nat, rc: nat, rds: seq<Reading>, rightRds: seq<Reading>)
    requires KeyEquality(ops, lc, rc) && ReadsAs(ops, rds, rightRds)
    ensures lc < |rds| && rc < |rightRds| && (!Casts(ops) ==> rds[lc].Text())
    ensures FirstLeft(ops) == if Casts(ops) then Some(lc) else None
  {
    assert OpReadsAs(ops[0], rds, rightRds);
    assert ops[1..] == [] && FirstLeft(ops[1..]) == None;
  }

  class HashJoin {
    const pair: JoinTuples
    const hashmap: Hashmap
    const leftColIdx: nat
    const rightColIdx: nat
    /** A left tuple was read; before, the left tuple is a zeroed one. */
    ghost var primed: bool
    /** The join column of the left tuple was cast, if it is a number of a line. */
    ghost var leftCasted: bool
    /** The run has ended, and the memory is released. */
    ghost var ended: bool
    ghost var Repr: set<object>

    ghost function RightKeys(): seq<string> {
      Keys(pair.right.Rows(), rightColIdx)
    }

    /** The two columns that are compared can be read. */
    ghost predicate Equates() {
      && KeyEquality(pair.filter, leftColIdx, rightColIdx) && leftColIdx < |pair.rds| && rightColIdx < |pair.right.rds|
      && KeysFit(RightKeys()) && (!Casts(pair.filter) ==> pair.rds[leftColIdx].Text())
    }

    ghost predicate Separate()
      reads this, pair, hashmap
    {
      && {this, pair, hashmap} + pair.Repr + hashmap.Repr <= Repr && hashmap in hashmap.Repr
      && this !in pair.Repr && this !in hashmap.Repr && pair.Repr !! hashmap.Repr
    }

    /** What is in the left tuple: zeroes, or a row whose join column has the first slot if it was cast. */
    ghost predicate LeftHeld()
      reads this, pair.leftTuple, pair.leftTuple.data
    {
      if primed then
        && pair.Holding()
        && (Casts(pair.filter) && pair.leftTuple.kind == TPL_DELIMITED ==> (leftCasted <==> pair.leftTuple.slots != []))
        && (leftCasted ==> Casts(pair.filter))
      else pair.Blank() && !leftCasted
    }

    /** The probe phase: everything is in the hashmap. */
    ghost predicate Probing()
      reads this, pair, pair.Repr, hashmap
      requires pair.Valid()
    {
      && Stocked(hashmap.table, hashmap.hash, RightKeys())
      && pair.right.rightTuplesCollected && |pair.right.tuples| == |pair.right.Rows()|
      && (!ended ==> LeftHeld())
    }

    ghost predicate Valid()
      reads this, Repr
      ensures Valid() ==> this in Repr
    {
      && this in Repr && pair in Repr && hashmap in Repr && pair.Repr <= Repr && hashmap.Repr <= Repr
      && Separate() && pair.Valid() && hashmap.Valid() && Equates()
      && (if pair.right.rightTuplesCollected then Probing() else !ended && Untouched())
    }

    /** Before the first call. */
    ghost predicate Untouched()
      reads this, pair, pair.Repr, hashmap
      requires pair.Valid()
    {
      LeftHeld() && !primed && pair.right.tuples == [] && hashmap.table == EmptyTable(|hashmap.table|)
    }

    /** The pairs still to be emitted. */
    ghost function Remaining(): seq<Pair>
      requires Valid()
      reads this, Repr
    {
      if ended then []
      else if pair.right.rightTuplesCollected then StillToProbe()
      else HashJoinRun(pair.left.Rest(), pair.right.Rows(), pair.filter, leftColIdx, rightColIdx,
                       hashmap.hash, |hashmap.table|)
    }

    ghost function StillToProbe(): seq<Pair>
      requires pair.Valid() && Fits(hashmap.hash, |hashmap.table|)
      reads this, pair, pair.Repr, hashmap
    {
      RunFrom(hashmap.table, hashmap.hash, pair.leftTuple.row, leftCasted, pair.left.Rest(), pair.right.Rows(),
              pair.filter, leftColIdx)
    }

    constructor (pair: JoinTuples, leftColIdx: nat, rightColIdx: nat, hash: Hash, tableSize: nat)
      requires pair.Valid() && pair.Blank() && !pair.right.rightTuplesCollected && pair.right.tuples == []
      requires KeyEquality(pair.filter, leftColIdx, rightColIdx) && Fits(hash, tableSize)
      requires KeysFit(Keys(pair.right.Rows(), rightColIdx))
      ensures Valid() && !ended && fresh(Repr - pair.Repr) && this.pair == pair
      ensures Remaining() == HashJoinRun(pair.left.Rest(), pair.right.Rows(), pair.filter, leftColIdx, rightColIdx,
                                         hash, tableSize)
    {
      EqualityReads(pair.filter, leftColIdx, rightColIdx, pair.rds, pair.right.rds);
      hide KeysFit, HashJoinRun, Typed, Stocked, JoinTuples.LeftSide, JoinTuples.Blank, KeyEquality;
      var multimap := new Hashmap(hash, tableSize);
      this.pair, hashmap, this.leftColIdx, this.rightColIdx := pair, multimap, leftColIdx, rightColIdx;
      primed, leftCasted, ended := false, false, false;
      Repr := {this} + pair.Repr + multimap.Repr;
    }

    /** The pair that is handed on. */
    ghost function Current(): Pair
      requires pair.Handing()
      reads this, pair, pair.Repr
    {
      (pair.leftTuple.row, pair.right.Rows()[pair.current])
    }

    /** A pair was handed on, and may be read. */
    ghost predicate Handing()
      reads this, Repr
    {
      Valid() && !ended && primed && pair.Handing()
    }

    /** The next pair of the run, if there is one left. Between two calls the left tuple is never empty. */
    method GetTuple() returns (more: bool)
      requires Valid() && !ended
      modifies Repr
      ensures Valid() && fresh(Repr - old(Repr))
      ensures var todo := old(Remaining());
              if todo == [] then !more && ended
              else more && Handing() && Current() == todo[0] && Remaining() == todo[1..]
    {
      if !pair.right.rightTuplesCollected {
        CollectRight();
      }
      more := Probe();
    }

    /** Only entered on the first call: hash the whole right input. The zeroed left tuple that
        the probe phase then starts with has the empty key, which is never found. */
    method CollectRight()
      requires Valid() && !ended && !pair.right.rightTuplesCollected
      modifies this`Repr, pair`Repr, pair.right.Repr, hashmap.Repr
      ensures Valid() && fresh(Repr - old(Repr)) && !ended && pair.right.rightTuplesCollected
      ensures Remaining() == old(Remaining())
    {
      hide KeysFit, KeyEquality, HashJoinRun, Stocked, RunFrom, Build, Keys, Typed, JoinTuples.LeftSide,
           JoinTuples.Holding, RightRelation.Kept, RightRelation.Buffered;
      ghost var size := |hashmap.table|;
      EmptyBuild(hashmap.hash, size);
      CollectAll(size);
      Repr := Repr + pair.Repr + hashmap.Repr;
      BuiltProbes(size);
    }

    lemma EmptyBuild(h: Hash, size: nat)
      requires Fits(h, size)
      ensures Build([], h, size) == EmptyTable(size)
    {
    }

    ghost predicate Apart()
      reads this, pair, hashmap
    {
      this !in pair.Repr && this !in hashmap.Repr && pair.Repr !! hashmap.Repr && hashmap in hashmap.Repr
    }

    /** Its loop. */
    method CollectAll(ghost size: nat)
      requires Apart() && pair.Valid() && hashmap.Valid() && Equates() && |hashmap.table| == size
      requires !pair.right.rightTuplesCollected && pair.right.tuples == []
               && hashmap.table == Build([], hashmap.hash, size)
      modifies pair`Repr, pair.right.Repr, hashmap.Repr
      ensures Apart() && pair.Valid() && hashmap.Valid() && |hashmap.table| == size
      ensures fresh(pair.Repr - old(pair.Repr)) && fresh(hashmap.Repr - old(hashmap.Repr))
      ensures pair.right.rightTuplesCollected && |pair.right.tuples| == |pair.right.Rows()|
      ensures hashmap.table == Build(RightKeys(), hashmap.hash, size)
    {
      hide KeysFit, Build, Keys, JoinTuples.LeftSide, RightRelation.Kept, RightRelation.Buffered, KeyEquality;
      assert RightKeys()[..0] == [];
      while !pair.right.rightTuplesCollected
        invariant Apart() && pair.Valid() && hashmap.Valid()
        invariant fresh(pair.Repr - old(pair.Repr)) && fresh(hashmap.Repr - old(hashmap.Repr))
        invariant fresh(pair.right.Repr - old(pair.right.Repr))
        invariant |pair.right.tuples| <= |RightKeys()|
        invariant pair.right.rightTuplesCollected ==> |pair.right.tuples| == |pair.right.Rows()|
        invariant |hashmap.table| == size
                  && hashmap.table == Build(RightKeys()[..|pair.right.tuples|], hashmap.hash, size)
        decreases |pair.right.Rows()| - |pair.right.tuples|, !pair.right.rightTuplesCollected
      {
        CollectOne(size);
      }
      assert RightKeys()[..|RightKeys()|] == RightKeys();
    }

    /** One right tuple: into the buffer, and its position into the hashmap. */
    method CollectOne(ghost size: nat)
      requires Apart() && pair.Valid() && hashmap.Valid() && Equates() && !pair.right.rightTuplesCollected
      requires |pair.right.tuples| <= |RightKeys()| && |hashmap.table| == size
      requires hashmap.table == Build(RightKeys()[..|pair.right.tuples|], hashmap.hash, size)
      modifies pair`Repr, pair.right.Repr, hashmap.Repr
      ensures Apart() && pair.Valid() && hashmap.Valid()
      ensures fresh(pair.Repr - old(pair.Repr)) && fresh(hashmap.Repr - old(hashmap.Repr))
      ensures fresh(pair.right.Repr - old(pair.right.Repr))
      ensures |hashmap.table| == size && |pair.right.tuples| <= |RightKeys()|
      ensures hashmap.table == Build(RightKeys()[..|pair.right.tuples|], hashmap.hash, size)
      ensures if pair.right.rightTuplesCollected then |pair.right.tuples| == |pair.right.Rows()|
              else |pair.right.tuples| == old(|pair.right.tuples|) + 1
    {
      hide Build, HashTable.Insert, Positions, Keys, KeyEquality, JoinTuples.LeftSide, RightRelation.Buffered;
      ghost var n := |pair.right.tuples|;
      if n < |RightKeys()| {
        BuildNext(RightKeys(), n, hashmap.hash, size, NODEVALUES);
      }
      var more := pair.CollectOne();
      if more {
        var joinValue := RightText();
        KeyAt(pair.right.Rows(), rightColIdx, n);
        hide KeysFit;
        hashmap.InsertToHashmap(joinValue, |pair.right.tuples| - 1);
      }
    }

    /** The join value of the right tuple that was just read. */
    method RightText() returns (s: string)
      requires pair.Valid() && rightColIdx < |pair.right.rds|
      requires pair.right.tuples != [] && JustRead(pair.right.tuples[|pair.right.tuples| - 1])
      ensures s == pair.right.Rows()[|pair.right.tuples| - 1].StrCol(rightColIdx)
    {
      hide JoinTuples.LeftSide, JustRead;
      var t := pair.right.tuples[|pair.right.tuples| - 1];
      ReadyKind(t, pair.right.rds);
      s := FirstText(t, rightColIdx);
    }

    lemma BuiltProbes(size: nat)
      requires pair.Valid() && hashmap.Valid() && |hashmap.table| == size
      requires pair.leftTuple.row == ZEROED && !leftCasted
      requires hashmap.table == Build(RightKeys(), hashmap.hash, size)
      ensures Stocked(hashmap.table, hashmap.hash, RightKeys())
      ensures StillToProbe() ==
              HashJoinRun(pair.left.Rest(), pair.right.Rows(), pair.filter, leftColIdx, rightColIdx, hashmap.hash, size)
    {
      FirstProbe(pair.left.Rest(), pair.right.Rows(), pair.filter, leftColIdx, rightColIdx, hashmap.hash, size);
      hide Stocked, RunFrom, Build, Keys, Typed;
    }

    /** The join value of the left tuple, wherever a cast has moved its offset. */
    method LeftText() returns (s: string)
      requires pair.Valid() && Equates() && LeftHeld()
      ensures s == JoinValue(pair.leftTuple.row, leftColIdx, leftCasted)
    {
      LeftReads();
      s := pair.leftTuple.GetTupleColByIndex(leftColIdx);
    }

    lemma LeftReads()
      requires pair.Valid() && Equates() && LeftHeld()
      ensures pair.leftTuple.Valid() && leftColIdx < pair.leftTuple.Extent()
      ensures CString(pair.leftTuple.data[..], pair.leftTuple.offsets[leftColIdx]) ==
              JoinValue(pair.leftTuple.row, leftColIdx, leftCasted)
    {
      EqualityReads(pair.filter, leftColIdx, rightColIdx, pair.rds, pair.right.rds);
      hide KeyEquality, KeysFit, Keys, ReadsAs, Typed, RowsRead, RightRelation.Valid, RecordRow, LineRow;
      if primed {
        ReadyColumns(pair.leftTuple, pair.rds);
        if pair.leftTuple.kind == TPL_DELIMITED {
          LineRead();
        } else {
          RecordRead();
        }
      }
    }

    lemma LineRead()
      requires pair.Valid() && Equates() && pair.Holding() && pair.leftTuple.kind == TPL_DELIMITED
      requires FirstLeft(pair.filter) == if Casts(pair.filter) then Some(leftColIdx) else None
      requires Casts(pair.filter) ==> (leftCasted <==> pair.leftTuple.slots != [])
      requires leftCasted ==> Casts(pair.filter)
      ensures CString(pair.leftTuple.data[..], pair.leftTuple.offsets[leftColIdx]) ==
              JoinValue(pair.leftTuple.row, leftColIdx, leftCasted)
    {
      hide KeyEquality, KeysFit, Keys, ReadsAs, Typed, RowsRead, RightRelation.Valid, RecordRow, LineRow;
      var t := pair.leftTuple;
      assert ReadyColumn(t, pair.rds[leftColIdx], leftColIdx) && t.ColumnOk(leftColIdx);
      var k :| 0 <= k < |pair.left.Rows()| && pair.left.Rows()[k] == t.row;
      LineReads(pair.left.contents.lines[k]);
      assert t.row.data <= t.data[..];
      if leftCasted {
        assert t.SlotOk(0);
      }
      CStringPrefix(t.row.data, t.data[..], t.offsets[leftColIdx]);
    }

    lemma RecordRead()
      requires pair.Valid() && Equates() && pair.Holding() && pair.leftTuple.kind == TPL_TDB
      ensures CString(pair.leftTuple.data[..], pair.leftTuple.offsets[leftColIdx]) ==
              JoinValue(pair.leftTuple.row, leftColIdx, leftCasted)
    {
      hide KeyEquality, KeysFit, Keys, ReadsAs, Typed, RowsRead, RightRelation.Valid;
      var t, c := pair.leftTuple, pair.left.contents;
      var k :| 0 <= k < |pair.left.Rows()| && pair.left.Rows()[k] == t.row;
      RecordEnds(t, c.recs[k], c.sizes);
      assert t.Ends(leftColIdx) && t.row.data <= t.data[..];
      CStringEnds(t.row.data, t.data[..], t.row.Offset(leftColIdx));
    }

    /** What the join value of the left tuple still has. */
    ghost function Found(): nat
      requires Fits(hashmap.hash, |hashmap.table|)
      reads this, pair.leftTuple, hashmap
    {
      |Pending(hashmap.table, hashmap.hash, JoinValue(pair.leftTuple.row, leftColIdx, leftCasted))|
    }

    /** The loop over the left tuples and the positions of their keys. */
    method Probe() returns (more: bool)
      requires Valid() && !ended && pair.right.rightTuplesCollected
      modifies Repr
      ensures Valid() && Repr == old(Repr)
      ensures var todo := old(Remaining());
              if todo == [] then !more && ended
              else more && Handing() && Current() == todo[0] && Remaining() == todo[1..]
    {
      hide Stocked, RunFrom, KeyEquality, KeysFit, Pending, JoinValue, JoinTuples.LeftSide, JoinTuples.Holding,
           RightRelation.Kept, RightRelation.Buffered;
      var going := true;
      more := false;
      while going
        invariant Valid() && pair.right.rightTuplesCollected && Repr == old(Repr) && (ended <==> !going && !more)
        invariant going ==> !more && StillToProbe() == old(StillToProbe())
        invariant !going ==> if !more then old(StillToProbe()) == []
                             else primed && pair.Handing() && old(StillToProbe()) == [Current()] + StillToProbe()
        decreases going, |pair.left.Rest()|, !leftCasted, Found()
      {
        more, going := ProbeStep();
      }
    }

    /** One round of the loop: a pair, or the end, or it is `going` on. A value that is found has a
        position: the check the source makes for a used-up cursor never strikes. */
    method ProbeStep() returns (more: bool, going: bool)
      requires Valid() && !ended && pair.right.rightTuplesCollected
      modifies Repr
      ensures Valid() && pair.right.rightTuplesCollected && Repr == old(Repr)
      ensures if more then
                !going && !ended && primed && pair.Handing() && old(StillToProbe()) == [Current()] + StillToProbe()
              else if !going then ended && old(StillToProbe()) == []
              else !ended && StillToProbe() == old(StillToProbe())
      ensures going ==>
                || |pair.left.Rest()| < |old(pair.left.Rest())|
                || (pair.left.Rest() == old(pair.left.Rest()) && (old(leftCasted) ==> leftCasted)
                    && (leftCasted == old(leftCasted) ==> Found() < old(Found())))
    {
      hide Stocked, RunFrom, KeyEquality, Holds, Pending, JoinValue, JoinTuples.LeftSide, JoinTuples.Holding,
           RightRelation.Kept, RightRelation.Buffered;
      var joinValue := LeftText();
      var found := hashmap.IsInHashmap(joinValue);
      if !found {
        going := Miss(joinValue);
        return false, going;
      }
      more := Hit(joinValue);
      going := !more;
    }

    /** The value of the left tuple is not found: rewind its bucket, and on to the next left tuple. */
    method Miss(joinValue: string) returns (going: bool)
      requires Valid() && !ended && pair.right.rightTuplesCollected
      requires joinValue == JoinValue(pair.leftTuple.row, leftColIdx, leftCasted)
      requires Pending(hashmap.table, hashmap.hash, joinValue) == []
      modifies this`primed, this`leftCasted, this`ended, pair.left, pair.leftTuple, pair.leftTuple.data, hashmap.Repr
      ensures Valid() && pair.right.rightTuplesCollected
      ensures if going then
                !ended && StillToProbe() == old(StillToProbe()) && |pair.left.Rest()| < |old(pair.left.Rest())|
              else ended && old(StillToProbe()) == []
    {
      hide Stocked, RunFrom, JoinValue, KeyEquality, KeysFit, Keys, Casts, Typed, JoinTuples.LeftSide,
           JoinTuples.Holding, JoinTuples.Blank, RightRelation.Kept, RightRelation.Buffered, ReadyTuple, RowsIn,
           Pending, HashJoinRun;
      Rewind(joinValue);
      going := NextLeft();
    }

    /** The next left tuple, nothing of which is cast. */
    method NextLeft() returns (going: bool)
      requires pair.Valid() && Fits(hashmap.hash, |hashmap.table|) && this !in pair.Repr && hashmap !in pair.Repr
      modifies this`primed, this`leftCasted, this`ended, pair.left, pair.leftTuple, pair.leftTuple.data
      ensures pair.Valid() && primed && !leftCasted && ended == !going
      ensures if going then
                LeftHeld() && StillToProbe() == old(NextRun()) && |pair.left.Rest()| < |old(pair.left.Rest())|
              else old(NextRun()) == []
    {
      hide RunFrom, JoinTuples.LeftSide, JoinTuples.Holding, JoinTuples.Blank, RightRelation.Kept,
           RightRelation.Buffered, ReadyTuple, RowsIn, Typed, Casts;
      var r := pair.FetchLeft();
      going := r.Some?;
      ended, primed, leftCasted := !going, true, false;
    }

    /** The run from the next left tuple on. */
    ghost function NextRun(): seq<Pair>
      requires pair.Valid() && Fits(hashmap.hash, |hashmap.table|)
      reads this, pair, pair.Repr, hashmap
    {
      var lefts := pair.left.Rest();
      if lefts == [] then []
      else RunFrom(hashmap.table, hashmap.hash, lefts[0], false, lefts[1..], pair.right.Rows(), pair.filter, leftColIdx)
    }

    method Rewind(joinValue: string)
      requires pair.Valid() && hashmap.Valid() && Apart() && Stocked(hashmap.table, hashmap.hash, RightKeys())
      requires joinValue == JoinValue(pair.leftTuple.row, leftColIdx, leftCasted)
      requires Pending(hashmap.table, hashmap.hash, joinValue) == []
      modifies hashmap.Repr
      ensures hashmap.Valid() && hashmap.Repr == old(hashmap.Repr)
      ensures Stocked(hashmap.table, hashmap.hash, RightKeys()) && NextRun() == old(StillToProbe())
    {
      hide Stocked, RunFrom, JoinValue, JoinTuples.LeftSide, RightRelation.Kept, RightRelation.Buffered;
      MissRun(hashmap.table, hashmap.hash, pair.leftTuple.row, leftCasted, pair.left.Rest(), pair.right.Rows(),
              pair.filter, leftColIdx, RightKeys());
      hashmap.ResetCursor(joinValue);
    }

    /** The value of the left tuple has a position: ON is asked about the right tuple there. */
    method Hit(joinValue: string) returns (matches: bool)
      requires Valid() && !ended && pair.right.rightTuplesCollected
      requires joinValue == JoinValue(pair.leftTuple.row, leftColIdx, leftCasted)
      requires Pending(hashmap.table, hashmap.hash, joinValue) != []
      modifies this`leftCasted, pair.Repr, hashmap.Repr
      ensures Valid() && !ended && pair.right.rightTuplesCollected && Repr == old(Repr)
      ensures pair.left.Rest() == old(pair.left.Rest()) && leftCasted == (old(leftCasted) || Casts(pair.filter))
      ensures leftCasted == old(leftCasted) ==> Found() < old(Found())
      ensures if matches then primed && pair.Handing() && old(StillToProbe()) == [Current()] + StillToProbe()
              else StillToProbe() == old(StillToProbe())
    {
      Opened();
      hide *;
      FoundIsPrimed(joinValue);
      matches := Take(joinValue);
      Closed();
    }

    method Take(joinValue: string) returns (matches: bool)
      requires pair.Valid() && hashmap.Valid() && Apart() && LeftHeld() && primed
      requires this !in pair.Repr && hashmap !in pair.Repr
      requires {pair, pair.left, pair.leftTuple, pair.leftTuple.data, pair.right} <= pair.Repr
      requires Stocked(hashmap.table, hashmap.hash, RightKeys()) && |pair.right.tuples| == |pair.right.Rows()|
      requires FirstLeft(pair.filter) == if Casts(pair.filter) then Some(leftColIdx) else None
      requires KeyEquality(pair.filter, leftColIdx, rightColIdx)
      requires joinValue == JoinValue(pair.leftTuple.row, leftColIdx, leftCasted)
      requires Pending(hashmap.table, hashmap.hash, joinValue) != []
      modifies this`leftCasted, pair.Repr, hashmap.Repr
      ensures pair.Valid() && hashmap.Valid() && hashmap.Repr == old(hashmap.Repr) && pair.Repr == old(pair.Repr)
      ensures LeftHeld() && Stocked(hashmap.table, hashmap.hash, RightKeys())
      ensures pair.right.tuples == old(pair.right.tuples)
      ensures pair.right.rightTuplesCollected == old(pair.right.rightTuplesCollected)
      ensures pair.left.Rest() == old(pair.left.Rest()) && leftCasted == (old(leftCasted) || Casts(pair.filter))
      ensures leftCasted == old(leftCasted) ==> Found() < old(Found())
      ensures if matches then primed && pair.Handing() && old(StillToProbe()) == [Current()] + StillToProbe()
              else StillToProbe() == old(StillToProbe())
    {
      hide Stocked, RunFrom, JoinValue, On, Pending, KeyEquality, KeysFit, Keys, JoinTuples.LeftSide,
           JoinTuples.Holding, JoinTuples.Blank, LeftHeld, RightRelation.Kept, RightRelation.Buffered, ReadyTuple,
           Casts, Typed, RowsIn;
      var tupleIdx := NextPosition(joinValue);
      matches := TryPair(tupleIdx);
      assert [] + StillToProbe() == StillToProbe();
    }

    /** What the probe phase relies on. */
    lemma Opened()
      requires Valid() && !ended && pair.right.rightTuplesCollected
      ensures pair.Valid() && hashmap.Valid() && Apart() && Separate() && LeftHeld() && Equates()
      ensures this !in pair.Repr && hashmap !in pair.Repr && hashmap.Repr !! pair.Repr && Repr >= pair.Repr
      ensures {pair, pair.left, pair.leftTuple, pair.leftTuple.data, pair.right} <= pair.Repr && hashmap in hashmap.Repr
      ensures Fits(hashmap.hash, |hashmap.table|) && Stocked(hashmap.table, hashmap.hash, RightKeys())
      ensures FirstLeft(pair.filter) == if Casts(pair.filter) then Some(leftColIdx) else None
      ensures |pair.right.tuples| == |pair.right.Rows()|
      ensures Typed(pair.filter) && KeyEquality(pair.filter, leftColIdx, rightColIdx)
      ensures Remaining() == StillToProbe()
    {
      EqualityReads(pair.filter, leftColIdx, rightColIdx, pair.rds, pair.right.rds);
    }

    lemma Closed()
      requires Separate() && pair in Repr && this in Repr && pair.Valid() && hashmap.Valid() && LeftHeld() && Equates()
      requires !ended && pair.right.rightTuplesCollected && Stocked(hashmap.table, hashmap.hash, RightKeys())
      requires |pair.right.tuples| == |pair.right.Rows()|
      ensures Valid()
    {
    }


    /** ON reads the join column of the left tuple, and casts it if it is a number. */
    method TryPair(tupleIdx: nat) returns (matches: bool)
      requires pair.Valid() && this !in pair.Repr && hashmap !in pair.Repr && Fits(hashmap.hash, |hashmap.table|)
      requires tupleIdx < |pair.right.tuples| && primed && LeftHeld()
      requires FirstLeft(pair.filter) == if Casts(pair.filter) then Some(leftColIdx) else None
      modifies this`leftCasted, pair.Repr
      ensures pair.Valid() && pair.Repr == old(pair.Repr) && primed && LeftHeld()
      ensures pair.right.tuples == old(pair.right.tuples)
      ensures pair.right.rightTuplesCollected == old(pair.right.rightTuplesCollected)
      ensures pair.left.Rest() == old(pair.left.Rest()) && pair.leftTuple.row == old(pair.leftTuple.row)
      ensures leftCasted == (old(leftCasted) || Casts(pair.filter))
      ensures StillToProbe() == old(RunAfter())
      ensures matches == On(pair.leftTuple.row, pair.right.Rows()[tupleIdx], pair.filter)
      ensures matches ==> pair.Handing() && Current() == (pair.leftTuple.row, pair.right.Rows()[tupleIdx])
    {
      hide RunFrom, On, JoinTuples.LeftSide, JoinTuples.Blank, RightRelation.Kept, RightRelation.Buffered, ReadyTuple,
           RowsIn, Typed, Casts;
      leftCasted := leftCasted || Casts(pair.filter);
      matches := pair.TryPair(tupleIdx);
    }

    /** The zeroed left tuple finds nothing. */
    lemma FoundIsPrimed(joinValue: string)
      requires Fits(hashmap.hash, |hashmap.table|) && Stocked(hashmap.table, hashmap.hash, RightKeys())
      requires LeftHeld() && joinValue == JoinValue(pair.leftTuple.row, leftColIdx, leftCasted)
      requires Pending(hashmap.table, hashmap.hash, joinValue) != []
      ensures primed
    {
      if !primed {
        assert joinValue == "" && Values(hashmap.table, hashmap.hash, "") == [];
        EmptyKeyPends(hashmap.table, hashmap.hash);
      }
    }

    /** The run once ON was asked about the next position. */
    ghost function RunAfter(): seq<Pair>
      requires pair.Valid() && Fits(hashmap.hash, |hashmap.table|)
      reads this, pair, pair.Repr, hashmap
    {
      RunFrom(hashmap.table, hashmap.hash, pair.leftTuple.row, leftCasted || Casts(pair.filter), pair.left.Rest(),
              pair.right.Rows(), pair.filter, leftColIdx)
    }

    /** The next position of a value that has one. */
    method NextPosition(joinValue: string) returns (tupleIdx: int)
      requires pair.Valid() && hashmap.Valid() && Apart() && Stocked(hashmap.table, hashmap.hash, RightKeys())
      requires joinValue == JoinValue(pair.leftTuple.row, leftColIdx, leftCasted)
      requires Pending(hashmap.table, hashmap.hash, joinValue) != []
      modifies hashmap.Repr
      ensures hashmap.Valid() && hashmap.Repr == old(hashmap.Repr)
      ensures Stocked(hashmap.table, hashmap.hash, RightKeys())
      ensures 0 <= tupleIdx < |pair.right.Rows()|
      ensures Found() < old(Found())
      ensures var matches := On(pair.leftTuple.row, pair.right.Rows()[tupleIdx], pair.filter);
              old(StillToProbe()) ==
                (if matches then [(pair.leftTuple.row, pair.right.Rows()[tupleIdx])] else []) + RunAfter()
    {
      hide Stocked, RunFrom, Advance, JoinValue, On, Pending, JoinTuples.LeftSide, RightRelation.Kept,
           RightRelation.Buffered;
      HitRun(hashmap.table, hashmap.hash, pair.leftTuple.row, leftCasted, pair.left.Rest(), pair.right.Rows(),
             pair.filter, leftColIdx, rightColIdx);
      tupleIdx := hashmap.GetValueFromHashmap(joinValue);
    }

    /** When a pair is handed on, ON has cast the join column if it is a number of a line. */
    lemma Held()
      requires Handing()
      ensures pair.right.rightTuplesCollected && (leftCasted ==> Casts(pair.filter))
      ensures Casts(pair.filter) && pair.leftTuple.kind == TPL_DELIMITED ==> leftCasted
    {
      Opened();
    }

    /** Casts are only added, so nothing is lost when its columns are read. */
    lemma HeldAgain()
      requires pair.Handing() && primed && (leftCasted ==> Casts(pair.filter))
      requires Casts(pair.filter) && pair.leftTuple.kind == TPL_DELIMITED ==> leftCasted
      requires FirstLeft(pair.filter) == if Casts(pair.filter) then Some(leftColIdx) else None
      ensures LeftHeld()
    {
      hide JoinTuples.LeftSide, RightRelation.Kept, RightRelation.Buffered, ReadyTuple;
    }

    /** A list of operators on the pair that is handed on, as WHERE asks it between two calls. */
    method Evaluate(ops: seq<FilterOp>) returns (r: Option<bool>)
      requires Handing() && ReadsAs(ops, pair.Joint(), pair.Joint())
      modifies Repr
      ensures Handing() && Repr == old(Repr) && pair.View() == old(pair.View()) && Remaining() == old(Remaining())
      ensures r == if Typed(ops) then Some(Holds(ops, pair.View(), pair.View())) else None
    {
      Opened();
      Held();
      hide *;
      r := pair.Evaluate(ops);
      HeldAgain();
      Closed();
    }

    /** A column of the pair. */
    method Read(c: nat, how: Access) returns (v: Value)
      requires Handing() && c < |pair.Joint()| && how.Allowed(pair.Joint()[c])
      modifies Repr
      ensures Handing() && Repr == old(Repr) && pair.View() == old(pair.View()) && Remaining() == old(Remaining())
      ensures v == how.Value(pair.View().StrCol(c), pair.View().LongCol(c))
    {
      Opened();
      Held();
      hide *;
      v := pair.Read(c, how);
      HeldAgain();
      Closed();
    }
  }
}
