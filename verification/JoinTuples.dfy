/** The tuple that a join hands on: a left tuple that is filled over and over, and one of the collected
    right tuples. Whoever reads it casts columns of these two, between two calls of the join. */
module JoinTuples {
  import opened CText
  import opened Tuples
  import opened Filter
  import opened Comparison
  import opened JoinSpec
  import opened Evaluator
  import opened Scan
  import opened RightRelation

  lemma ReadyPrefix(t: Tuple, rds: seq<Reading>, k: nat)
    requires ReadyTuple(t, rds) && k <= |rds|
    ensures ReadyTuple(t, rds[..k])
  {
  }

  lemma ReadyKind(t: Tuple, rds: seq<Reading>)
    requires ReadyTuple(t, rds)
    ensures t.Shape() && t.kind == t.row.kind && |rds| <= t.Extent() <= MAXCOLS
  {
  }

  /** The columns from `k` on are not disturbed while only those before are read. */
  lemma ReadyWhole(t: Tuple, rds: seq<Reading>, k: nat)
    requires k <= |rds| <= t.Extent() && ReadyTuple(t, rds[..k]) && (t.kind == TPL_DELIMITED ==> Compatible(rds))
    requires forall i :: k <= i < |rds| ==>
               !rds[i].AsBoth? && ReadyColumn(t, rds[i], i)
    ensures ReadyTuple(t, rds)
  {
    forall i | 0 <= i < |rds|
      ensures ReadyColumn(t, rds[i], i)
    {
      assert i < k ==> rds[..k][i] == rds[i];
    }
  }

  lemma ReadyColumns(t: Tuple, rds: seq<Reading>)
    requires ReadyTuple(t, rds)
    ensures t.Shape() && |rds| <= t.Extent() <= MAXCOLS && (t.kind == TPL_DELIMITED ==> Compatible(rds))
    ensures forall i :: 0 <= i < |rds| ==> ReadyColumn(t, rds[i], i)
  {
  }

  /** A zeroed tuple (`initTupleOfSize`): all its columns can be read. */
  method BlankTuple() returns (t: Tuple)
    ensures fresh(t) && fresh(t.data) && t.Valid() && t.row == ZEROED && t.Extent() == MAXCOLS && !t.tdbOffsets
    ensures forall i :: 0 <= i < MAXCOLS ==> t.offsets[i] == 0
    ensures t.data.Length == TUPLESIZE && forall k :: 0 <= k < TUPLESIZE ==> t.data[k] == NUL
  {
    t := new Tuple(TUPLESIZE);
    ghost var i := 0;
    while i < MAXCOLS
      invariant i == t.pad <= MAXCOLS && t.Valid() && t.row == ZEROED && !t.tdbOffsets
      invariant forall i :: 0 <= i < MAXCOLS ==> t.offsets[i] == 0
      invariant fresh(t.data) && t.data.Length == TUPLESIZE && forall k :: 0 <= k < TUPLESIZE ==> t.data[k] == NUL
    {
      t.Pad();
      i := i + 1;
    }
  }

  /** A list of operators on a pair whose tuples have more columns that can be read than the join: those
      can still be read afterwards. */
  method EvaluateParts(left: Tuple, right: Tuple, ops: seq<FilterOp>, n: nat, ghost m: nat,
                       ghost rds: seq<Reading>, ghost rightRds: seq<Reading>)
    returns (r: Option<bool>)
    requires left != right && ReadyTuple(left, rds) && ReadyTuple(right, rightRds) && n <= |rds| && m <= |rightRds|
    requires forall i :: n <= i < |rds| ==> !rds[i].AsBoth?
    requires forall i :: m <= i < |rightRds| ==> !rightRds[i].AsBoth?
    requires ReadsAs(ops, rds[..n] + rightRds[..m], rds[..n] + rightRds[..m])
    modifies left, right
    ensures ReadyTuple(left, rds) && FixedOf(left, n) == old(FixedOf(left, n)) && old(left.slots) <= left.slots
    ensures ReadyTuple(right, rightRds) && FixedOf(right, m) == old(FixedOf(right, m))
    ensures r == if Typed(ops) then Some(Holds(ops, Joined(n, left.row, right.row), Joined(n, left.row, right.row)))
                 else None
  {
    hide RowsRead, ReadsAs, Typed, Holds, ReadyTuple, Compatible, Grown;
    ghost var joint := rds[..n] + rightRds[..m];
    ReadyColumns(left, rds);
    ReadyColumns(right, rightRds);
    ReadyPrefix(left, rds, n);
    ReadyPrefix(right, rightRds, m);
    assert joint[..n] == rds[..n] && joint[n..] == rightRds[..m];
    r := EvaluateTuplesAgainstFilterOps(Pair(n, left, right), Pair(n, left, right), ops, joint, joint);
    GrownPair(old(left.slots), old(right.slots), left.slots, right.slots);
    ReadyKind(left, rds[..n]);
    ReadyKind(right, rightRds[..m]);
    forall i | n <= i < |rds|
      ensures ReadyColumn(left, rds[i], i)
    {
      assert old(ReadyColumn(left, rds[i], i));
      assert left.offsets[i] == left.offsets[n..][i - n] == old(left.offsets[n..])[i - n] == old(left.offsets[i]);
    }
    ReadyWhole(left, rds, n);
    forall i | m <= i < |rightRds|
      ensures ReadyColumn(right, rightRds[i], i)
    {
      assert old(ReadyColumn(right, rightRds[i], i));
      assert right.offsets[i] == right.offsets[m..][i - m] == old(right.offsets[m..])[i - m] == old(right.offsets[i]);
    }
    ReadyWhole(right, rightRds, m);
  }

  lemma GrownPair(a: seq<nat>, b: seq<nat>, a': seq<nat>, b': seq<nat>)
    requires Grown([a, b], [a', b'])
    ensures a <= a' && b <= b'
  {
    assert [a, b][0] <= [a', b'][0] && [a, b][1] <= [a', b'][1];
  }

  class JoinTuples {
    const left: Scan
    const leftTuple: Tuple
    const right: RightRelation
    const filter: seq<FilterOp>
    const leftColumnCount: nat
    const rightColumnCount: nat
    /** How the left columns are read, and the one past them if the ON list reads it. */
    ghost const rds: seq<Reading>
    var current: nat
    ghost var Repr: set<object>

    ghost predicate Fits() {
      JoinFits(left.contents, right.source.contents, filter, leftColumnCount, rightColumnCount, rds, right.rds)
    }

    /** How the columns of the join are read. */
    ghost function Joint(): (r: seq<Reading>)
      requires Fits()
      ensures |r| == leftColumnCount + rightColumnCount
    {
      rds[..leftColumnCount] + right.rds[..rightColumnCount]
    }

    /** The left tuple is the one of the left scan; what is read past the width is zero. */
    ghost predicate LeftSide()
      reads left, leftTuple, leftTuple.data
    {
      && left.Valid() && Fits() && left.Serves(leftTuple)
      && forall i :: leftColumnCount <= i < |rds| ==> leftTuple.offsets[i] == 0
    }

    ghost predicate Apart()
      reads this, leftTuple, right
    {
      && {this, left, leftTuple, leftTuple.data, right} <= Repr && right.Repr <= Repr
      && {this, left, leftTuple, leftTuple.data} !! right.Repr
    }

    ghost predicate Valid()
      reads this, Repr
      ensures Valid() ==> this in Repr && Typed(filter) && left in Repr && left.Valid()
    {
      && this in Repr && left in Repr && leftTuple in Repr && right in Repr && leftTuple.data in Repr
      && Apart() && LeftSide() && right.Valid()
    }

    constructor (left: Scan, right: Scan, filter: seq<FilterOp>, leftColumnCount: nat, rightColumnCount: nat,
                 ghost rds: seq<Reading>, ghost rightRds: seq<Reading>)
      requires left != right && left.Valid() && right.Valid() && left.pos == right.pos == 0
      requires JoinFits(left.contents, right.contents, filter, leftColumnCount, rightColumnCount, rds, rightRds)
      ensures Valid() && fresh(Repr - {left, right}) && !this.right.rightTuplesCollected
      ensures this.left == left && this.right.source == right && this.filter == filter
      ensures this.leftColumnCount == leftColumnCount && this.rightColumnCount == rightColumnCount
      ensures this.rds == rds && this.right.rds == rightRds && Blank()
    {
      hide RowsRead, AllHaveWidth, ReadsAs, Typed, ReadyTuple;
      var relation := new RightRelation(right, rightRds);
      var t := BlankTuple();
      this.left, leftTuple, this.right, this.filter := left, t, relation, filter;
      this.leftColumnCount, this.rightColumnCount, this.rds := leftColumnCount, rightColumnCount, rds;
      current := 0;
      Repr := {this, left, t, t.data} + relation.Repr;
    }

    /** Before a left row is read: every column is empty. */
    ghost predicate Blank()
      reads leftTuple, leftTuple.data
    {
      && leftTuple.Valid() && leftTuple.row == ZEROED && leftTuple.Extent() == MAXCOLS
      && (forall i :: 0 <= i < MAXCOLS ==> leftTuple.offsets[i] == 0)
      && leftTuple.data.Length > 0 && leftTuple.data[0] == NUL
    }

    /** A row of the left table is in the left tuple: what ON and WHERE read can be read, and the first
        number that ON reads is the first one that is cast. */
    ghost predicate Holding()
      reads leftTuple, leftTuple.data
    {
      && ReadyTuple(leftTuple, rds) && leftTuple.row in left.Rows() && |leftTuple.row.offsets| == leftColumnCount
      && leftTuple.kind == (if left.contents.Lines? then TPL_DELIMITED else TPL_TDB)
      && (left.contents.Records? ==> leftTuple.row.offsets == Offsets(left.contents.sizes))
      && (leftTuple.kind == TPL_DELIMITED && FirstLeft(filter).Some? ==>
            leftTuple.slots == [] || leftTuple.slots[0] == FirstLeft(filter).value)
    }

    /** ON was asked for this left tuple. */
    ghost predicate Asked()
      reads leftTuple
    {
      leftTuple.kind == TPL_DELIMITED && FirstLeft(filter).Some? ==> leftTuple.slots != []
    }

    /** The next left tuple. */
    method FetchLeft() returns (r: Option<Row>)
      requires Valid()
      modifies left, leftTuple, leftTuple.data
      ensures Valid()
      ensures if old(left.Rest()) == [] then r == None && left.Rest() == []
              else r == Some(old(left.Rest())[0]) && left.Rest() == old(left.Rest())[1..]
                   && Holding() && JustRead(leftTuple) && leftTuple.row == r.value
    {
      hide ReadyTuple, RowsRead, ReadsAs, Typed, RightRelation.Kept, RightRelation.Buffered;
      NextWidth();
      r := left.GetTuple(leftTuple, rds);
      if r.Some? {
        ReadyKind(leftTuple, rds);
      }
    }

    lemma NextWidth()
      requires LeftSide()
      ensures left.Rest() != [] ==>
                var row := left.Rest()[0];
                && |row.offsets| == leftColumnCount && PastIsZero(leftTuple, row, rds)
                && row.kind == (if left.contents.Lines? then TPL_DELIMITED else TPL_TDB)
                && (left.contents.Records? ==> row.offsets == Offsets(left.contents.sizes))
    {
      hide LineRow;
      if left.Rest() != [] {
        assert left.Rest()[0] == left.Rows()[left.pos];
        if left.contents.Lines? {
          LineReads(left.contents.lines[left.pos]);
        }
      }
    }

    /** One more right tuple, if there is one. */
    method CollectOne() returns (more: bool)
      requires Valid() && !right.rightTuplesCollected
      modifies this`Repr, right.Repr
      ensures Valid() && fresh(Repr - old(Repr)) && fresh(right.Repr - old(right.Repr))
      ensures right.rightTuplesCollected == !more
      ensures more == (old(|right.tuples|) < |right.Rows()|)
      ensures |right.tuples| == old(|right.tuples|) + (if more then 1 else 0)
      ensures more ==> JustRead(right.tuples[|right.tuples| - 1])
    {
      hide ReadyTuple, LeftSide;
      more := right.CollectOne();
      Repr := Repr + right.Repr;
    }

    /** The whole right input, read into the buffer. */
    method CollectAll()
      requires Valid() && !right.rightTuplesCollected
      modifies this`Repr, right.Repr
      ensures Valid() && fresh(Repr - old(Repr)) && fresh(right.Repr - old(right.Repr))
      ensures right.rightTuplesCollected && |right.tuples| == |right.Rows()|
    {
      hide ReadyTuple, LeftSide;
      AtMostAll();
      while !right.rightTuplesCollected
        invariant Valid() && fresh(Repr - old(Repr)) && fresh(right.Repr - old(right.Repr))
        invariant |right.tuples| <= |right.Rows()|
        invariant right.rightTuplesCollected ==> |right.tuples| == |right.Rows()|
        decreases |right.Rows()| - |right.tuples|, !right.rightTuplesCollected
      {
        var _ := CollectOne();
      }
    }

    lemma AtMostAll()
      requires Valid()
      ensures |right.tuples| <= |right.Rows()|
    {
    }

    /** ON on the left tuple and a collected right one, which is then handed on. */
    method TryPair(idx: nat) returns (matches: bool)
      requires Valid() && Holding() && idx < |right.tuples|
      modifies Repr
      ensures Valid() && Repr == old(Repr) && Holding() && Asked() && current == idx
      ensures leftTuple.row == old(leftTuple.row) && left.Rest() == old(left.Rest())
      ensures right.tuples == old(right.tuples) && right.rightTuplesCollected == old(right.rightTuplesCollected)
      ensures matches == On(leftTuple.row, right.Rows()[idx], filter)
    {
      hide ReadyTuple, RowsRead, ReadsAs, Typed, Holds;
      current := idx;
      var t := right.Get(idx);
      matches := AskAt(idx, t);
    }

    method AskAt(idx: nat, t: Tuple) returns (matches: bool)
      requires Valid() && Holding() && idx < |right.tuples| && t == right.tuples[idx]
      modifies leftTuple, t
      ensures Valid() && Holding() && Asked() && leftTuple.row == old(leftTuple.row)
      ensures matches == On(leftTuple.row, right.Rows()[idx], filter)
    {
      hide ReadyTuple, RowsRead, ReadsAs, Typed, Holds;
      matches := Ask(t);
      forall k | 0 <= k < |right.tuples|
        ensures ReadyTuple(right.tuples[k], right.rds) && right.tuples[k].row == right.Rows()[k]
      {
        assert old(ReadyTuple(right.tuples[k], right.rds));
        assert k != idx ==> right.tuples[k] != t;
      }
      ReadyKind(leftTuple, rds);
      StillZero();
      assert right.Kept();
      assert right.Buffered(0);
      assert LeftSide();
    }

    /** ON on two tuples. */
    method Ask(t: Tuple) returns (matches: bool)
      requires Fits() && Holding() && ReadyTuple(t, right.rds) && t != leftTuple
      modifies leftTuple, t
      ensures Holding() && Asked() && leftTuple.row == old(leftTuple.row) && leftTuple.data == old(leftTuple.data)
      ensures leftTuple.tdbOffsets == old(leftTuple.tdbOffsets)
      ensures ReadyTuple(t, right.rds) && t.row == old(t.row) && t.data == old(t.data)
      ensures matches == On(leftTuple.row, t.row, filter)
    {
      hide RowsRead, ReadsAs, Typed, Holds;
      var r := EvaluateTuplesAgainstFilterOps(Single(leftTuple), Single(t), filter, rds, right.rds);
      matches := r.value;
    }

    /** The tuples of a pair that matched. */
    ghost predicate Handing()
      reads this, Repr
    {
      Valid() && Holding() && Asked() && current < |right.tuples|
    }

    /** The row of the join. */
    ghost function View(): View
      requires Handing()
      reads this, Repr
    {
      Joined(leftColumnCount, leftTuple.row, right.Rows()[current])
    }

    /** A list of operators on the pair, as WHERE asks it between two calls of the join. */
    method Evaluate(ops: seq<FilterOp>) returns (r: Option<bool>)
      requires Handing() && ReadsAs(ops, Joint(), Joint())
      modifies leftTuple, right.tuples[current]
      ensures Handing() && View() == old(View())
      ensures r == if Typed(ops) then Some(Holds(ops, View(), View())) else None
    {
      hide ReadyTuple, RowsRead, ReadsAs, Typed, Holds;
      var t := right.tuples[current];
      r := EvaluatePair(t, ops);
      forall k | 0 <= k < |right.tuples|
        ensures ReadyTuple(right.tuples[k], right.rds) && right.tuples[k].row == right.Rows()[k]
      {
        assert old(ReadyTuple(right.tuples[k], right.rds));
        assert k != current ==> right.tuples[k] != t;
      }
      ReadyKind(leftTuple, rds);
      StillZero();
      assert right.Kept();
      assert right.Buffered(0);
      assert LeftSide();
    }

    /** A column of the pair. */
    method Read(c: nat, how: Access) returns (v: Value)
      requires Handing() && c < |Joint()| && how.Allowed(Joint()[c])
      modifies leftTuple, right.tuples[current]
      ensures Handing() && View() == old(View()) && v == how.Value(View().StrCol(c), View().LongCol(c))
    {
      assert Joint()[c] == if c < leftColumnCount then rds[c] else right.rds[c - leftColumnCount];
      hide ReadyTuple, LeftSide, Holding, Asked;
      if c < leftColumnCount {
        v := ReadLeft(c, how);
      } else {
        v := ReadRight(c - leftColumnCount, how);
      }
    }

    method ReadLeft(c: nat, how: Access) returns (v: Value)
      requires Handing() && c < |rds| && how.Allowed(rds[c])
      modifies leftTuple
      ensures Handing() && View() == old(View())
      ensures v == how.Value(leftTuple.row.StrCol(c), leftTuple.row.LongCol(c))
    {
      hide ReadyTuple, RowsRead, ReadsAs, Typed;
      ghost var slots := leftTuple.slots;
      v := ReadColumn(leftTuple, c, how, rds);
      LeftAgain(slots);
    }

    method ReadRight(c: nat, how: Access) returns (v: Value)
      requires Handing() && c < |right.rds| && how.Allowed(right.rds[c])
      modifies right.tuples[current]
      ensures Handing() && View() == old(View())
      ensures v == how.Value(right.Rows()[current].StrCol(c), right.Rows()[current].LongCol(c))
    {
      hide ReadyTuple, LeftSide, Holding, Asked;
      v := right.ReadAt(current, c, how);
    }

    /** The left tuple after a read. */
    lemma LeftAgain(slots: seq<nat>)
      requires Fits() && ReadyTuple(leftTuple, rds) && slots <= leftTuple.slots
      requires leftTuple.row in left.Rows() && |leftTuple.row.offsets| == leftColumnCount
      requires leftTuple.kind == (if left.contents.Lines? then TPL_DELIMITED else TPL_TDB)
      requires left.contents.Records? ==> leftTuple.row.offsets == Offsets(left.contents.sizes)
      requires leftTuple.kind == TPL_DELIMITED && FirstLeft(filter).Some? ==>
                 slots != [] && slots[0] == FirstLeft(filter).value
      ensures Holding() && Asked() && leftTuple.Shape()
      ensures forall i :: leftColumnCount <= i < |rds| ==> leftTuple.offsets[i] == 0
      ensures left.contents.Records? ==> leftTuple.offsets[..|left.contents.sizes|] == Offsets(left.contents.sizes)
    {
      ReadyKind(leftTuple, rds);
      StillZero();
    }

    method EvaluatePair(t: Tuple, ops: seq<FilterOp>) returns (r: Option<bool>)
      requires Handing() && t == right.tuples[current] && ReadsAs(ops, Joint(), Joint())
      modifies leftTuple, t
      ensures Holding() && Asked() && leftTuple.row == old(leftTuple.row) && leftTuple.data == old(leftTuple.data)
      ensures leftTuple.tdbOffsets == old(leftTuple.tdbOffsets)
      ensures ReadyTuple(t, right.rds) && t.row == old(t.row) && t.data == old(t.data)
      ensures r == if Typed(ops) then Some(Holds(ops, old(View()), old(View()))) else None
    {
      hide RowsRead, ReadsAs, Typed, Holds, ReadyTuple;
      ReadyKind(leftTuple, rds);
      r := EvaluateParts(leftTuple, t, ops, leftColumnCount, rightColumnCount, rds, right.rds);
      ReadyKind(leftTuple, rds);
    }

    /** Whatever ON and WHERE have cast, what is read past the width is still zero. */
    lemma StillZero()
      requires Fits() && Holding()
      ensures forall i :: leftColumnCount <= i < |rds| ==> leftTuple.offsets[i] == 0
      ensures left.contents.Records? ==>
                leftTuple.offsets[..|left.contents.sizes|] == Offsets(left.contents.sizes)
    {
      var t, n := leftTuple, leftColumnCount;
      if |rds| > n && t.kind == TPL_DELIMITED {
        assert t.ColumnOk(n) && ReadyColumn(t, rds[n], n);
        if t.casted[n] {
          assert t.SlotOk(t.offsets[n]) && t.SlotOk(0);
        }
      }
    }
  }

  /** The rows have the columns of their tables, and ON reads them so. A column number past the left
      width that is read as a number of a line is the first number that ON reads there. */
  ghost predicate JoinFits(left: Contents, right: Contents, filter: seq<FilterOp>, n: nat, m: nat,
                           rds: seq<Reading>, rightRds: seq<Reading>)
  {
    && Typed(filter) && ReadsAs(filter, rds, rightRds)
    && n <= |rds| <= n + 1 && m <= |rightRds| && |rds| <= MAXCOLS && |rightRds| <= MAXCOLS
    && RowsRead(RowsIn(left), rds) && AllHaveWidth(RowsIn(left), n)
    && RowsRead(RowsIn(right), rightRds) && AllHaveWidth(RowsIn(right), m)
    && (forall i :: n <= i < |rds| ==> rds[i] in {AsText, AsLong})
    && (forall i :: m <= i < |rightRds| ==> !rightRds[i].AsBoth?)
    && (left.Lines? && |rds| > n && rds[n].Long() ==> FirstLeft(filter) == Some(n))
  }
}
