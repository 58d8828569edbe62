/** The right side of a join: its tuples are read once, into a buffer, and then fetched by index. They
    keep what is cast in them. */
module RightRelation {
  import opened CText
  import opened Tuples
  import opened Comparison
  import opened Evaluator
  import opened Scan
  import opened TupleBuffer

  const JOINBUFFSIZE: nat := 100000

  /** The tuples are different ones, can be read so, and read as these rows. */
  ghost predicate Collected(tuples: seq<Tuple>, rows: seq<Row>, rds: seq<Reading>)
    reads tuples, set t | t in tuples :: t.data
  {
    && |tuples| == |rows| && Different(tuples)
    && forall i :: 0 <= i < |tuples| ==> ReadyTuple(tuples[i], rds) && tuples[i].row == rows[i]
  }

  ghost predicate Different(tuples: seq<Tuple>) {
    forall i, j :: 0 <= i < j < |tuples| ==> tuples[i] != tuples[j]
  }

  /** The structs of the tuples live in the buffer with the bytes of their blocks; what is cast in
      them is kept in the tuples. */
  class RightRelation {
    const source: Scan
    const buffer: TupleBuffer
    ghost const rds: seq<Reading>
    var tuples: seq<Tuple>
    var rightTuplesCollected: bool
    ghost var Repr: set<object>

    ghost function Rows(): seq<Row> {
      source.Rows()
    }

    /** The buffer holds the blocks of the tuples, and `more` were read from the source. */
    ghost predicate Buffered(more: nat)
      reads this, source, buffer, buffer.Repr
    {
      && {this, source, buffer} <= Repr && buffer.Repr <= Repr && {this, source} !! buffer.Repr
      && source.Valid() && buffer.Valid() && buffer.tupledatasize == TUPLESIZE
      && RowsRead(Rows(), rds) && |tuples| + more == source.pos <= |buffer.rows|
      && (forall i :: 0 <= i < |tuples| ==> buffer.rows[i] == Some(Rows()[i]))
    }

    /** The tuples lie apart from everything else. */
    ghost predicate Kept()
      reads this, tuples, set t | t in tuples :: t.data, buffer
    {
      && (forall i :: 0 <= i < |tuples| ==> {tuples[i], tuples[i].data} <= Repr - buffer.Repr - {this, source})
      && |tuples| <= |Rows()| && Collected(tuples, Rows()[..|tuples|], rds)
    }

    ghost predicate Valid()
      reads this, Repr
      ensures Valid() ==> this in Repr
    {
      && this in Repr && source in Repr && buffer in Repr && buffer.Repr <= Repr
      && (forall i :: 0 <= i < |tuples| ==> tuples[i] in Repr && tuples[i].data in Repr)
      && Buffered(0) && Kept()
      && (if rightTuplesCollected then source.Rest() == [] else |buffer.rows| == |tuples|)
    }

    constructor (source: Scan, ghost rds: seq<Reading>)
      requires source.Valid() && source.pos == 0 && RowsRead(source.Rows(), rds)
      ensures Valid() && fresh(Repr - {source})
      ensures this.source == source && this.rds == rds && tuples == [] && !rightTuplesCollected
    {
      var memory := new TupleBuffer(JOINBUFFSIZE, TUPLESIZE);
      this.source, buffer, this.rds, tuples, rightTuplesCollected := source, memory, rds, [], false;
      Repr := {this, source} + memory.Repr;
    }

    /** One right tuple, read into a slot of its own. */
    method CollectOne() returns (more: bool)
      requires Valid() && !rightTuplesCollected
      modifies Repr
      ensures Valid() && fresh(Repr - old(Repr))
      ensures more == (old(|tuples|) < |Rows()|) && rightTuplesCollected == !more
      ensures if more then |tuples| == old(|tuples|) + 1 && tuples[..old(|tuples|)] == old(tuples)
              else tuples == old(tuples)
      ensures more ==> JustRead(tuples[|tuples| - 1])
    {
      hide ReadyTuple, RowsRead, JustRead;
      var slot := buffer.GetTupleFromBuffer();
      Repr := Repr + buffer.Repr;
      var t, r := ReadTuple();
      match r {
        case None =>
          rightTuplesCollected := true;
          more := false;
        case Some(row) =>
          Keep(slot, t, row);
          more := true;
      }
    }

    method Keep(slot: nat, t: Tuple, row: Row)
      requires Buffered(1) && Kept() && !rightTuplesCollected && slot == |tuples| == |buffer.rows| - 1
      requires row == Rows()[slot]
      requires slot < buffer.tuples.Length && buffer.tuples[slot].block == buffer.data
               && buffer.tuples[slot].at == slot * buffer.tupledatasize
      requires t !in Repr && t.data !in Repr && t !in tuples && ReadyTuple(t, rds) && t.row == row
      requires t.data.Length == TUPLESIZE
      modifies this`tuples, this`Repr, buffer.Repr
      ensures Valid() && Repr == old(Repr) + {t, t.data} && !rightTuplesCollected
      ensures tuples == old(tuples) + [t] && (old(JustRead(t)) ==> JustRead(t))
    {
      hide ReadyTuple, RowsRead, Different;
      FitsBlock(t);
      Another(tuples, t);
      buffer.Fill(slot, row);
      assert Rows()[..slot + 1] == Rows()[..slot] + [row];
      tuples := tuples + [t];
      Repr := Repr + {t, t.data};
    }

    lemma FitsBlock(t: Tuple)
      requires ReadyTuple(t, rds)
      ensures |t.row.data| <= t.data.Length
    {
    }

    lemma Another(tuples: seq<Tuple>, t: Tuple)
      requires Different(tuples) && t !in tuples
      ensures Different(tuples + [t])
    {
    }

    method ReadTuple() returns (t: Tuple, r: Option<Row>)
      requires source.Valid() && RowsRead(Rows(), rds)
      modifies source
      ensures source.Valid() && fresh(t) && fresh(t.data)
      ensures if old(source.Rest()) == [] then r == None && source.Rest() == []
              else r == Some(old(source.Rest())[0]) && source.Rest() == old(source.Rest())[1..]
                   && ReadyTuple(t, rds) && t.row == r.value && t.data.Length == TUPLESIZE && JustRead(t)
    {
      hide ReadyTuple;
      RowReadsWidth(Rows(), rds);
      hide RowsRead;
      t := new Tuple(TUPLESIZE);
      r := source.GetTuple(t, rds);
    }

    lemma RowReadsWidth(rows: seq<Row>, rds: seq<Reading>)
      requires RowsRead(rows, rds)
      ensures rows != [] ==> |rds| <= MAXCOLS
    {
      assert rows != [] ==> RowReads(rows[0], rds);
    }

    /** A collected tuple, its data pointer repaired first. */
    method Get(idx: nat) returns (t: Tuple)
      requires Valid() && idx < |tuples|
      modifies Repr
      ensures Valid() && Repr == old(Repr) && tuples == old(tuples)
      ensures rightTuplesCollected == old(rightTuplesCollected)
      ensures t == tuples[idx]
    {
      var struct := buffer.GetTupleByIndex(idx);
      t := tuples[idx];
    }

    /** A column of one of the tuples; the others are as before. */
    method ReadAt(idx: nat, index: nat, how: Access) returns (v: Value)
      requires Valid() && idx < |tuples| && index < |rds| && how.Allowed(rds[index])
      modifies tuples[idx]
      ensures Valid() && v == how.Value(Rows()[idx].StrCol(index), Rows()[idx].LongCol(index))
    {
      hide ReadyTuple, RowsRead;
      var t := tuples[idx];
      v := ReadColumn(t, index, how, rds);
      forall k | 0 <= k < |tuples|
        ensures ReadyTuple(tuples[k], rds) && tuples[k].row == Rows()[k]
      {
        assert old(ReadyTuple(tuples[k], rds));
        assert k != idx ==> tuples[k] != t;
      }
      assert Kept();
      assert Buffered(0);
    }
  }
}
