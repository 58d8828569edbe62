/** The growing buffer that keeps the right relation of a join: an array of tuple structs and
    one block of memory that their data pointers point into. Growing moves both. */
module TupleBuffer {
  import opened CText
  import opened Tuples

  /** A tuple struct: its data pointer is a block and an offset into it. */
  datatype TupleStruct = TupleStruct(block: array<char>, at: nat, kind: TupleKind, offsets: seq<nat>, len: nat)

  /** The tuple that a struct describes, read through its data pointer. */
  function RowAt(t: TupleStruct): Row
    reads t.block
    requires t.at + t.len <= t.block.Length
  {
    Row(t.kind, t.block[t.at..t.at + t.len], t.offsets)
  }

  /** Block `i` of `m`, in blocks of `size` bytes, starts with `s`. */
  ghost predicate BlockStarts(m: string, size: nat, i: nat, s: string) {
    |s| <= size && i * size + |s| <= |m| && m[i * size..i * size + |s|] == s
  }

  lemma BlocksInside(i: nat, n: nat, size: nat)
    requires i < n
    ensures i * size + size <= n * size
  {
    assert (i + 1) * size <= n * size;
  }

  /** Writing at the start of one block leaves what the other blocks start with. */
  lemma OtherBlockKept(before: string, after: string, size: nat, written: nat, len: nat, i: nat, s: string)
    requires |after| == |before| && len <= size && i != written
    requires forall k :: 0 <= k < |before| && !(written * size <= k < written * size + len) ==> after[k] == before[k]
    requires BlockStarts(before, size, i, s)
    ensures BlockStarts(after, size, i, s)
  {
    if i < written {
      BlocksInside(i, written, size);
    } else {
      BlocksInside(written, i, size);
    }
    var o := i * size;
    forall k | o <= k < o + |s|
      ensures after[k] == before[k]
    {
    }
    assert after[o..o + |s|] == before[o..o + |s|];
  }

  /** Bytes arrive at an address. */
  method WriteAt(block: array<char>, at: nat, s: string)
    requires at + |s| <= block.Length
    modifies block
    ensures block[at..at + |s|] == s
    ensures forall k :: 0 <= k < block.Length && !(at <= k < at + |s|) ==> block[k] == old(block[k])
  {
    forall k | 0 <= k < |s| {
      block[at + k] := s[k];
    }
  }

  lemma NextBlock(n: nat, size: nat)
    ensures (n + 1) * size == n * size + size
  {
  }

  class TupleBuffer {
    const tupledatasize: nat
    var tuples: array<TupleStruct>
    var data: array<char>
    var cursor: nat
    var size: nat
    var capacity: nat
    /** What was stored through each slot that was handed out. */
    ghost var rows: seq<Option<Row>>
    ghost var Repr: set<object>

    ghost predicate Stored(i: nat)
      requires i < |rows| && i < tuples.Length
      reads this, tuples, data
    {
      rows[i].Some? ==>
        var row, t := rows[i].value, tuples[i];
        BlockStarts(data[..], tupledatasize, i, row.data)
        && t.kind == row.kind && t.offsets == row.offsets && t.len == |row.data|
    }

    ghost predicate Valid()
      reads this, Repr
      ensures Valid() ==> this in Repr
    {
      && this in Repr && tuples in Repr && data in Repr
      && 1 <= capacity == tuples.Length && data.Length == capacity * tupledatasize
      && |rows| == size <= capacity - 1 && cursor == size * tupledatasize
      && forall i :: 0 <= i < size ==> Stored(i)
    }

    constructor (capacity: nat, tuplesize: nat)
      requires capacity >= 1
      ensures Valid() && fresh(Repr) && rows == [] && tupledatasize == tuplesize
    {
      var block := new char[capacity * tuplesize];
      var structs := new TupleStruct[capacity](_ => TupleStruct(block, 0, TPL_TDB, [], 0));
      this.capacity, tupledatasize := capacity, tuplesize;
      data, tuples := block, structs;
      size, cursor, rows := 0, 0, [];
      Repr := {this, block, structs};
    }

    /** Twice the room: both arrays move, and the data pointers of the tuples stay behind. */
    method Resize()
      requires Valid()
      modifies Repr
      ensures Valid() && fresh(Repr - old(Repr)) && fresh(data)
      ensures rows == old(rows) && size == old(size) && capacity == 2 * old(capacity)
    {
      ghost var block, n := data[..], data.Length;
      assert 2 * capacity * tupledatasize == n + n;
      var structs := new TupleStruct[2 * capacity](i requires 0 <= i reads this, tuples =>
        if i < tuples.Length then tuples[i] else TupleStruct(data, 0, TPL_TDB, [], 0));
      var moved := new char[2 * capacity * tupledatasize](i requires 0 <= i reads this, data =>
        if i < data.Length then data[i] else NUL);
      capacity := 2 * capacity;
      tuples, data := structs, moved;
      Repr := {this, structs, moved};
      assert data[..n] == block;
      forall i | 0 <= i < size
        ensures Stored(i)
      {
        assert old(Stored(i));
      }
    }

    /** A slot for the next tuple. Its data pointer is current, and points behind all others. */
    method GetTupleFromBuffer() returns (idx: nat)
      requires Valid()
      modifies Repr
      ensures Valid() && fresh(Repr - old(Repr))
      ensures idx == old(size) && rows == old(rows) + [None]
      ensures tuples[idx].block == data && tuples[idx].at == idx * tupledatasize
    {
      if size >= capacity - 1 {
        Resize();
      }
      label Grown:
      NextBlock(size, tupledatasize);
      hide BlockStarts;
      idx := size;
      size := size + 1;
      rows := rows + [None];
      tuples[idx] := TupleStruct(data, cursor, TPL_TDB, [], 0);
      cursor := cursor + tupledatasize;
      forall i | 0 <= i < size
        ensures Stored(i)
      {
        assert i < idx ==> old@Grown(Stored(i));
      }
    }

    /** The child operator fills the slot through its data pointer, while that is current. */
    method Fill(idx: nat, row: Row)
      requires Valid() && idx < size && |row.data| <= tupledatasize
      requires tuples[idx].block == data && tuples[idx].at == idx * tupledatasize
      modifies Repr
      ensures Valid() && Repr == old(Repr)
      ensures rows == old(rows)[idx := Some(row)]
    {
      BlocksInside(idx, capacity, tupledatasize);
      ghost var before := data[..];
      WriteAt(tuples[idx].block, tuples[idx].at, row.data);
      ghost var after := data[..];
      tuples[idx] := TupleStruct(tuples[idx].block, tuples[idx].at, row.kind, row.offsets, |row.data|);
      rows := rows[idx := Some(row)];
      forall i | 0 <= i < size
        ensures Stored(i)
      {
        assert old(Stored(i));
        if i != idx && rows[i].Some? {
          OtherBlockKept(before, after, tupledatasize, idx, |row.data|, i, rows[i].value.data);
        }
      }
    }

    /** Tuple `idx`, its data pointer repaired first: however often the buffer moved, the tuple
        reads as what was stored. */
    method GetTupleByIndex(idx: nat) returns (t: TupleStruct)
      requires Valid() && idx < size && rows[idx].Some?
      modifies Repr
      ensures Valid() && Repr == old(Repr) && rows == old(rows)
      ensures t.block == data && t.at == idx * tupledatasize && t == tuples[idx]
      ensures t.at + t.len <= t.block.Length && RowAt(t) == rows[idx].value
    {
      assert Stored(idx);
      tuples[idx] := tuples[idx].(block := data, at := idx * tupledatasize);
      t := tuples[idx];
      forall i | 0 <= i < size
        ensures Stored(i)
      {
        assert old(Stored(i));
      }
    }
  }
}
