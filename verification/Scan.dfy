/** The scan of a delimited file or a stored table: it fills a tuple that its caller owns, and that is
    filled over and over. */
module Scan {
  import opened CText
  import opened Tuples
  import opened Evaluator

  /** The lines behind the header of a file, or the records of a table in the order they are served. */
  datatype Contents = Lines(lines: seq<string>) | Records(recs: seq<string>, sizes: seq<nat>)

  function RowsIn(c: Contents): seq<Row> {
    match c
    case Lines(lines) => LineRows(lines)
    case Records(recs, sizes) => RecordRows(recs, sizes)
  }

  /** Lines and records fit into a tuple; a byte is left behind a record. */
  ghost predicate WellStored(c: Contents) {
    match c
    case Lines(lines) =>
      forall i :: 0 <= i < |lines| ==> |lines[i]| < LINEBUFF && NUL !in lines[i] && ColumnCount(lines[i]) <= MAXCOLS
    case Records(recs, sizes) =>
      && |sizes| <= MAXCOLS && RecordLength(sizes) < TUPLESIZE
      && forall i :: 0 <= i < |recs| ==> |recs[i]| == RecordLength(sizes)
  }

  function RecordLength(sizes: seq<nat>): nat {
    OffsetOf(sizes, |sizes|)
  }

  /** The columns past the width of the next row that are to be read are still zeroed. */
  ghost predicate PastIsZero(t: Tuple, row: Row, rds: seq<Reading>)
    requires t.Shape()
    reads t
  {
    |rds| <= MAXCOLS && forall i :: |row.offsets| <= i < |rds| ==> t.offsets[i] == 0
  }

  /** A line, split into its columns. */
  method FillLine(t: Tuple, line: string, ghost rds: seq<Reading>)
    requires t.Shape() && |line| < LINEBUFF <= t.data.Length && NUL !in line && ColumnCount(line) <= MAXCOLS
    requires RowReads(LineRow(line), rds) && PastIsZero(t, LineRow(line), rds)
    modifies t, t.data
    ensures t.data == old(t.data) && ReadyTuple(t, rds) && t.row == LineRow(line) && JustRead(t)
    ensures t.Kept(old(t.offsets), |LineRow(line).offsets|)
  {
    LineReads(line);
    hide LineRow, RowReads;
    LineWidth(line);
    t.ScanLine(line);
    PadTo(t, rds);
    LoadedReady(t, rds);
  }

  lemma LineWidth(line: string)
    ensures |LineRow(line).offsets| == ColumnCount(line)
  {
  }

  /** A record, read in place. */
  method FillRecord(t: Tuple, rec: string, sizes: seq<nat>, ghost rds: seq<Reading>)
    requires t.Shape() && |sizes| <= MAXCOLS && |rec| == RecordLength(sizes) < t.data.Length
    requires t.tdbOffsets ==> t.offsets[..|sizes|] == Offsets(sizes)
    requires forall k :: |rec| <= k < t.data.Length ==> t.data[k] == NUL
    requires RowReads(RecordRow(rec, sizes), rds) && PastIsZero(t, RecordRow(rec, sizes), rds)
    modifies t, t.data
    ensures t.data == old(t.data) && ReadyTuple(t, rds) && t.row == RecordRow(rec, sizes) && JustRead(t)
    ensures t.tdbOffsets && t.offsets[..|sizes|] == Offsets(sizes) && t.Kept(old(t.offsets), |sizes|)
    ensures forall k :: |rec| <= k < t.data.Length ==> t.data[k] == NUL
  {
    hide RowReads;
    t.LoadRecord(rec, sizes);
    assert forall k :: |rec| <= k < t.data.Length ==> t.data[k] == t.data[|rec|..][k - |rec|];
    RecordEnds(t, rec, sizes);
    PadTo(t, rds);
    RecordEnds(t, rec, sizes);
    LoadedReady(t, rds);
  }

  /** Nothing is cast yet, and stored texts end. */
  ghost predicate JustRead(t: Tuple)
    reads t, t.data
  {
    t.Valid() && if t.kind == TPL_DELIMITED then t.slots == [] else forall i :: 0 <= i ==> t.Ends(i)
  }

  /** So every column reads as its text. */
  method FirstText(t: Tuple, index: nat) returns (s: string)
    requires JustRead(t) && index < t.Extent()
    ensures s == t.row.StrCol(index)
  {
    assert t.kind == TPL_DELIMITED ==> t.ColumnOk(index);
    s := t.GetTupleColByIndex(index);
  }

  class Scan {
    const contents: Contents
    var pos: nat

    ghost predicate Valid()
      reads this
    {
      WellStored(contents) && pos <= |Rows()|
    }

    ghost function Rows(): seq<Row> {
      RowsIn(contents)
    }

    /** The rows still to come. */
    ghost function Rest(): seq<Row>
      requires Valid()
      reads this
    {
      Rows()[pos..]
    }

    constructor (contents: Contents)
      requires WellStored(contents)
      ensures Valid() && this.contents == contents && pos == 0
    {
      this.contents, pos := contents, 0;
    }

    /** A tuple that only this scan fills. */
    ghost predicate Serves(t: Tuple)
      reads t, t.data
    {
      && t.Shape() && t.data.Length == TUPLESIZE
      && (contents.Records? ==>
            && |contents.sizes| <= MAXCOLS
            && (t.tdbOffsets ==> t.offsets[..|contents.sizes|] == Offsets(contents.sizes))
            && forall k :: RecordLength(contents.sizes) <= k < TUPLESIZE ==> t.data[k] == NUL)
    }

    /** `scanGetTuple` and `scanTDBGetTuple`: the next row, ready to be read; `None` is the empty tuple. */
    method GetTuple(t: Tuple, ghost rds: seq<Reading>) returns (r: Option<Row>)
      requires Valid() && Serves(t) && RowsRead(Rows(), rds)
      requires Rest() != [] ==> PastIsZero(t, Rest()[0], rds)
      modifies this, t, t.data
      ensures Valid() && Serves(t) && t.data == old(t.data)
      ensures if old(Rest()) == [] then r == None && Rest() == []
              else r == Some(old(Rest())[0]) && Rest() == old(Rest())[1..]
      ensures r.Some? ==> ReadyTuple(t, rds) && t.row == r.value
      ensures r.Some? ==> JustRead(t)
      ensures if r.Some? then t.Kept(old(t.offsets), |r.value.offsets|) else t.offsets == old(t.offsets)
    {
      if pos == Count() {
        t.MarkEmpty(if contents.Lines? then TPL_DELIMITED else TPL_TDB);
        return None;
      }
      match contents {
        case Lines(lines) =>
          FillLine(t, lines[pos], rds);
          r := Some(LineRow(lines[pos]));
        case Records(recs, sizes) =>
          FillRecord(t, recs[pos], sizes, rds);
          r := Some(RecordRow(recs[pos], sizes));
      }
      pos := pos + 1;
    }

    function Count(): (n: nat)
      ensures n == |Rows()|
    {
      if contents.Lines? then |contents.lines| else |contents.recs|
    }
  }

  lemma LineReads(line: string)
    requires NUL !in line
    ensures Terminated(LineRow(line).data, 0) && LineRow(line).kind == TPL_DELIMITED
  {
    FirstColumn(line);
    RowReadsColumns(line, 0);
  }

  lemma {:induction false} OffsetsGrow(sizes: seq<nat>, i: nat, j: nat)
    requires i <= j <= |sizes|
    ensures OffsetOf(sizes, i) <= OffsetOf(sizes, j)
  {
    if i < j {
      OffsetsGrow(sizes, i, j - 1);
    }
  }

  /** Every column of a loaded record starts inside it, and a NUL follows the record. */
  lemma RecordEnds(t: Tuple, rec: string, sizes: seq<nat>)
    requires t.row == RecordRow(rec, sizes) && |rec| == RecordLength(sizes) < t.data.Length && t.data[|rec|] == NUL
    ensures forall i :: 0 <= i ==> t.Ends(i)
  {
    forall i | 0 <= i
      ensures t.Ends(i)
    {
      if i < |sizes| {
        OffsetsGrow(sizes, i, |sizes|);
        assert t.row.Offset(i) == OffsetOf(sizes, i);
      }
    }
  }

  ghost method PadTo(t: Tuple, rds: seq<Reading>)
    requires t.Valid() && RowReads(t.row, rds) && PastIsZero(t, t.row, rds) && t.pad == 0
    requires t.kind == TPL_DELIMITED ==> t.slots == [] && forall i :: 0 <= i < MAXCOLS ==> !t.casted[i]
    modifies t`pad
    ensures t.Valid() && |rds| <= t.Extent()
  {
    while t.Extent() < |rds|
      invariant t.Valid()
      decreases |rds| - t.Extent()
    {
      t.Pad();
    }
  }

  /** A tuple that was just filled can be read as its row can. */
  lemma LoadedReady(t: Tuple, rds: seq<Reading>)
    requires t.Valid() && RowReads(t.row, rds) && |rds| <= t.Extent()
    requires t.kind == TPL_DELIMITED ==> t.slots == [] && forall i :: 0 <= i < MAXCOLS ==> !t.casted[i]
    requires t.kind == TPL_TDB ==> forall i :: 0 <= i < |rds| ==> t.Ends(i)
    ensures ReadyTuple(t, rds)
  {
    forall i | 0 <= i < |rds|
      ensures ReadyColumn(t, rds[i], i)
    {
      assert t.kind == TPL_DELIMITED ==> t.ColumnOk(i);
    }
  }
}
