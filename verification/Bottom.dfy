/** What is at the bottom of a plan: the scan of one table, or one of the two joins. It hands on one
    tuple at a time, which its readers may cast columns of until the next one is pulled. */
module Bottom {
  import opened CText
  import opened Tuples
  import opened Comparison
  import opened Filter
  import opened JoinSpec
  import opened Evaluator
  import opened Scan
  import opened JoinTuples
  import NestedLoopJoin
  import HashJoin

  /** The tuples that the scan of a table hands on. */
  function Flats(rows: seq<Row>): (v: seq<View>)
    ensures |v| == |rows|
  {
    seq(|rows|, i requires 0 <= i < |rows| => Flat(rows[i]))
  }

  /** The tuples that a join of `n` left columns hands on. */
  function Views(pairs: seq<Pair>, n: nat): (v: seq<View>)
    ensures |v| == |pairs|
  {
    seq(|pairs|, i requires 0 <= i < |pairs| => Joined(n, pairs[i].0, pairs[i].1))
  }

  lemma NextView(pairs: seq<Pair>, n: nat)
    ensures (Views(pairs, n) == []) <==> (pairs == [])
    ensures pairs != [] ==> Views(pairs, n)[0] == Joined(n, pairs[0].0, pairs[0].1)
                            && Views(pairs, n)[1..] == Views(pairs[1..], n)
  {
  }

  /** The rows have the columns that are read, and a number is all in its record. */
  ghost predicate RowsHold(rows: seq<Row>, rds: seq<Reading>) {
    RowsRead(rows, rds) && forall i :: 0 <= i < |rows| ==> |rds| <= |rows[i].offsets|
  }

  /** Column `c` of these rows can be read as a number. */
  ghost predicate Countable(rows: seq<Row>, c: nat) {
    forall i :: 0 <= i < |rows| && rows[i].kind == TPL_TDB ==> rows[i].Offset(c) + 8 <= |rows[i].data|
  }

  /** The scan of one table, with the tuple that it fills over and over. */
  class TableScan {
    const source: Scan
    const tpl: Tuple
    ghost const rds: seq<Reading>
    /** The end was reached, and the file is closed. */
    ghost var ended: bool
    ghost var Repr: set<object>

    ghost predicate Valid()
      reads this, Repr
      ensures Valid() ==> this in Repr
    {
      && this in Repr && source in Repr && tpl in Repr && tpl.data in Repr
      && source.Valid() && source.Serves(tpl) && RowsHold(source.Rows(), rds)
    }

    constructor (source: Scan, ghost rds: seq<Reading>)
      requires source.Valid() && RowsHold(source.Rows(), rds)
      ensures Valid() && fresh(Repr - {source}) && !ended && this.source == source && this.rds == rds
      ensures Remaining() == Flats(source.Rest())
    {
      var t := new Tuple(TUPLESIZE);
      this.source, tpl, this.rds, ended := source, t, rds, false;
      Repr := {this, source, t, t.data};
    }

    ghost function Remaining(): seq<View>
      requires Valid()
      reads this, Repr
    {
      if ended then [] else Flats(source.Rest())
    }

    /** A row is in the tuple. */
    ghost predicate Handing()
      reads this, Repr
    {
      Valid() && !ended && ReadyTuple(tpl, rds) && tpl.row in source.Rows()
    }

    method GetTuple() returns (more: bool)
      requires Valid() && !ended
      modifies Repr
      ensures Valid() && Repr == old(Repr)
      ensures var todo := old(Remaining());
              if todo == [] then !more && ended
              else more && Handing() && Flat(tpl.row) == todo[0] && Remaining() == todo[1..]
    {
      hide ReadyTuple, RowsRead;
      var r := source.GetTuple(tpl, rds);
      more := r.Some?;
      ended := !more;
    }

    method Evaluate(ops: seq<FilterOp>) returns (r: Option<bool>)
      requires Handing() && ReadsAs(ops, rds, rds)
      modifies Repr
      ensures Handing() && Repr == old(Repr) && Remaining() == old(Remaining()) && tpl.row == old(tpl.row)
      ensures r == if Typed(ops) then Some(Holds(ops, Flat(tpl.row), Flat(tpl.row))) else None
    {
      hide ReadyTuple, RowsRead, ReadsAs, Typed, Holds;
      r := EvaluateTuplesAgainstFilterOps(Single(tpl), Single(tpl), ops, rds, rds);
      StillServes();
    }

    method Read(c: nat, how: Access) returns (v: Value)
      requires Handing() && c < |rds| && how.Allowed(rds[c])
      modifies Repr
      ensures Handing() && Repr == old(Repr) && Remaining() == old(Remaining()) && tpl.row == old(tpl.row)
      ensures v == how.Value(tpl.row.StrCol(c), tpl.row.LongCol(c))
    {
      hide ReadyTuple, RowsRead;
      v := ReadColumn(tpl, c, how, rds);
      StillServes();
    }

    /** Readers leave the offsets of a record where they are. */
    lemma StillServes()
      requires ReadyTuple(tpl, rds) && tpl.row in source.Rows() && tpl.data.Length == TUPLESIZE
      requires source.contents.Records? ==>
                 && |source.contents.sizes| <= MAXCOLS
                 && forall k :: RecordLength(source.contents.sizes) <= k < TUPLESIZE ==> tpl.data[k] == NUL
      ensures source.Serves(tpl)
    {
    }

    /** The number of a column, whatever its type; a text may be lost until the next row is read. */
    method ReadNumber(c: nat) returns (n: int)
      requires Handing() && c < |rds| && Countable(source.Rows(), c)
      modifies Repr
      ensures Valid() && !ended && Repr == old(Repr) && Remaining() == old(Remaining()) && n == old(tpl.row).LongCol(c)
    {
      n := tpl.GetTupleLongColByIndex(c);
    }
  }

  datatype Bottom =
    | Scanned(scan: TableScan)
    | Loop(loop: NestedLoopJoin.NestedLoopJoin)
    | Hashed(hashed: HashJoin.HashJoin)
  {
    ghost function Top(): set<object> {
      match this
      case Scanned(scan) => {scan}
      case Loop(loop) => {loop}
      case Hashed(hashed) => {hashed}
    }

    ghost function Repr(): set<object>
      reads Top()
    {
      match this
      case Scanned(scan) => scan.Repr
      case Loop(loop) => loop.Repr
      case Hashed(hashed) => hashed.Repr
    }

    ghost predicate Valid()
      reads Top(), Repr()
      ensures Valid() ==> Top() <= Repr()
    {
      match this
      case Scanned(scan) => scan.Valid()
      case Loop(loop) => loop.Valid()
      case Hashed(hashed) => hashed.Valid()
    }

    /** The end was reached: the memory is released, and nothing is pulled any more. */
    ghost predicate Ended()
      reads Top()
    {
      match this
      case Scanned(scan) => scan.ended
      case Loop(loop) => loop.ended
      case Hashed(hashed) => hashed.ended
    }

    /** How the columns are read. */
    ghost function Readings(): seq<Reading> {
      match this
      case Scanned(scan) => scan.rds
      case Loop(loop) => if loop.pair.Fits() then loop.pair.Joint() else []
      case Hashed(hashed) => if hashed.pair.Fits() then hashed.pair.Joint() else []
    }

    /** The tuples still to come. */
    ghost function Rest(): seq<View>
      requires Valid()
      reads Top(), Repr()
    {
      match this
      case Scanned(scan) => scan.Remaining()
      case Loop(loop) => Views(loop.Remaining(), loop.pair.leftColumnCount)
      case Hashed(hashed) => Views(hashed.Remaining(), hashed.pair.leftColumnCount)
    }

    /** A tuple is at hand, and can be read so. */
    ghost predicate Handing()
      reads Top(), Repr()
      ensures Handing() ==> Valid() && !Ended()
    {
      match this
      case Scanned(scan) => scan.Handing()
      case Loop(loop) => loop.Handing()
      case Hashed(hashed) => hashed.Handing()
    }

    ghost function Current(): View
      requires Handing()
      reads Top(), Repr()
    {
      match this
      case Scanned(scan) => Flat(scan.tpl.row)
      case Loop(loop) => loop.pair.View()
      case Hashed(hashed) => hashed.pair.View()
    }

    /** Column `c` can be aggregated: in the tuple of a scan the cast of a text does no harm, since the
        tuple is filled again; in those that a join keeps it must leave the text alone. */
    ghost predicate Aggregable(c: nat) {
      c < |Readings()| &&
      match this
      case Scanned(scan) => Countable(scan.source.Rows(), c)
      case _ => Readings()[c].Long()
    }

    /** The next tuple, if there is one. */
    method GetTuple() returns (more: bool)
      requires Valid() && !Ended()
      modifies Repr()
      ensures Valid() && fresh(Repr() - old(Repr()))
      ensures var todo := old(Rest());
              if todo == [] then !more && Ended()
              else more && Handing() && Current() == todo[0] && Rest() == todo[1..]
    {
      hide TableScan.Valid, TableScan.Remaining, NestedLoopJoin.NestedLoopJoin.Valid,
           NestedLoopJoin.NestedLoopJoin.Remaining, HashJoin.HashJoin.Valid, HashJoin.HashJoin.Remaining;
      hide Views;
      match this {
        case Scanned(scan) =>
          more := scan.GetTuple();
        case Loop(loop) =>
          NextView(loop.Remaining(), loop.pair.leftColumnCount);
          more := loop.GetTuple();
        case Hashed(hashed) =>
          NextView(hashed.Remaining(), hashed.pair.leftColumnCount);
          more := hashed.GetTuple();
      }
    }

    /** Filter operators on the tuple at hand; `None` is the exit on mixed types. */
    method Evaluate(ops: seq<FilterOp>) returns (r: Option<bool>)
      requires Handing() && ReadsAs(ops, Readings(), Readings())
      modifies Repr()
      ensures Handing() && Repr() == old(Repr()) && Current() == old(Current()) && Rest() == old(Rest())
      ensures r == if Typed(ops) then Some(Holds(ops, Current(), Current())) else None
    {
      hide Typed, Holds, ReadsAs, TableScan.Valid, TableScan.Remaining, NestedLoopJoin.NestedLoopJoin.Valid,
           NestedLoopJoin.NestedLoopJoin.Remaining, HashJoin.HashJoin.Valid, HashJoin.HashJoin.Remaining,
           JoinTuples.View;
      match this {
        case Scanned(scan) =>
          r := scan.Evaluate(ops);
        case Loop(loop) =>
          r := loop.Evaluate(ops);
        case Hashed(hashed) =>
          r := hashed.Evaluate(ops);
      }
    }

    /** What is printed of a column of that type. */
    method Show(c: nat, d: Datatype) returns (v: Value)
      requires Handing() && c < |Readings()| && Printing(d).Allowed(Readings()[c])
      modifies Repr()
      ensures Handing() && Repr() == old(Repr()) && Current() == old(Current()) && Rest() == old(Rest())
      ensures v == if d == DTYPE_LONG then Number(Current().LongCol(c)) else Text(Current().StrCol(c))
    {
      hide TableScan.Valid, TableScan.Remaining, NestedLoopJoin.NestedLoopJoin.Valid,
           NestedLoopJoin.NestedLoopJoin.Remaining, HashJoin.HashJoin.Valid, HashJoin.HashJoin.Remaining,
           JoinTuples.View;
      match this {
        case Scanned(scan) =>
          v := scan.Read(c, Printing(d));
        case Loop(loop) =>
          v := loop.Read(c, Printing(d));
        case Hashed(hashed) =>
          v := hashed.Read(c, Printing(d));
      }
    }

    /** The number of a column, before the next tuple is pulled. */
    method ReadNumber(c: nat) returns (n: int)
      requires Handing() && Aggregable(c)
      modifies Repr()
      ensures Valid() && !Ended() && Repr() == old(Repr()) && Rest() == old(Rest())
      ensures n == old(Current()).LongCol(c)
    {
      hide TableScan.Valid, TableScan.Remaining, NestedLoopJoin.NestedLoopJoin.Valid,
           NestedLoopJoin.NestedLoopJoin.Remaining, HashJoin.HashJoin.Valid, HashJoin.HashJoin.Remaining,
           JoinTuples.View;
      match this {
        case Scanned(scan) =>
          n := scan.ReadNumber(c);
        case Loop(loop) =>
          var v := loop.Read(c, Casting);
          n := v.n;
        case Hashed(hashed) =>
          var v := hashed.Read(c, Casting);
          n := v.n;
      }
    }
  }
}
