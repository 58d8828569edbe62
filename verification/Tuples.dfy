/** Tuples: what their columns read as, how a delimited line is split into columns in place,
    and the cache that keeps the numeric value of a column once it was cast. */
module Tuples {
  import opened CText

  const MAXCOLS: nat := 100
  const TUPLESIZE: nat := 500
  const LINEBUFF: nat := 200
  const DELIMITER: char := ';'

  datatype TupleKind = TPL_TDB | TPL_DELIMITED

  /** A tuple as a value: its bytes and where each column starts. A column number past the width
      reads at the start of the block, where the offsets of a zeroed tuple point. */
  datatype Row = Row(kind: TupleKind, data: string, offsets: seq<nat>) {
    function Offset(i: nat): nat {
      if i < |offsets| then offsets[i] else 0
    }

    function StrCol(i: nat): string {
      CString(data, Offset(i))
    }

    function LongCol(i: nat): (n: int)
      ensures IsLong(n)
    {
      if kind == TPL_TDB then
        DecodeLong(data, Offset(i))
      else Atol(StrCol(i))
    }
  }

  /** Where column `i` of a record starts when the columns lie one behind the other. */
  function OffsetOf(sizes: seq<nat>, i: nat): nat
    requires i <= |sizes|
  {
    if i == 0 then 0 else OffsetOf(sizes, i - 1) + sizes[i - 1]
  }

  function Offsets(sizes: seq<nat>): seq<nat> {
    seq(|sizes|, i requires 0 <= i < |sizes| => OffsetOf(sizes, i))
  }

  /** The row a record is read as. */
  function RecordRow(rec: string, sizes: seq<nat>): Row {
    Row(TPL_TDB, rec, Offsets(sizes))
  }

  /** The row has `width` columns, the first one at the start of its block, as every scan leaves it. */
  ghost predicate HasWidth(row: Row, width: nat) {
    |row.offsets| == width && (width > 0 ==> row.offsets[0] == 0)
  }

  /** Every row has the columns of its table. */
  ghost predicate AllHaveWidth(rows: seq<Row>, width: nat) {
    forall i :: 0 <= i < |rows| ==> HasWidth(rows[i], width)
  }

  /** A newly allocated, zeroed tuple: every column reads as "" or 0. */
  const ZEROED: Row := Row(TPL_TDB, "", [])

  /** A single tuple, or the pair that a join hands on (TPL_JOIN). */
  datatype View = Flat(row: Row) | Joined(leftColumnCount: nat, left: Row, right: Row) {
    function StrCol(i: nat): string {
      match this
      case Flat(row) => row.StrCol(i)
      case Joined(n, left, right) => if i < n then left.StrCol(i) else right.StrCol(i - n)
    }

    function LongCol(i: nat): (n: int)
      ensures IsLong(n)
    {
      match this
      case Flat(row) => row.LongCol(i)
      case Joined(n, left, right) => if i < n then left.LongCol(i) else right.LongCol(i - n)
    }
  }

  // ----- records of fields -----

  function Concat(fields: seq<string>): string {
    if fields == [] then "" else Concat(fields[..|fields| - 1]) + fields[|fields| - 1]
  }

  lemma {:induction false} FieldAt(fields: seq<string>, widths: seq<nat>, k: nat)
    requires |fields| <= |widths| && k < |fields|
    requires forall i :: 0 <= i < |fields| ==> |fields[i]| == widths[i]
    ensures |Concat(fields)| == OffsetOf(widths, |fields|)
    ensures OffsetOf(widths, k + 1) <= |Concat(fields)|
    ensures Concat(fields)[OffsetOf(widths, k)..OffsetOf(widths, k + 1)] == fields[k]
  {
    var n := |fields| - 1;
    if n > 0 {
      FieldAt(fields[..n], widths, if k < n then k else 0);
    }
  }

  lemma TotalWidth(fields: seq<string>, widths: seq<nat>)
    requires |fields| <= |widths|
    requires forall i :: 0 <= i < |fields| ==> |fields[i]| == widths[i]
    ensures |Concat(fields)| == OffsetOf(widths, |fields|)
  {
    if fields != [] {
      FieldAt(fields, widths, 0);
    }
  }

  /** The row of a record with these fields. */
  function FieldRow(fields: seq<string>): Row {
    RecordRow(Concat(fields), FieldSizes(fields))
  }

  function FieldSizes(fields: seq<string>): (sizes: seq<nat>)
    ensures |sizes| == |fields|
  {
    seq(|fields|, i requires 0 <= i < |fields| => |fields[i]|)
  }

  lemma FieldOfRow(fields: seq<string>, i: nat)
    requires i < |fields|
    ensures var row := FieldRow(fields);
            && HasWidth(row, |fields|) && row.Offset(i) + |fields[i]| <= |row.data|
            && row.data[row.Offset(i)..row.Offset(i) + |fields[i]|] == fields[i]
  {
    FieldAt(fields, FieldSizes(fields), i);
  }

  lemma TextField(fields: seq<string>, i: nat, s: string)
    requires i < |fields| && NUL !in s && fields[i] == s + [NUL]
    ensures FieldRow(fields).StrCol(i) == s
  {
    var row := FieldRow(fields);
    var o := row.Offset(i);
    FieldOfRow(fields, i);
    assert row.data[o..o + |s|] == fields[i][..|s|] && row.data[o + |s|] == fields[i][|s|];
    CStringReads(row.data, o, s);
  }

  lemma LongField(fields: seq<string>, i: nat, n: int)
    requires i < |fields| && IsLong(n) && fields[i] == EncodeLong(n)
    ensures FieldRow(fields).LongCol(i) == n
  {
    FieldOfRow(fields, i);
    LongRoundTrip(n, FieldRow(fields).data, FieldRow(fields).Offset(i));
  }

  // ----- splitting a line -----

  /** Where the column that starts at `o` ends: at the next delimiter or the end of the line. */
  function ColumnEnd(line: string, o: nat): (e: nat)
    ensures o <= e && (o <= |line| ==> e <= |line|)
    decreases |line| - o
  {
    if o >= |line| || line[o] == DELIMITER then o else ColumnEnd(line, o + 1)
  }

  /** The number of columns from `o` on. */
  function CountFrom(line: string, o: nat): (n: nat)
    ensures n >= 1
    decreases |line| - o
  {
    var e := ColumnEnd(line, o);
    if e >= |line| then 1 else 1 + CountFrom(line, e + 1)
  }

  function ColumnCount(line: string): nat {
    CountFrom(line, 0)
  }

  /** Where column `i` starts: right behind the end of the one before. */
  function ColumnStart(line: string, i: nat): nat {
    if i == 0 then 0 else ColumnEnd(line, ColumnStart(line, i - 1)) + 1
  }

  function Column(line: string, i: nat): string {
    var o := ColumnStart(line, i);
    if o <= |line| then line[o..ColumnEnd(line, o)] else ""
  }

  /** The bytes of a line with every delimiter turned into a terminator. */
  function Cut(line: string): (m: string)
    ensures |m| == |line| + 1
  {
    seq(|line| + 1, k requires 0 <= k <= |line| =>
      if k == |line| || line[k] == DELIMITER then NUL else line[k])
  }

  /** The row a line becomes. */
  function LineRow(line: string): Row {
    Row(TPL_DELIMITED, Cut(line), seq(ColumnCount(line), i requires i >= 0 => ColumnStart(line, i)))
  }

  function LineRows(lines: seq<string>): (rows: seq<Row>)
    ensures |rows| == |lines|
  {
    seq(|lines|, i requires 0 <= i < |lines| => LineRow(lines[i]))
  }

  function RecordRows(recs: seq<string>, sizes: seq<nat>): (rows: seq<Row>)
    ensures |rows| == |recs|
  {
    seq(|recs|, k requires 0 <= k < |recs| => RecordRow(recs[k], sizes))
  }

  /** Columns `i` to `n` of the line, with a delimiter between them. */
  function Rejoin(line: string, i: nat, n: nat): string
    requires i < n
    decreases n - i
  {
    if i + 1 == n then Column(line, i) else Column(line, i) + [DELIMITER] + Rejoin(line, i + 1, n)
  }

  /** The columns are counted right: the last one ends with the line, the others before it. */
  lemma {:induction false} CountedFrom(line: string, i: nat)
    requires i < ColumnCount(line)
    ensures var o := ColumnStart(line, i);
            o <= |line| && i + CountFrom(line, o) == ColumnCount(line)
            && (ColumnEnd(line, o) == |line| <==> i + 1 == ColumnCount(line))
  {
    if i > 0 {
      CountedFrom(line, i - 1);
    }
  }

  lemma {:induction false} ColumnEndSpec(line: string, o: nat, k: nat)
    requires o <= |line|
    ensures var e := ColumnEnd(line, o);
            (e < |line| ==> line[e] == DELIMITER) && (o <= k < e ==> line[k] != DELIMITER)
    decreases |line| - o
  {
    if o < |line| && line[o] != DELIMITER {
      ColumnEndSpec(line, o + 1, k);
    }
  }

  lemma SliceAt(line: string, o: nat, e: nat)
    requires o <= e < |line|
    ensures line[o..] == line[o..e] + [line[e]] + line[e + 1..]
  {
  }

  /** A column holds no delimiter. */
  lemma ColumnClean(line: string, i: nat)
    requires i < ColumnCount(line)
    ensures DELIMITER !in Column(line, i)
  {
    CountedFrom(line, i);
    var o := ColumnStart(line, i);
    forall k | o <= k < ColumnEnd(line, o)
      ensures line[k] != DELIMITER
    {
      ColumnEndSpec(line, o, k);
    }
  }

  /** The line from column `i` on. */
  function From(line: string, i: nat): string {
    var o := ColumnStart(line, i);
    if o <= |line| then line[o..] else ""
  }

  lemma RejoinStep(line: string, i: nat)
    requires i < ColumnCount(line)
    ensures From(line, i) ==
            if i + 1 < ColumnCount(line) then Column(line, i) + [DELIMITER] + From(line, i + 1) else Column(line, i)
  {
    CountedFrom(line, i);
    var o := ColumnStart(line, i);
    var e := ColumnEnd(line, o);
    ColumnEndSpec(line, o, o);
    if e < |line| {
      SliceAt(line, o, e);
    }
  }

  /** Rejoining the columns restores the line. */
  lemma {:induction false} RejoinRestores(line: string, i: nat)
    requires i < ColumnCount(line)
    ensures Rejoin(line, i, ColumnCount(line)) == From(line, i)
    ensures From(line, 0) == line
    decreases ColumnCount(line) - i
  {
    RejoinStep(line, i);
    if i + 1 < ColumnCount(line) {
      RejoinRestores(line, i + 1);
    }
  }

  lemma {:induction false} CutReads(line: string, o: nat)
    requires o <= |line| && NUL !in line
    ensures CString(Cut(line), o) == line[o..ColumnEnd(line, o)]
    ensures Terminated(Cut(line), o)
    decreases |line| - o
  {
    var e := ColumnEnd(line, o);
    if e == o {
      assert Cut(line)[o] == NUL;
    } else {
      CutReads(line, o + 1);
      assert Cut(line)[o] == line[o];
      assert line[o..e] == [line[o]] + line[o + 1..e];
    }
  }

  /** Every column of the row of a line reads as the text between the delimiters; and the columns
      tile the line, each starting right behind the terminator of the one before. */
  lemma RowReadsColumns(line: string, i: nat)
    requires i < ColumnCount(line) && NUL !in line
    ensures LineRow(line).StrCol(i) == Column(line, i)
    ensures Terminated(Cut(line), ColumnStart(line, i))
    ensures var next := ColumnStart(line, i) + |Column(line, i)| + 1;
            if i + 1 < ColumnCount(line) then ColumnStart(line, i + 1) == next else next == |Cut(line)|
  {
    CountedFrom(line, i);
    CutReads(line, ColumnStart(line, i));
  }

  // ----- a line made of columns -----

  /** The columns with a delimiter between them. */
  function JoinColumns(cols: seq<string>): string
    requires cols != []
  {
    if |cols| == 1 then cols[0] else cols[0] + [DELIMITER] + JoinColumns(cols[1..])
  }

  lemma {:induction false} ColumnEndShifts(prefix: string, line: string, o: nat)
    requires o <= |line|
    ensures ColumnEnd(prefix + line, |prefix| + o) == |prefix| + ColumnEnd(line, o)
    decreases |line| - o
  {
    if o < |line| {
      assert (prefix + line)[|prefix| + o] == line[o];
      ColumnEndShifts(prefix, line, o + 1);
    }
  }

  lemma {:induction false} ColumnEndsAt(line: string, o: nat, e: nat)
    requires o <= e <= |line| && (e < |line| ==> line[e] == DELIMITER)
    requires forall k :: o <= k < e ==> line[k] != DELIMITER
    ensures ColumnEnd(line, o) == e
    decreases e - o
  {
    if o < e {
      ColumnEndsAt(line, o + 1, e);
    }
  }

  lemma {:induction false} CountShifts(prefix: string, line: string, o: nat)
    requires o <= |line|
    ensures CountFrom(prefix + line, |prefix| + o) == CountFrom(line, o)
    decreases |line| - o
  {
    ColumnEndShifts(prefix, line, o);
    if ColumnEnd(line, o) < |line| {
      CountShifts(prefix, line, ColumnEnd(line, o) + 1);
    }
  }

  /** Behind a first column the columns of the rest follow. */
  lemma {:induction false} StartShifts(first: string, line: string, i: nat)
    requires DELIMITER !in first && i < ColumnCount(line)
    ensures ColumnStart(first + [DELIMITER] + line, i + 1) == |first| + 1 + ColumnStart(line, i)
  {
    var prefix := first + [DELIMITER];
    if i == 0 {
      ColumnEndsAt(prefix + line, 0, |first|);
    } else {
      StartShifts(first, line, i - 1);
      CountedFrom(line, i - 1);
      ColumnEndShifts(prefix, line, ColumnStart(line, i - 1));
    }
  }

  lemma FirstOfLine(first: string, line: string)
    requires DELIMITER !in first
    ensures var all := first + [DELIMITER] + line;
            ColumnCount(all) == 1 + ColumnCount(line) && Column(all, 0) == first
  {
    var prefix := first + [DELIMITER];
    ColumnEndsAt(prefix + line, 0, |first|);
    CountShifts(prefix, line, 0);
  }

  lemma LaterOfLine(first: string, line: string, i: nat)
    requires DELIMITER !in first && i < ColumnCount(line)
    ensures Column(first + [DELIMITER] + line, i + 1) == Column(line, i)
  {
    var prefix, o := first + [DELIMITER], ColumnStart(line, i);
    hide ColumnEnd, CountFrom, ColumnStart;
    StartShifts(first, line, i);
    CountedFrom(line, i);
    ColumnEndShifts(prefix, line, o);
    ShiftedSlice(prefix, line, o, ColumnEnd(line, o));
  }

  lemma ShiftedSlice(prefix: string, line: string, a: nat, b: nat)
    requires a <= b <= |line|
    ensures (prefix + line)[|prefix| + a..|prefix| + b] == line[a..b]
  {
  }

  /** Splitting a line that was joined from columns gives the columns. */
  lemma {:induction false} SplitsJoined(cols: seq<string>, i: nat)
    requires i < |cols| && forall k :: 0 <= k < |cols| ==> DELIMITER !in cols[k]
    ensures ColumnCount(JoinColumns(cols)) == |cols| && Column(JoinColumns(cols), i) == cols[i]
    decreases |cols|
  {
    hide ColumnCount, Column;
    if |cols| == 1 {
      SingleColumn(cols[0]);
    } else {
      var rest := JoinColumns(cols[1..]);
      SplitsJoined(cols[1..], if i > 0 then i - 1 else 0);
      FirstOfLine(cols[0], rest);
      if i > 0 {
        LaterOfLine(cols[0], rest, i - 1);
      }
    }
  }

  lemma SingleColumn(line: string)
    requires DELIMITER !in line
    ensures ColumnCount(line) == 1 && Column(line, 0) == line
  {
    ColumnEndsAt(line, 0, |line|);
  }

  // ----- C's searches in a block -----

  /** Position of the first `c` in the C string at `o`, as `strchr` finds it. */
  function StrChr(m: string, o: nat, c: char): (r: Option<nat>)
    ensures r.Some? ==> o <= r.value < |m|
    decreases |m| - o
  {
    if o >= |m| || m[o] == NUL then None
    else if m[o] == c then Some(o)
    else StrChr(m, o + 1, c)
  }

  function Strlen(m: string, o: nat): nat
    decreases |m| - o
  {
    if o >= |m| || m[o] == NUL then 0 else 1 + Strlen(m, o + 1)
  }

  /** Over the part of a line that is not cut yet, they find the end of the next column. */
  lemma {:induction false} SearchesFind(m: string, line: string, o: nat)
    requires o <= |line| && |m| == |line| + 1 && NUL !in line && m[|line|] == NUL
    requires forall k :: o <= k < |line| ==> m[k] == line[k]
    ensures var e := ColumnEnd(line, o);
            StrChr(m, o, DELIMITER) == if e == |line| then None else Some(e)
    ensures Strlen(m, o) == |line| - o
    decreases |line| - o
  {
    if o < |line| {
      SearchesFind(m, line, o + 1);
    }
  }

  // ----- the tuple as the operators mutate it -----

  /** The casted columns after a number is read. */
  function AfterRead(slots: seq<nat>, i: nat): (r: seq<nat>)
    ensures slots <= r && i in r
  {
    if i in slots then slots else slots + [i]
  }

  /** A string is not changed by what lies behind a block that it does not leave, or that a NUL follows. */
  lemma {:induction false} CStringEnds(m: string, longer: string, o: nat)
    requires m <= longer && (Terminated(m, o) || (o <= |m| < |longer| && longer[|m|] == NUL))
    ensures CString(longer, o) == CString(m, o)
    decreases |m| - o
  {
    if o < |m| {
      assert longer[o] == m[o];
      if m[o] != NUL {
        CStringEnds(m, longer, o + 1);
      }
    }
  }

  lemma {:induction false} Pigeonhole(s: seq<nat>, n: nat)
    requires forall k :: 0 <= k < |s| ==> s[k] < n
    requires forall j, k :: 0 <= j < k < |s| ==> s[j] != s[k]
    ensures |s| <= n
    decreases n
  {
    if s != [] {
      if n - 1 in s {
        var k :| 0 <= k < |s| && s[k] == n - 1;
        Pigeonhole(s[..k] + s[k + 1..], n - 1);
      } else {
        assert s[0] < n;
        Pigeonhole(s, n - 1);
      }
    }
  }

  /** The first `n` columns of the line are recorded, and not cast. */
  ghost predicate Recorded(line: string, n: nat, offsets: seq<nat>, sizes: seq<nat>, casted: seq<bool>) {
    n <= |offsets| == |sizes| == |casted|
    && forall i :: 0 <= i < n ==>
         offsets[i] == ColumnStart(line, i) && sizes[i] == |Column(line, i)| + 1 && !casted[i]
  }

  lemma RecordedNone(line: string, offsets: seq<nat>, sizes: seq<nat>, casted: seq<bool>)
    requires |offsets| == |sizes| == |casted|
    ensures Recorded(line, 0, offsets, sizes, casted)
  {
  }

  lemma FirstColumn(line: string)
    ensures ColumnStart(line, 0) == 0 < ColumnCount(line)
  {
  }

  /** Where column `i` lies, and whether another one follows. */
  lemma NextColumn(line: string, i: nat)
    requires i < ColumnCount(line)
    ensures var o := ColumnStart(line, i);
            var e := ColumnEnd(line, o);
            && o <= e <= |line| && |Column(line, i)| == e - o && ColumnStart(line, i + 1) == e + 1
            && (e == |line| <==> i + 1 == ColumnCount(line))
  {
    CountedFrom(line, i);
  }

  class Tuple {
    var kind: TupleKind
    var data: array<char>
    var size: nat
    var longCount: nat
    var casted: seq<bool>
    var offsets: seq<nat>
    var sizes: seq<nat>
    var tdbOffsets: bool
    var longs: seq<int>
    /** What the columns read as. */
    ghost var row: Row
    /** The casted columns, in the order of their slots in `longs`. */
    ghost var slots: seq<nat>
    /** So many column numbers past the width read at the start of the block. */
    ghost var pad: nat

    ghost predicate Shape()
      reads this
    {
      |casted| == |offsets| == |sizes| == |longs| == MAXCOLS
    }

    /** A zeroed tuple with a block of its own (`initTupleOfSize`). */
    constructor (n: nat)
      ensures Shape() && Valid() && fresh(data) && data.Length == n && !tdbOffsets
      ensures (forall i :: 0 <= i < MAXCOLS ==> offsets[i] == 0) && forall k :: 0 <= k < n ==> data[k] == NUL
      ensures row == ZEROED && pad == 0
    {
      kind, size, longCount, tdbOffsets := TPL_TDB, n, 0, false;
      data := new char[n](_ => NUL);
      casted, longs := seq(MAXCOLS, _ => false), seq(MAXCOLS, _ => 0);
      offsets, sizes := seq(MAXCOLS, _ => 0), seq(MAXCOLS, _ => 0);
      row, slots, pad := ZEROED, [], 0;
    }

    /** The column numbers that can be read. */
    ghost function Extent(): nat
      reads this
    {
      |row.offsets| + pad
    }

    /** Column `i` is either casted, and its offset is its slot, or still has its text offset. */
    ghost predicate ColumnOk(i: nat)
      requires Shape() && i < Extent() <= MAXCOLS
      reads this
    {
      if casted[i] then offsets[i] < |slots| && slots[offsets[i]] == i
      else offsets[i] == row.Offset(i)
    }

    ghost predicate SlotOk(k: nat)
      requires Shape() && k < |slots| <= MAXCOLS
      reads this
    {
      && slots[k] < Extent() <= MAXCOLS
      && casted[slots[k]] && offsets[slots[k]] == k && longs[k] == row.LongCol(slots[k])
    }

    ghost predicate Valid()
      reads this, data
    {
      && Shape()
      && row.kind == kind && Extent() <= MAXCOLS
      && |row.data| <= data.Length && data[..|row.data|] == row.data
      && (kind == TPL_TDB ==>
            offsets[..|row.offsets|] == row.offsets && forall i :: |row.offsets| <= i < Extent() ==> offsets[i] == 0)
      && (kind == TPL_DELIMITED ==>
            && |slots| == longCount <= MAXCOLS
            && (forall k :: 0 <= k < |slots| ==> SlotOk(k))
            && (forall i :: 0 <= i < Extent() ==> ColumnOk(i) && Terminated(row.data, row.Offset(i))))
    }

    /** Fill the tuple from a line: read it into the block, then cut it at every delimiter. */
    method ScanLine(line: string)
      requires Shape() && |line| < LINEBUFF <= data.Length
      requires NUL !in line && ColumnCount(line) <= MAXCOLS
      modifies this, data
      ensures Valid() && data == old(data)
      ensures row == LineRow(line) && size == |line| + 1
      ensures Recorded(line, ColumnCount(line), offsets, sizes, casted) && slots == [] && pad == 0
      ensures Kept(old(offsets), ColumnCount(line)) && forall i :: 0 <= i < MAXCOLS ==> !casted[i]
      ensures data[|line| + 1..] == old(data[|line| + 1..]) && tdbOffsets == old(tdbOffsets)
    {
      kind := TPL_DELIMITED;
      longCount, casted := 0, seq(MAXCOLS, _ => false);
      ReadLine(line);
      SplitColumns(|line|, line);
      row, slots, pad := LineRow(line), [], 0;
      SplitIsValid(line);
    }

    /** From column number `n` on the offsets are as they were. */
    ghost predicate Kept(before: seq<nat>, n: nat)
      requires Shape() && |before| == MAXCOLS
      reads this
    {
      forall i :: n <= i < MAXCOLS ==> offsets[i] == before[i]
    }

    /** Once every column is cut and recorded, the tuple reads as the row of the line. */
    lemma SplitIsValid(line: string)
      requires Shape() && NUL !in line && Uncut(line, |line|) && kind == TPL_DELIMITED
      requires Recorded(line, ColumnCount(line), offsets, sizes, casted)
      requires row == LineRow(line) && slots == [] && longCount == 0 && pad == 0 && ColumnCount(line) <= MAXCOLS
      ensures Valid()
    {
      assert data[..|line| + 1] == Cut(line);
      forall i | 0 <= i < Extent()
        ensures ColumnOk(i) && Terminated(row.data, row.Offset(i))
      {
        RowReadsColumns(line, i);
      }
    }

    /** A line arrives at the start of the block, with its terminator. */
    method ReadLine(line: string)
      requires |line| < data.Length
      modifies data
      ensures Uncut(line, 0)
      ensures data[|line| + 1..] == old(data[|line| + 1..])
    {
      forall k | 0 <= k < |line| {
        data[k] := line[k];
      }
      data[|line|] := NUL;
    }

    /** The block holds the line, cut up to the cursor. */
    ghost predicate Uncut(line: string, cursor: nat)
      reads this, data
    {
      && |line| < data.Length && data[|line|] == NUL
      && (forall k :: 0 <= k < |line| && k < cursor ==> data[k] == Cut(line)[k])
      && (forall k :: cursor <= k < |line| ==> data[k] == line[k])
    }

    /** The loop over the columns of a line that lies at the start of the block. */
    method SplitColumns(n: nat, ghost line: string)
      requires Shape() && n == |line| && NUL !in line && ColumnCount(line) <= MAXCOLS && Uncut(line, 0)
      modifies this, data
      ensures Shape() && data == old(data) && kind == old(kind) && longCount == old(longCount)
      ensures Uncut(line, n) && size == n + 1 && data[n + 1..] == old(data[n + 1..])
      ensures Recorded(line, ColumnCount(line), offsets, sizes, casted) && tdbOffsets == old(tdbOffsets)
      ensures Kept(old(offsets), ColumnCount(line))
      ensures forall i :: 0 <= i < MAXCOLS && !old(casted[i]) ==> !casted[i]
    {
      hide Recorded, ColumnEnd, CountFrom, ColumnCount, ColumnStart, Column, Cut;
      FirstColumn(line);
      RecordedNone(line, offsets, sizes, casted);
      var cursor, i := 0, 0;
      var more := true;
      while more
        invariant Shape() && data == old(data) && kind == old(kind) && longCount == old(longCount)
        invariant data[n + 1..] == old(data[n + 1..]) && tdbOffsets == old(tdbOffsets)
        invariant i <= ColumnCount(line) && Kept(old(offsets), i)
        invariant forall j :: 0 <= j < MAXCOLS && !old(casted[j]) ==> !casted[j]
        invariant if more then i < ColumnCount(line) && cursor == ColumnStart(line, i) <= n && Uncut(line, cursor)
                  else i == ColumnCount(line) && cursor == n + 1 && Uncut(line, n)
        invariant Recorded(line, i, offsets, sizes, casted)
        decreases ColumnCount(line) - i
      {
        NextColumn(line, i);
        var strLen;
        more, strLen := CutColumn(n, line, cursor);
        Record(i, cursor, strLen, line);
        cursor := cursor + strLen;
        i := i + 1;
      }
      size := cursor;
    }

    method Record(i: nat, cursor: nat, strLen: nat, ghost line: string)
      requires Shape() && i < MAXCOLS && Recorded(line, i, offsets, sizes, casted)
      requires cursor == ColumnStart(line, i) && strLen == |Column(line, i)| + 1
      modifies this`sizes, this`offsets, this`casted
      ensures Shape() && Recorded(line, i + 1, offsets, sizes, casted)
      ensures Kept(old(offsets), i + 1) && forall j :: 0 <= j < MAXCOLS && !old(casted[j]) ==> !casted[j]
    {
      sizes := sizes[i := strLen];
      offsets := offsets[i := cursor];
      casted := casted[i := false];
    }

    /** Find the end of the column at the cursor; if a delimiter ends it, put a terminator there. */
    method CutColumn(n: nat, ghost line: string, cursor: nat) returns (more: bool, strLen: nat)
      requires n == |line| && cursor <= n && NUL !in line && Uncut(line, cursor)
      modifies data
      ensures var e := ColumnEnd(line, cursor);
              && more == (e < n) && strLen == e - cursor + 1
              && Uncut(line, if more then e + 1 else n)
      ensures data[n + 1..] == old(data[n + 1..])
    {
      SearchesFind(data[..n + 1], line, cursor);
      ColumnEndSpec(line, cursor, cursor);
      var dlmtr := StrChr(data[..n + 1], cursor, DELIMITER);
      more := dlmtr.Some?;
      forall k | cursor <= k < ColumnEnd(line, cursor)
        ensures line[k] != DELIMITER
      {
        ColumnEndSpec(line, cursor, k);
      }
      if more {
        data[dlmtr.value] := NUL;
        strLen := dlmtr.value - cursor + 1;
      } else {
        strLen := Strlen(data[..n + 1], cursor) + 1;
      }
    }

    /** The empty tuple at the end of a file: nothing is cast, and the size says that it is empty. */
    method MarkEmpty(kind: TupleKind)
      requires Shape()
      modifies this`kind, this`longCount, this`casted, this`size
      ensures Shape() && size == 0
    {
      this.kind := kind;
      if kind == TPL_DELIMITED {
        longCount, casted := 0, seq(MAXCOLS, _ => false);
      }
      size := 0;
    }

    /** The offsets of a record, computed for the first one only. */
    method RecordOffsets(colSizes: seq<nat>)
      requires Shape() && |colSizes| <= MAXCOLS && (tdbOffsets ==> offsets[..|colSizes|] == Offsets(colSizes))
      modifies this`offsets, this`casted, this`sizes, this`size, this`tdbOffsets
      ensures Shape() && tdbOffsets && offsets[..|colSizes|] == Offsets(colSizes) && Kept(old(offsets), |colSizes|)
    {
      if tdbOffsets {
        return;
      }
      var size, i := 0, 0;
      while i < |colSizes|
        invariant i <= |colSizes| && Shape() && size == OffsetOf(colSizes, i) && Kept(old(offsets), i)
        invariant forall k :: 0 <= k < i ==> offsets[k] == OffsetOf(colSizes, k)
      {
        offsets := offsets[i := size];
        casted := casted[i := true];
        sizes := sizes[i := colSizes[i]];
        size := size + colSizes[i];
        i := i + 1;
      }
      this.size := size;
      tdbOffsets := true;
    }

    /** Fill the tuple from a record. */
    method LoadRecord(rec: string, colSizes: seq<nat>)
      requires Shape() && |colSizes| <= MAXCOLS && |rec| <= data.Length
      requires tdbOffsets ==> offsets[..|colSizes|] == Offsets(colSizes)
      modifies this, data
      ensures Shape() && Valid() && data == old(data) && row == RecordRow(rec, colSizes)
      ensures tdbOffsets && offsets[..|colSizes|] == Offsets(colSizes) && pad == 0
      ensures Kept(old(offsets), |colSizes|) && data[|rec|..] == old(data[|rec|..])
    {
      kind := TPL_TDB;
      RecordOffsets(colSizes);
      forall k | 0 <= k < |rec| {
        data[k] := rec[k];
      }
      row, pad := RecordRow(rec, colSizes), 0;
    }

    /** One more column number past the width can be read, while its offset is still that of a
        zeroed tuple. */
    ghost method Pad()
      requires Valid() && Extent() < MAXCOLS && offsets[Extent()] == 0
      requires kind == TPL_DELIMITED ==> !casted[Extent()] && Terminated(row.data, 0)
      modifies this`pad
      ensures Valid() && pad == old(pad) + 1
    {
      assert forall i :: 0 <= i < Extent() && kind == TPL_DELIMITED ==> ColumnOk(i);
      pad := pad + 1;
      forall k | 0 <= k < |slots| && kind == TPL_DELIMITED
        ensures SlotOk(k)
      {
        assert old(SlotOk(k));
      }
      forall i | 0 <= i < Extent() && kind == TPL_DELIMITED
        ensures ColumnOk(i) && Terminated(row.data, row.Offset(i))
      {
        assert i < old(Extent()) ==> old(ColumnOk(i));
      }
    }

    /** The text at the column's offset. For a column that was cast this need not be its text. */
    method GetTupleColByIndex(index: nat) returns (s: string)
      requires Valid() && index < Extent()
      ensures kind == TPL_DELIMITED && offsets[index] == row.Offset(index) ==> s == row.StrCol(index)
      ensures kind == TPL_TDB && Ends(index) ==> s == row.StrCol(index)
      ensures s == CString(data[..], offsets[index])
    {
      s := CString(data[..], offsets[index]);
      if kind == TPL_DELIMITED && offsets[index] == row.Offset(index) {
        assert ColumnOk(index);
        CStringPrefix(row.data, data[..], offsets[index]);
      }
      if kind == TPL_TDB && Ends(index) {
        assert offsets[index] == row.Offset(index);
        CStringEnds(row.data, data[..], offsets[index]);
      }
    }

    /** The text of a stored column ends inside the record, or right behind it. */
    ghost predicate Ends(i: nat)
      reads this, data
    {
      Terminated(row.data, row.Offset(i)) || (row.Offset(i) <= |row.data| < data.Length && data[|row.data|] == NUL)
    }

    /** The number in a column. However the reads interleave, each gives the `atol` value of the
        column's own text, and no other column is disturbed. */
    method GetTupleLongColByIndex(index: nat) returns (n: int)
      requires Valid() && index < Extent()
      requires kind == TPL_TDB ==> row.Offset(index) + 8 <= |row.data|
      modifies this
      ensures Valid() && SameBut(old(row), old(kind), old(data), old(size), old(pad), old(tdbOffsets))
      ensures n == row.LongCol(index)
      ensures kind == TPL_DELIMITED ==> casted == old(casted)[index := true] && slots == AfterRead(old(slots), index)
      ensures kind == TPL_TDB ==> casted == old(casted) && offsets == old(offsets) && slots == old(slots)
      ensures forall i :: 0 <= i < MAXCOLS && i != index ==> offsets[i] == old(offsets[i])
    {
      if kind == TPL_TDB {
        assert offsets[index] == row.Offset(index);
        var o := offsets[index];
        assert row.data <= data[..];
        assert data[..][o..o + 8] == row.data[o..o + 8];
        n := DecodeLong(data[..], o);
        return;
      }
      assert ColumnOk(index);
      if !casted[index] {
        NotInSlots(index);
        CastColumnToLong(index);
      } else {
        assert index in slots;
      }
      assert ColumnOk(index) && SlotOk(offsets[index]);
      n := longs[offsets[index]];
    }

    /** All but the cache of numbers is as it was. */
    ghost predicate SameBut(row: Row, kind: TupleKind, data: array<char>, size: nat, pad: nat, tdbOffsets: bool)
      reads this
    {
      this.row == row && this.kind == kind && this.data == data && this.size == size && this.pad == pad
      && this.tdbOffsets == tdbOffsets
    }

    lemma NotInSlots(index: nat)
      requires Valid() && kind == TPL_DELIMITED && index < Extent() && !casted[index]
      ensures index !in slots
    {
      forall k | 0 <= k < |slots|
        ensures slots[k] != index
      {
        assert SlotOk(k);
      }
    }

    method CastColumnToLong(colIdx: nat)
      requires Valid() && kind == TPL_DELIMITED && colIdx < Extent() && !casted[colIdx]
      modifies this
      ensures Valid() && SameBut(old(row), old(kind), old(data), old(size), old(pad), old(tdbOffsets))
      ensures casted == old(casted)[colIdx := true] && slots == old(slots) + [colIdx]
      ensures forall i :: 0 <= i < MAXCOLS && i != colIdx ==> offsets[i] == old(offsets[i])
    {
      SlotsLeft(colIdx);
      assert ColumnOk(colIdx);
      var text := GetTupleColByIndex(colIdx);
      StoreLong(colIdx, Atol(text));
    }

    /** The number takes the next slot, and its slot takes the place of the column's offset. */
    method StoreLong(colIdx: nat, colNumber: int)
      requires Valid() && kind == TPL_DELIMITED && colIdx < Extent() && !casted[colIdx]
      requires colNumber == row.LongCol(colIdx) && longCount < MAXCOLS
      modifies this`offsets, this`longs, this`longCount, this`casted, this`slots
      ensures Valid() && casted == old(casted)[colIdx := true] && slots == old(slots) + [colIdx]
      ensures forall i :: 0 <= i < MAXCOLS && i != colIdx ==> offsets[i] == old(offsets[i])
    {
      offsets := offsets[colIdx := longCount];
      longs := longs[longCount := colNumber];
      longCount := longCount + 1;
      casted := casted[colIdx := true];
      slots := slots + [colIdx];
      forall k | 0 <= k < |slots|
        ensures SlotOk(k)
      {
        assert k < |old(slots)| ==> old(SlotOk(k));
      }
      forall i | 0 <= i < Extent()
        ensures ColumnOk(i) && Terminated(row.data, row.Offset(i))
      {
        assert old(ColumnOk(i));
      }
    }

    /** While some column is not cast, there is a free slot. */
    lemma SlotsLeft(colIdx: nat)
      requires Valid() && kind == TPL_DELIMITED && colIdx < Extent() && !casted[colIdx]
      ensures |slots| < Extent()
    {
      var all := slots + [colIdx];
      forall k | 0 <= k < |slots|
        ensures all[k] < Extent() && offsets[all[k]] == k && casted[all[k]]
      {
        assert SlotOk(k);
      }
      Pigeonhole(all, Extent());
    }
  }
}
