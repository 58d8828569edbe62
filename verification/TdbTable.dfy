/** A table from CREATE through INSERT to SELECT: what the scan gives back of the rows that were
    inserted. */
module TdbTable {
  import opened CText
  import opened Tuples
  import opened Filter
  import opened FilterPlanner
  import opened File
  import opened TdbHeader
  import opened TdbScan
  import opened TdbInsert
  import opened Source

  // ----- the schema check of INSERT -----

  function ActiveTypes(cols: seq<ColumnMetadata>): (d: seq<Datatype>)
    ensures |d| <= |cols|
  {
    if cols == [] then []
    else
      var n := |cols| - 1;
      ActiveTypes(cols[..n]) + if cols[n].active then [cols[n].dtype] else []
  }

  /** As many columns as the query selects, and the active ones, in the order of the source and
      not of the select list, have the types of the table's first columns. */
  predicate SchemaMatches(desc: ResultSet, t: Tdb) {
    |desc.columnOrder| == |t.columns| && ActiveTypes(desc.columns) <= Types(t)
  }

  lemma {:induction false} ActiveTypesPrefix(cols: seq<ColumnMetadata>, i: nat)
    requires i <= |cols|
    ensures ActiveTypes(cols[..i]) <= ActiveTypes(cols)
    decreases |cols|
  {
    if i < |cols| {
      ActiveTypesPrefix(cols[..|cols| - 1], i);
      assert cols[..|cols| - 1][..i] == cols[..i];
    } else {
      assert cols[..i] == cols;
    }
  }

  lemma Mismatch(cols: seq<ColumnMetadata>, t: Tdb, i: nat)
    requires i < |cols| && cols[i].active
    requires var colIdx := |ActiveTypes(cols[..i])|; colIdx >= |t.columns| || cols[i].dtype != t.columns[colIdx].dtype
    ensures !(ActiveTypes(cols) <= Types(t))
  {
    ActiveTypesPrefix(cols, i + 1);
    assert cols[..i + 1][..i] == cols[..i];
    var colIdx := |ActiveTypes(cols[..i])|;
    assert ActiveTypes(cols[..i + 1])[colIdx] == cols[i].dtype;
    assert ActiveTypes(cols)[colIdx] == cols[i].dtype;
  }

  method CheckSchema(desc: ResultSet, t: Tdb) returns (ok: bool)
    ensures ok == SchemaMatches(desc, t)
  {
    if |desc.columnOrder| != |t.columns| {
      return false;
    }
    var colIdx, i := 0, 0;
    while i < |desc.columns|
      invariant i <= |desc.columns| && colIdx == |ActiveTypes(desc.columns[..i])|
      invariant ActiveTypes(desc.columns[..i]) <= Types(t)
    {
      ActiveTypesPrefix(desc.columns, i + 1);
      assert desc.columns[..i + 1][..i] == desc.columns[..i];
      if desc.columns[i].active {
        if colIdx >= |t.columns| || desc.columns[i].dtype != t.columns[colIdx].dtype {
          Mismatch(desc.columns, t, i);
          return false;
        }
        colIdx := colIdx + 1;
      }
      i := i + 1;
    }
    assert desc.columns[..i] == desc.columns;
    ok := true;
  }

  ghost predicate AllActive(cols: seq<ColumnMetadata>) {
    forall i :: 0 <= i < |cols| ==> cols[i].active
  }

  /** The encoder writes every column, the table has the active ones: a written record has the
      size of a table record exactly when every column is active. */
  lemma {:induction false} WrittenSizeFitsIff(cols: seq<ColumnMetadata>)
    ensures RecordSize(ActiveTypes(cols)) <= RecordSize(TypesOf(cols))
    ensures RecordSize(TypesOf(cols)) == RecordSize(ActiveTypes(cols)) <==> AllActive(cols)
    ensures AllActive(cols) ==> ActiveTypes(cols) == TypesOf(cols)
  {
    if cols != [] {
      var n := |cols| - 1;
      WrittenSizeFitsIff(cols[..n]);
      SizeOfNext(TypesOf(cols[..n]), cols[n].dtype);
      SizeOfNext(ActiveTypes(cols[..n]), cols[n].dtype);
      assert TypesOf(cols) == TypesOf(cols[..n]) + [cols[n].dtype];
      assert AllActive(cols) <==> AllActive(cols[..n]) && cols[n].active;
      hide RecordSize, AllActive;
      if !cols[n].active {
        assert ActiveTypes(cols) == ActiveTypes(cols[..n]);
      }
    }
  }

  lemma {:induction false} OffsetOfPrefix(a: seq<nat>, b: seq<nat>, i: nat)
    requires i <= |a| && a <= b
    ensures OffsetOf(a, i) == OffsetOf(b, i)
  {
    if i > 0 {
      OffsetOfPrefix(a, b, i - 1);
    }
  }

  lemma SizeOfNext(types: seq<Datatype>, d: Datatype)
    ensures RecordSize(types + [d]) == RecordSize(types) + Width(d)
  {
    OffsetOfPrefix(Widths(types), Widths(types + [d]), |types|);
  }

  // ----- INSERT -----

  /** A line that a tuple can hold and that has at least `n` columns. */
  ghost predicate LineFits(line: string, n: nat) {
    |line| < LINEBUFF && NUL !in line && n <= ColumnCount(line) <= MAXCOLS
  }

  /** A freshly split line can be encoded. */
  lemma LineEncodable(tpl: Tuple, line: string, types: seq<Datatype>)
    requires tpl.Shape() && tpl.data.Length == TUPLESIZE && tpl.kind == TPL_DELIMITED
    requires LineFits(line, |types|) && tpl.row == LineRow(line)
    requires Recorded(line, ColumnCount(line), tpl.offsets, tpl.sizes, tpl.casted)
    ensures Encodable(tpl, types)
  {
    forall k | 0 <= k < |types|
      ensures EncodableColumn(tpl, types[k], k)
    {
      CountedFrom(line, k);
      RowReadsColumns(line, k);
    }
  }

  ghost predicate StoresRows(recs: seq<string>, types: seq<Datatype>, rows: seq<Row>) {
    |recs| == |rows| && forall k :: 0 <= k < |recs| ==> Stores(recs[k], types, rows[k])
  }

  /** One line as a record behind the others. */
  method InsertLine(types: seq<Datatype>, table: File, line: string, tpl: Tuple, insertBuffer: array<char>)
    returns (ok: bool, ghost rec: string)
    requires table.Valid() && tpl.Shape() && tpl.data.Length == TUPLESIZE && LineFits(line, |types|)
    requires insertBuffer != tpl.data && insertBuffer.Length == TDBRECORDMAXSIZE
             && RecordSize(types) <= TDBRECORDMAXSIZE
    modifies table, tpl, tpl.data, insertBuffer
    ensures table.Valid() && tpl.Shape() && tpl.data == old(tpl.data)
    ensures ok <==> forall k :: 0 <= k < |types| ==> Storable(types[k])
    ensures ok ==> table.bytes == old(table.bytes) + rec && Stores(rec, types, LineRow(line))
  {
    hide Stores, RecordSize, EncodableColumn, Storable;
    rec := "";
    tpl.ScanLine(line);
    LineEncodable(tpl, line, types);
    var tupleSize;
    ok, tupleSize := HandleTupleInsert(types, tpl, insertBuffer);
    if ok {
      rec := insertBuffer[..tupleSize];
      table.Write(insertBuffer[..tupleSize]);
    }
  }

  /** `executeInsert`, for a query that scans a delimited file. The table loses what it held: it
      is its header again and then one record for every line. */
  method ExecuteInsert(desc: ResultSet, table: File, child: Source<string>, tpl: Tuple)
    returns (ok: bool, ghost recs: seq<string>)
    requires table.Valid() && child.Valid() && child.pos == 0
    requires tpl.Shape() && tpl.data.Length == TUPLESIZE
    requires desc.columns != [] && RecordSize(TypesOf(desc.columns)) <= TDBRECORDMAXSIZE
    requires forall k :: 0 <= k < |child.rows| ==> LineFits(child.rows[k], |desc.columns|)
    modifies table, child, tpl, tpl.data
    ensures var h, types := ReadHeader(old(table.bytes)), TypesOf(desc.columns);
            && (ok <==> h.Some? && SchemaMatches(desc, h.value.tdb)
                        && (child.rows == [] || forall k :: 0 <= k < |types| ==> Storable(types[k])))
            && (ok ==> table.bytes == HeaderBytes(h.value.tdb) + Concat(recs))
            && (ok ==> StoresRows(recs, types, LineRows(child.rows)))
            && (h.None? || !SchemaMatches(desc, h.value.tdb) ==> table.bytes == old(table.bytes))
  {
    hide LineFits, Stores, RecordSize, HeaderBytes, ReadHeader, FitsTdb, LineRow, SchemaMatches, Concat;
    recs := [];
    var f := new File(table.bytes);
    assert f.Rest() == table.bytes;
    var h := ReadTdbMetadataFromFD(f);
    if h == None {
      return false, [];
    }
    ReadHeaderFits(table.bytes);
    var t := h.value.tdb;
    ok := CheckSchema(desc, t);
    if !ok {
      return;
    }
    var types := TypesOf(desc.columns);
    var insertBuffer := new char[TDBRECORDMAXSIZE];
    table.Truncate();
    var written := WriteTdbMetadataToFD(table, t);
    NoRecords(HeaderBytes(t));
    var more := true;
    while more
      invariant table.Valid() && child.Valid() && tpl.Shape() && tpl.data == old(tpl.data) && fresh(insertBuffer)
      invariant |recs| == child.pos && (more || child.pos == |child.rows|)
      invariant table.bytes == HeaderBytes(t) + Concat(recs)
      invariant forall k :: 0 <= k < |recs| ==> Stores(recs[k], types, LineRow(child.rows[k]))
      invariant |recs| > 0 ==> forall k :: 0 <= k < |types| ==> Storable(types[k])
      decreases more, |child.rows| - child.pos
    {
      ghost var n := child.pos;
      var line := child.GetTuple();
      if line == None {
        more := false;
      } else {
        ghost var rec;
        ok, rec := InsertLine(types, table, line.value, tpl, insertBuffer);
        if !ok {
          return;
        }
        ConcatNext(recs, rec);
        recs := recs + [rec];
      }
    }
    ok := true;
  }

  lemma NoRecords(header: string)
    ensures header + Concat([]) == header
  {
  }

  // ----- SELECT -----

  /** The lengths of the table are ones the scan can go by: none is negative, and a record fits
      into a tuple. */
  predicate Scannable(t: Tdb) {
    (forall i :: 0 <= i < |t.columns| ==> t.columns[i].length >= 0)
    && 0 < OffsetOf(Lengths(t), |t.columns|) <= TUPLESIZE
  }

  /** What a scan of the file gives, row by row. */
  function TableRows(bytes: string): Option<seq<Row>> {
    match ReadHeader(bytes)
    case None => None
    case Some(h) =>
      if Scannable(h.tdb) then
        Some(RecordRows(ScanRun(bytes, h.metadataSize, OffsetOf(Lengths(h.tdb), |h.tdb.columns|)), Lengths(h.tdb)))
      else None
  }

  /** The sizes of the columns, and of a record. */
  method MeasureRecord(t: Tdb) returns (ok: bool, sizes: seq<nat>, recordSize: nat)
    ensures ok <==> Scannable(t)
    ensures ok ==> sizes == Lengths(t) && recordSize == OffsetOf(Lengths(t), |t.columns|)
  {
    sizes, recordSize := [], 0;
    var i := 0;
    while i < |t.columns|
      invariant i <= |t.columns| && sizes == Lengths(t)[..i] && recordSize == OffsetOf(Lengths(t), i)
      invariant forall k :: 0 <= k < i ==> t.columns[k].length >= 0
    {
      if t.columns[i].length < 0 {
        return false, [], 0;
      }
      sizes := sizes + [t.columns[i].length];
      recordSize := recordSize + t.columns[i].length;
      i := i + 1;
    }
    ok := 0 < recordSize <= TUPLESIZE;
  }

  /** `makeScanTDBOp`: the size of a record, and where the first one starts. */
  method MakeScanTDBOp(bytes: string) returns (r: Option<TdbScan>, sizes: seq<nat>)
    ensures r.Some? <==> TableRows(bytes).Some?
    ensures r.Some? ==>
              && fresh(r.value) && fresh(r.value.buffer) && r.value.Valid() && r.value.recordSize <= TUPLESIZE
              && |sizes| <= MAXCOLS && TableRows(bytes) == Some(RecordRows(r.value.Remaining(), sizes))
  {
    hide *;
    r, sizes := None, [];
    var f := new File(bytes);
    WholeFile(f, bytes);
    var h := ReadTdbMetadataFromFD(f);
    ScansHeader(bytes);
    if h == None {
      return;
    }
    var ok, recordSize;
    ok, sizes, recordSize := MeasureRecord(h.value.tdb);
    if !ok {
      return;
    }
    var scan := new TdbScan(bytes, h.value.metadataSize, recordSize);
    r := Some(scan);
  }

  lemma WholeFile(f: File, bytes: string)
    requires f.Valid() && f.bytes == bytes && f.pos == 0
    ensures f.Rest() == bytes
  {
  }

  /** Where the header puts the scan. */
  lemma ScansHeader(bytes: string)
    ensures var h := ReadHeader(bytes);
            && (TableRows(bytes).Some? <==> h.Some? && Scannable(h.value.tdb))
            && (TableRows(bytes).Some? ==>
                  var t, start := h.value.tdb, h.value.metadataSize;
                  var size := OffsetOf(Lengths(t), |t.columns|);
                  && 0 < size <= TUPLESIZE && |Lengths(t)| <= MAXCOLS
                  && TableRows(bytes) == Some(RecordRows(Served(Records(bytes[start..], size)), Lengths(t))))
  {
    hide ReadHeader, RecordRows, Served, Lengths, OffsetOf, Records;
    if ReadHeader(bytes).Some? {
      ReadHeaderFits(bytes);
    }
  }

  lemma FirstRow(out: seq<Row>, rec: string, recs: seq<string>, sizes: seq<nat>)
    ensures out + RecordRows([rec] + recs, sizes) == out + [RecordRow(rec, sizes)] + RecordRows(recs, sizes)
  {
    assert RecordRows([rec] + recs, sizes) == [RecordRow(rec, sizes)] + RecordRows(recs, sizes);
  }

  lemma NoRows(out: seq<Row>, sizes: seq<nat>)
    ensures out + RecordRows([], sizes) == out
  {
  }

  /** A loaded tuple reads as the row of its record. */
  lemma AsRead(tpl: Tuple, rec: string, sizes: seq<nat>)
    requires tpl.Valid() && tpl.row == RecordRow(rec, sizes)
    ensures |rec| <= tpl.data.Length && |sizes| <= |tpl.offsets|
    ensures Row(tpl.kind, tpl.data[..|rec|], tpl.offsets[..|sizes|]) == RecordRow(rec, sizes)
  {
  }

  /** Drain the scan of a table, through one tuple that is filled over and over. */
  method SelectAll(table: File, tpl: Tuple) returns (r: Option<seq<Row>>)
    requires tpl.Shape() && tpl.data.Length == TUPLESIZE && !tpl.tdbOffsets
    modifies tpl, tpl.data
    ensures r == TableRows(table.bytes)
  {
    hide TableRows, RecordRow, RecordRows, Offsets, TdbScan.Remaining, TdbScan.Valid, Tuple.Valid;
    var scan, sizes := MakeScanTDBOp(table.bytes);
    if scan == None {
      return None;
    }
    var op := scan.value;
    var out: seq<Row> := [];
    assert [] + RecordRows(op.Remaining(), sizes) == RecordRows(op.Remaining(), sizes);
    var more := true;
    while more
      invariant op.Valid() && tpl.Shape() && tpl.data == old(tpl.data)
      invariant tpl.tdbOffsets ==> tpl.offsets[..|sizes|] == Offsets(sizes)
      invariant TableRows(table.bytes) == Some(out + RecordRows(if more then op.Remaining() else [], sizes))
      decreases more, if more then |op.Remaining()| else 0
    {
      ghost var todo := op.Remaining();
      var rec := op.GetTuple();
      match rec {
        case None =>
          more := false;
        case Some(bytes) =>
          assert todo == [bytes] + todo[1..];
          FirstRow(out, bytes, todo[1..], sizes);
          tpl.LoadRecord(bytes, sizes);
          AsRead(tpl, bytes, sizes);
          out := out + [Row(tpl.kind, tpl.data[..|bytes|], tpl.offsets[..|sizes|])];
      }
    }
    NoRows(out, sizes);
    return Some(out);
  }

  // ----- from INSERT to SELECT -----

  /** The position in the file of the record that is served as number `k` of `n`. */
  function ServedIndex(k: nat, n: nat): (m: nat)
    requires k < n
    ensures m < n
  {
    var start := k - k % TDBSCANBUFFRECORDS;
    (if start + TDBSCANBUFFRECORDS <= n then start + TDBSCANBUFFRECORDS else n) - 1 - (k - start)
  }

  /** In numbers: 10000 at a time, each time from the last one. */
  lemma ServedIndexInNumbers(k: nat, n: nat)
    requires k < n
    ensures n < 10000 ==> ServedIndex(k, n) == n - 1 - k
    ensures n >= 10000 && k < 10000 ==> ServedIndex(k, n) == 9999 - k
    ensures ServedIndex(k, n) / 10000 == k / 10000
  {
  }

  /** No two records are served from the same position. */
  lemma ServedOnce(j: nat, k: nat, n: nat)
    requires j < n && k < n && ServedIndex(j, n) == ServedIndex(k, n)
    ensures j == k
  {
  }

  /** Every number of the row, and every string of fewer than 50 characters. */
  ghost predicate SameColumns(got: Row, row: Row, types: seq<Datatype>) {
    forall i :: 0 <= i < |types| ==>
      && (types[i] == DTYPE_LONG ==> got.LongCol(i) == row.LongCol(i))
      && (types[i] == DTYPE_STR && |row.StrCol(i)| < TDBMAXSTRINGSIZE ==> got.StrCol(i) == row.StrCol(i))
  }

  lemma ServedRecord(recs: seq<string>, k: nat)
    requires k < |recs|
    ensures |Served(recs)| == |recs| && Served(recs)[k] == recs[ServedIndex(k, |recs|)]
  {
    ServedAt(recs, k / TDBSCANBUFFRECORDS, k % TDBSCANBUFFRECORDS);
  }

  /** What a table holds after records of its layout were written behind its header: a scan gives
      one row for each, in the order it serves them, with the columns that were inserted. */
  lemma TableRoundTrip(t: Tdb, recs: seq<string>, rows: seq<Row>)
    requires FitsTdb(t) && Scannable(t) && Lengths(t) == Widths(Types(t))
    requires StoresRows(recs, Types(t), rows)
    ensures var out := TableRows(HeaderBytes(t) + Concat(recs));
            && out.Some? && |out.value| == |rows|
            && forall k :: 0 <= k < |rows| ==> SameColumns(out.value[k], rows[ServedIndex(k, |rows|)], Types(t))
  {
    var types := Types(t);
    var size := RecordSize(types);
    forall k | 0 <= k < |recs|
      ensures |recs[k]| == size
    {
      StoresSize(recs[k], types, rows[k]);
    }
    HeaderRoundTrip(t, Concat(recs));
    ScanServesRecords(HeaderBytes(t), recs, size);
    ServedPermutes(recs);
    hide ReadHeader, HeaderBytes, Concat, ScanRun, Served, Stores, RecordSize, ServedIndex, SameColumns,
         Lengths, Widths, Types;
    assert TableRows(HeaderBytes(t) + Concat(recs)) == Some(RecordRows(Served(recs), Widths(types)));
    forall k | 0 <= k < |rows|
      ensures SameColumns(RecordRow(Served(recs)[k], Widths(types)), rows[ServedIndex(k, |rows|)], types)
    {
      ServedRecord(recs, k);
      StoredColumns(recs[ServedIndex(k, |recs|)], types, rows[ServedIndex(k, |rows|)]);
    }
  }

  lemma StoredColumns(rec: string, types: seq<Datatype>, row: Row)
    requires Stores(rec, types, row)
    ensures SameColumns(RecordRow(rec, Widths(types)), row, types)
  {
    forall i | 0 <= i < |types|
      ensures var got := RecordRow(rec, Widths(types));
              && (types[i] == DTYPE_LONG ==> got.LongCol(i) == row.LongCol(i))
              && (types[i] == DTYPE_STR && |row.StrCol(i)| < TDBMAXSTRINGSIZE ==> got.StrCol(i) == row.StrCol(i))
    {
      RecordRoundTrip(rec, types, row, i);
    }
  }

  /** The columns of a line as a query reads them. */
  ghost predicate ColumnsOfLine(got: Row, line: string, types: seq<Datatype>) {
    forall i :: 0 <= i < |types| ==>
      && (types[i] == DTYPE_LONG ==> got.LongCol(i) == Atol(Column(line, i)))
      && (types[i] == DTYPE_STR && |Column(line, i)| < TDBMAXSTRINGSIZE ==> got.StrCol(i) == Column(line, i))
  }

  lemma SameAsLine(got: Row, line: string, types: seq<Datatype>)
    requires LineFits(line, |types|) && SameColumns(got, LineRow(line), types)
    ensures ColumnsOfLine(got, line, types)
  {
    forall i | 0 <= i < |types|
      ensures LineRow(line).StrCol(i) == Column(line, i)
    {
      RowReadsColumns(line, i);
    }
  }

  /** A table of numbers and CHAR(50) columns, small enough for a tuple. */
  ghost predicate Created(columns: seq<Declared>) {
    && 0 < |columns| <= ARRAYMAXSIZE
    && (forall i :: 0 <= i < |columns| ==>
          && NUL !in columns[i].name && |columns[i].name| < CHARMAXSIZE
          && Storable(columns[i].dtype) && (columns[i].dtype == DTYPE_STR ==> columns[i].size == TDBMAXSTRINGSIZE))
    && RecordSize(Types(ConstructTDB(columns))) <= TUPLESIZE
  }

  lemma CreatedScans(columns: seq<Declared>)
    requires Created(columns)
    ensures var t := ConstructTDB(columns);
            && FitsTdb(t) && Scannable(t) && Lengths(t) == Widths(Types(t))
            && forall i :: 0 <= i < |Types(t)| ==> Storable(Types(t)[i])
  {
    var t := ConstructTDB(columns);
    LayoutAgreesIff(columns);
    SameLayoutSameWidths(Lengths(t), Widths(Types(t)));
    OffsetGrows(Widths(Types(t)), 1, |columns|);
  }

  lemma WrittenAlone(t: Tdb)
    requires FitsTdb(t)
    ensures "" + HeaderBytes(t) == HeaderBytes(t) && ReadHeader(HeaderBytes(t)) == Some(HeaderRead(t, |HeaderBytes(t)|))
  {
    HeaderRoundTrip(t, "");
    assert HeaderBytes(t) + "" == HeaderBytes(t);
  }

  /** A query that selects all the columns there are passes the check with just the table's types. */
  lemma MatchesWhenAllActive(desc: ResultSet, t: Tdb)
    requires AllActive(desc.columns) && |desc.columnOrder| == |desc.columns|
    ensures SchemaMatches(desc, t) <==> TypesOf(desc.columns) == Types(t)
  {
    WrittenSizeFitsIff(desc.columns);
  }

  /** The rows that come back, as columns of lines. */
  lemma ReadAsLines(rows: seq<Row>, lines: seq<string>, types: seq<Datatype>)
    requires |rows| == |lines| && forall k :: 0 <= k < |lines| ==> LineFits(lines[k], |types|)
    requires forall k :: 0 <= k < |lines| ==> SameColumns(rows[k], LineRows(lines)[ServedIndex(k, |lines|)], types)
    ensures forall k :: 0 <= k < |lines| ==> ColumnsOfLine(rows[k], lines[ServedIndex(k, |lines|)], types)
  {
    hide SameColumns, ColumnsOfLine, ServedIndex, LineFits, LineRow;
    forall k | 0 <= k < |lines|
      ensures ColumnsOfLine(rows[k], lines[ServedIndex(k, |lines|)], types)
    {
      SameAsLine(rows[k], lines[ServedIndex(k, |lines|)], types);
    }
  }

  /** CREATE TABLE, INSERT of all columns of a delimited file, SELECT of all: each row that comes
      back has the columns of one line, and each line's columns come back once. */
  method CreateInsertSelect(columns: seq<Declared>, desc: ResultSet, lines: seq<string>)
    returns (ok: bool, rows: seq<Row>)
    requires Created(columns)
    requires desc.columns != [] && AllActive(desc.columns) && |desc.columnOrder| == |desc.columns|
    requires RecordSize(TypesOf(desc.columns)) <= TDBRECORDMAXSIZE
    requires forall k :: 0 <= k < |lines| ==> LineFits(lines[k], |desc.columns|)
    ensures ok <==> TypesOf(desc.columns) == Types(ConstructTDB(columns))
    ensures ok ==> |rows| == |lines|
                   && forall k :: 0 <= k < |lines| ==>
                         ColumnsOfLine(rows[k], lines[ServedIndex(k, |lines|)], TypesOf(desc.columns))
  {
    hide *;
    rows := [];
    var t := ConstructTDB(columns);
    CreatedScans(columns);
    var table := new File("");
    var written := WriteTdbMetadataToFD(table, t);
    WrittenAlone(t);
    var child := new Source(lines);
    var tpl := new Tuple(TUPLESIZE);
    ghost var recs;
    ok, recs := ExecuteInsert(desc, table, child, tpl);
    MatchesWhenAllActive(desc, t);
    if !ok {
      return;
    }
    TableRoundTrip(t, recs, LineRows(lines));
    var reader := new Tuple(TUPLESIZE);
    var r := SelectAll(table, reader);
    rows := r.value;
    ReadAsLines(rows, lines, TypesOf(desc.columns));
  }
}
