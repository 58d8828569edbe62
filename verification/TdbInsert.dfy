/** CREATE TABLE and INSERT: the layout of a record, the encoder, and the file that is left. */
module TdbInsert {
  import opened CText
  import opened Tuples
  import opened Filter
  import opened TdbHeader

  const TDBRECORDMAXSIZE: nat := 1024
  const TDBMAXSTRINGSIZE: nat := 50

  predicate Storable(d: Datatype) { d == DTYPE_STR || d == DTYPE_LONG }

  /** The bytes the encoder spends on a column. */
  function Width(d: Datatype): (n: nat)
    ensures n > 0
  {
    if d == DTYPE_STR then TDBMAXSTRINGSIZE else 8
  }

  function Widths(types: seq<Datatype>): (w: seq<nat>)
    ensures |w| == |types|
  {
    seq(|types|, i requires 0 <= i < |types| => Width(types[i]))
  }

  function RecordSize(types: seq<Datatype>): nat {
    OffsetOf(Widths(types), |types|)
  }

  // ----- CREATE TABLE -----

  /** A column as CREATE TABLE declares it. */
  datatype Declared = Declared(name: string, dtype: Datatype, size: nat)

  function ConstructColumn(c: Declared): TdbColumn {
    TdbColumn(c.name, c.dtype, if c.dtype == DTYPE_STR then SignedByte(ByteOf(c.size)) else 8)
  }

  function ConstructTDB(columns: seq<Declared>): Tdb {
    Tdb(0, seq(|columns|, i requires 0 <= i < |columns| => ConstructColumn(columns[i])))
  }

  /** A created table is empty and has the declared columns; a length of 128 or more is lost in its byte. */
  lemma CreatedColumns(columns: seq<Declared>)
    ensures var t := ConstructTDB(columns);
            && t.records == 0 && |t.columns| == |columns|
            && forall i :: 0 <= i < |columns| ==>
                 && t.columns[i].name == columns[i].name && t.columns[i].dtype == columns[i].dtype
                 && (columns[i].dtype == DTYPE_LONG ==> t.columns[i].length == 8)
                 && (columns[i].dtype == DTYPE_STR ==>
                       (t.columns[i].length == columns[i].size <==> columns[i].size < 128))
  {
  }

  /** The lengths the scan goes by, where none is negative. */
  function Lengths(t: Tdb): (w: seq<nat>)
    ensures |w| == |t.columns|
  {
    seq(|t.columns|, i requires 0 <= i < |t.columns| => if t.columns[i].length >= 0 then t.columns[i].length else 0)
  }

  function Types(t: Tdb): (d: seq<Datatype>)
    ensures |d| == |t.columns|
  {
    seq(|t.columns|, i requires 0 <= i < |t.columns| => t.columns[i].dtype)
  }

  /** Every column, and the end of the record, at the same place. */
  ghost predicate SameLayout(a: seq<nat>, b: seq<nat>) {
    |a| == |b| && forall i :: 0 <= i <= |a| ==> OffsetOf(a, i) == OffsetOf(b, i)
  }

  lemma SameLayoutSameWidths(a: seq<nat>, b: seq<nat>)
    ensures SameLayout(a, b) <==> a == b
  {
    if SameLayout(a, b) {
      forall k | 0 <= k < |a|
        ensures a[k] == b[k]
      {
        assert OffsetOf(a, k + 1) == OffsetOf(b, k + 1);
        assert OffsetOf(a, k) == OffsetOf(b, k);
      }
      assert a == b;
    }
  }

  /** The scan of a created table finds every column, and the next record, where the encoder puts
      them, exactly when every string column was declared with the encoder's 50 bytes. */
  lemma LayoutAgreesIff(columns: seq<Declared>)
    requires forall i :: 0 <= i < |columns| ==> Storable(columns[i].dtype)
    ensures var t := ConstructTDB(columns);
            SameLayout(Lengths(t), Widths(Types(t)))
            <==> forall i :: 0 <= i < |columns| && columns[i].dtype == DTYPE_STR ==>
                  columns[i].size % 256 == TDBMAXSTRINGSIZE
  {
    var t := ConstructTDB(columns);
    SameLayoutSameWidths(Lengths(t), Widths(Types(t)));
    hide SameLayout;
    if Lengths(t) == Widths(Types(t)) {
      forall i | 0 <= i < |columns| && columns[i].dtype == DTYPE_STR
        ensures columns[i].size % 256 == TDBMAXSTRINGSIZE
      {
        assert Lengths(t)[i] == Widths(Types(t))[i];
      }
    }
  }

  // ----- the encoder -----

  /** The column's bytes in a record: a number is encoded; of a string the 50 bytes from its
      start are copied, so that one of fewer than 50 characters keeps its terminator. */
  ghost predicate StoresColumn(field: string, d: Datatype, row: Row, k: nat) {
    && |field| == Width(d) && Storable(d)
    && (d == DTYPE_LONG ==> field == EncodeLong(row.LongCol(k)))
    && (d == DTYPE_STR ==>
          var s := row.StrCol(k);
          if |s| < TDBMAXSTRINGSIZE then field[..|s|] == s && field[|s|] == NUL else field == s[..TDBMAXSTRINGSIZE])
  }

  ghost predicate StoresFields(fields: seq<string>, types: seq<Datatype>, row: Row) {
    |fields| <= |types| && forall k :: 0 <= k < |fields| ==> StoresColumn(fields[k], types[k], row, k)
  }

  /** The record holds the row, column behind column. */
  ghost predicate Stores(rec: string, types: seq<Datatype>, row: Row) {
    exists fields: seq<string> :: |fields| == |types| && rec == Concat(fields) && StoresFields(fields, types, row)
  }

  lemma StoresSize(rec: string, types: seq<Datatype>, row: Row)
    requires Stores(rec, types, row)
    ensures |rec| == RecordSize(types)
  {
    var fields :| |fields| == |types| && rec == Concat(fields) && StoresFields(fields, types, row);
    TotalWidth(fields, Widths(types));
  }

  /** A record read at the scan's offsets gives back every number, and every string of fewer than
      50 characters, whatever bytes were copied behind its terminator. */
  lemma RecordRoundTrip(rec: string, types: seq<Datatype>, row: Row, k: nat)
    requires Stores(rec, types, row) && k < |types|
    ensures var got := RecordRow(rec, Widths(types));
            && (types[k] == DTYPE_LONG ==> got.LongCol(k) == row.LongCol(k))
            && (types[k] == DTYPE_STR && |row.StrCol(k)| < TDBMAXSTRINGSIZE ==> got.StrCol(k) == row.StrCol(k))
  {
    var fields :| |fields| == |types| && rec == Concat(fields) && StoresFields(fields, types, row);
    var w := Widths(types);
    FieldAt(fields, w, k);
    assert StoresColumn(fields[k], types[k], row, k);
    hide Concat, StoresFields, OffsetOf;
    FieldReads(rec, OffsetOf(w, k), fields[k], types[k], row, k);
  }

  /** One field of a record, read where it lies. */
  lemma FieldReads(rec: string, o: nat, field: string, d: Datatype, row: Row, k: nat)
    requires StoresColumn(field, d, row, k) && o + |field| <= |rec| && rec[o..o + |field|] == field
    ensures d == DTYPE_LONG ==> DecodeLong(rec, o) == row.LongCol(k)
    ensures d == DTYPE_STR && |row.StrCol(k)| < TDBMAXSTRINGSIZE ==> CString(rec, o) == row.StrCol(k)
  {
    var s := row.StrCol(k);
    if d == DTYPE_LONG {
      LongRoundTrip(row.LongCol(k), rec, o);
    } else if |s| < TDBMAXSTRINGSIZE {
      assert rec[o..o + |s|] == field[..|s|];
      assert rec[o + |s|] == field[|s|];
      CStringReads(rec, o, s);
    }
  }

  /** The tuple has all that the encoder reads: the strings end inside it and were not cast, and
      the 50 bytes it copies lie inside the block. */
  ghost predicate Encodable(tpl: Tuple, types: seq<Datatype>)
    requires tpl.Shape()
    reads tpl
  {
    && |types| <= |tpl.row.offsets| <= MAXCOLS
    && forall k :: 0 <= k < |types| ==> EncodableColumn(tpl, types[k], k)
  }

  ghost predicate EncodableColumn(tpl: Tuple, d: Datatype, k: nat)
    requires tpl.Shape() && k < |tpl.row.offsets| <= MAXCOLS
    reads tpl
  {
    && (d == DTYPE_STR ==>
          && tpl.row.offsets[k] + TDBMAXSTRINGSIZE <= tpl.data.Length
          && Terminated(tpl.row.data, tpl.row.offsets[k])
          && (tpl.kind == TPL_DELIMITED ==> !tpl.casted[k]))
    && (d == DTYPE_LONG && tpl.kind == TPL_TDB ==> tpl.row.offsets[k] + 8 <= |tpl.row.data|)
  }

  lemma StringField(m: string, block: string, o: nat, field: string)
    requires m <= block && Terminated(m, o) && o + TDBMAXSTRINGSIZE <= |block|
    requires field == block[o..o + TDBMAXSTRINGSIZE]
    ensures var s := CString(m, o);
            if |s| < TDBMAXSTRINGSIZE then field[..|s|] == s && field[|s|] == NUL else field == s[..TDBMAXSTRINGSIZE]
  {
    CStringSlice(m, o);
    var s := CString(m, o);
    assert block[o..o + |s|] == m[o..o + |s|];
    if |s| < TDBMAXSTRINGSIZE {
      assert field[..|s|] == block[o..o + |s|];
    } else {
      assert field == block[o..o + |s|][..TDBMAXSTRINGSIZE];
    }
  }

  /** The bytes of one column. */
  method EncodeColumn(tpl: Tuple, d: Datatype, i: nat) returns (field: string)
    requires tpl.Valid() && i < |tpl.row.offsets| && EncodableColumn(tpl, d, i) && Storable(d)
    modifies tpl
    ensures tpl.Valid() && tpl.row == old(tpl.row) && tpl.kind == old(tpl.kind) && tpl.data == old(tpl.data)
    ensures forall k, e :: 0 <= k < |tpl.row.offsets| && k != i && old(EncodableColumn(tpl, e, k)) ==>
            EncodableColumn(tpl, e, k)
    ensures StoresColumn(field, d, tpl.row, i)
  {
    if d == DTYPE_LONG {
      var num := tpl.GetTupleLongColByIndex(i);
      field := EncodeLong(num);
    } else {
      var o := tpl.offsets[i];
      assert o == tpl.row.offsets[i] by {
        if tpl.kind == TPL_DELIMITED {
          assert tpl.ColumnOk(i);
        } else {
          assert tpl.offsets[..|tpl.row.offsets|][i] == tpl.row.offsets[i];
        }
      }
      field := tpl.data[o..o + TDBMAXSTRINGSIZE];
      assert tpl.row.data <= tpl.data[..];
      StringField(tpl.row.data, tpl.data[..], o, field);
    }
  }

  /** One field behind the others in the buffer. */
  method AppendField(insertBuffer: array<char>, tupleSize: nat, field: string)
    requires tupleSize + |field| <= insertBuffer.Length
    modifies insertBuffer
    ensures insertBuffer[..tupleSize + |field|] == old(insertBuffer[..tupleSize]) + field
  {
    forall j | 0 <= j < |field| {
      insertBuffer[tupleSize + j] := field[j];
    }
  }

  /** `handleTupleInsert`, up to the write: the row as a record at the start of the buffer.
      `false` is the failed assertion on a column that is neither a string nor a number. */
  method HandleTupleInsert(types: seq<Datatype>, tpl: Tuple, insertBuffer: array<char>)
    returns (ok: bool, tupleSize: nat)
    requires tpl.Valid() && Encodable(tpl, types) && insertBuffer != tpl.data
    requires insertBuffer.Length == TDBRECORDMAXSIZE && RecordSize(types) <= TDBRECORDMAXSIZE
    modifies tpl, insertBuffer
    ensures tpl.Valid() && tpl.data == old(tpl.data)
    ensures ok <==> forall k :: 0 <= k < |types| ==> Storable(types[k])
    ensures ok ==> tupleSize <= insertBuffer.Length && Stores(insertBuffer[..tupleSize], types, old(tpl.row))
  {
    hide Concat, OffsetOf, Widths, RecordSize, StoresFields, StoresColumn, EncodableColumn;
    EmptyRecord(types, tpl.row);
    forall j | 0 <= j < insertBuffer.Length {
      insertBuffer[j] := NUL;
    }
    tupleSize := 0;
    ghost var fields: seq<string> := [];
    var i := 0;
    while i < |types|
      invariant i <= |types| && tpl.Valid() && tpl.row == old(tpl.row) && tpl.kind == old(tpl.kind)
                && tpl.data == old(tpl.data)
      invariant forall k :: 0 <= k < i ==> Storable(types[k])
      invariant forall k :: i <= k < |types| ==> EncodableColumn(tpl, types[k], k)
      invariant tupleSize == OffsetOf(Widths(types), i) <= insertBuffer.Length
      invariant |fields| == i && StoresFields(fields, types, tpl.row) && insertBuffer[..tupleSize] == Concat(fields)
    {
      if !Storable(types[i]) {
        return false, 0;
      }
      var field := EncodeColumn(tpl, types[i], i);
      NextField(fields, field, types, tpl.row);
      AppendField(insertBuffer, tupleSize, field);
      fields := fields + [field];
      tupleSize := tupleSize + |field|;
      i := i + 1;
    }
    ok := true;
  }

  lemma EmptyRecord(types: seq<Datatype>, row: Row)
    ensures OffsetOf(Widths(types), 0) == 0 && Concat([]) == "" && StoresFields([], types, row)
  {
  }

  lemma ConcatNext(fields: seq<string>, field: string)
    ensures Concat(fields + [field]) == Concat(fields) + field
  {
    assert (fields + [field])[..|fields|] == fields;
  }

  lemma NextField(fields: seq<string>, field: string, types: seq<Datatype>, row: Row)
    requires |fields| < |types| && StoresFields(fields, types, row)
    requires StoresColumn(field, types[|fields|], row, |fields|)
    ensures Concat(fields + [field]) == Concat(fields) + field && StoresFields(fields + [field], types, row)
    ensures OffsetOf(Widths(types), |fields| + 1) == OffsetOf(Widths(types), |fields|) + |field| <= RecordSize(types)
  {
    ConcatNext(fields, field);
    NextWidth(field, types, row, |fields|);
    hide *;
    NextStored(fields, field, types, row);
  }

  lemma NextStored(fields: seq<string>, field: string, types: seq<Datatype>, row: Row)
    requires |fields| < |types| && StoresFields(fields, types, row)
    requires StoresColumn(field, types[|fields|], row, |fields|)
    ensures StoresFields(fields + [field], types, row)
  {
    hide StoresColumn;
  }

  lemma NextWidth(field: string, types: seq<Datatype>, row: Row, k: nat)
    requires k < |types| && StoresColumn(field, types[k], row, k)
    ensures OffsetOf(Widths(types), k + 1) == OffsetOf(Widths(types), k) + |field| <= RecordSize(types)
  {
    OffsetGrows(Widths(types), k + 1, |types|);
  }

  lemma {:induction false} OffsetGrows(sizes: seq<nat>, i: nat, j: nat)
    requires i <= j <= |sizes|
    ensures OffsetOf(sizes, i) <= OffsetOf(sizes, j)
  {
    if i < j {
      OffsetGrows(sizes, i, j - 1);
    }
  }
}
