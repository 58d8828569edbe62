/** The header of a TDB file: how it is written and how it is read back. */
module TdbHeader {
  import opened CText
  import opened Filter
  import opened File

  const ARRAYMAXSIZE: nat := 25
  const CHARMAXSIZE: nat := 100

  datatype TdbColumn = TdbColumn(name: string, dtype: Datatype, length: int)

  datatype Tdb = Tdb(records: nat, columns: seq<TdbColumn>)

  /** What the structure in memory can hold: names are C strings in arrays of `CHARMAXSIZE`,
      lengths are signed bytes. */
  predicate FitsColumn(c: TdbColumn) {
    NUL !in c.name && |c.name| < CHARMAXSIZE && -128 <= c.length < 128
  }

  ghost predicate FitsTdb(t: Tdb) {
    t.records < TWO32 && |t.columns| <= ARRAYMAXSIZE
    && forall i :: 0 <= i < |t.columns| ==> FitsColumn(t.columns[i])
  }

  function Code(d: Datatype): nat {
    match d
    case DTYPE_STR => 0
    case DTYPE_INT => 1
    case DTYPE_UNDEFINED => 2
    case DTYPE_LONG => 3
  }

  function FromCode(n: nat): Option<Datatype> {
    match n
    case 0 => Some(DTYPE_STR)
    case 1 => Some(DTYPE_INT)
    case 2 => Some(DTYPE_UNDEFINED)
    case 3 => Some(DTYPE_LONG)
    case _ => None
  }

  function ByteOf(n: int): char {
    (n % 256) as char
  }

  // ----- the layout -----

  /** Length of the name with its terminator, the name, four bytes of type, one of length. */
  function ColumnBytes(c: TdbColumn): (s: string)
    ensures |s| == |c.name| + 7
  {
    [ByteOf(|c.name| + 1)] + (c.name + [NUL]) + LE(Code(c.dtype), 4) + [ByteOf(c.length)]
  }

  function ColumnsBytes(cols: seq<TdbColumn>): string {
    if cols == [] then "" else ColumnBytes(cols[0]) + ColumnsBytes(cols[1..])
  }

  /** Four bytes for the number of records and eight for the number of columns. */
  function HeaderBytes(t: Tdb): string {
    LE(t.records, 4) + LE(|t.columns|, 8) + ColumnsBytes(t.columns)
  }

  /** The bytes of a header: five records, one column, which is a long named `a`. */
  lemma HeaderInBytes()
    ensures HeaderBytes(Tdb(5, [TdbColumn("a", DTYPE_LONG, 8)])) ==
            [5 as char, NUL, NUL, NUL, 1 as char, NUL, NUL, NUL, NUL, NUL, NUL, NUL,
             2 as char, 'a', NUL, 3 as char, NUL, NUL, NUL, 8 as char]
  {
    var a := TdbColumn("a", DTYPE_LONG, 8);
    ColumnInBytes();
    CountsInBytes();
    assert [a][1..] == [] && ColumnsBytes([a]) == ColumnBytes(a) + "";
    assert HeaderBytes(Tdb(5, [a])) == LE(5, 4) + LE(1, 8) + (ColumnBytes(a) + "");
    hide *;
    BytesInOrder();
  }

  lemma BytesInOrder()
    ensures [5 as char, NUL, NUL, NUL] + [1 as char, NUL, NUL, NUL, NUL, NUL, NUL, NUL]
            + ([2 as char, 'a', NUL, 3 as char, NUL, NUL, NUL, 8 as char] + "") ==
            [5 as char, NUL, NUL, NUL, 1 as char, NUL, NUL, NUL, NUL, NUL, NUL, NUL,
             2 as char, 'a', NUL, 3 as char, NUL, NUL, NUL, 8 as char]
  {
  }

  lemma CountsInBytes()
    ensures LE(5, 4) == [5 as char, NUL, NUL, NUL]
    ensures LE(1, 8) == [1 as char, NUL, NUL, NUL, NUL, NUL, NUL, NUL]
  {
    NoBytes(3);
    NoBytes(7);
    assert LE(5, 4) == [5 as char] + LE(0, 3) && LE(1, 8) == [1 as char] + LE(0, 7);
    hide LE;
  }

  lemma ColumnInBytes()
    ensures ColumnBytes(TdbColumn("a", DTYPE_LONG, 8)) ==
            [2 as char, 'a', NUL, 3 as char, NUL, NUL, NUL, 8 as char]
    ensures ColumnBytes(TdbColumn("b", DTYPE_STR, 50)) ==
            [2 as char, 'b', NUL, NUL, NUL, NUL, NUL, 50 as char]
  {
    NoBytes(3);
    NoBytes(4);
    assert LE(3, 4) == [3 as char] + LE(0, 3);
    hide LE;
  }

  // ----- reading -----

  datatype ColumnRead = ColumnRead(column: TdbColumn, size: nat)

  /** The column at the start of `s`. `None` where the program would take what it never read:
      the bytes end, or the name does not fit or does not end, or the type is none. */
  function ReadColumn(s: string): (r: Option<ColumnRead>)
    ensures r.Some? ==> r.value.size <= |s|
  {
    if s == "" then None
    else
      var n := SignedByte(s[0]);
      if n < 1 || n > CHARMAXSIZE || |s| < n + 6 || NUL !in s[1..1 + n] then None
      else
        match FromCode(FromLE(s[1 + n..5 + n]))
        case None => None
        case Some(d) => Some(ColumnRead(TdbColumn(CString(s[1..1 + n], 0), d, SignedByte(s[5 + n])), n + 6))
  }

  datatype ColumnsRead = ColumnsRead(columns: seq<TdbColumn>, size: nat)

  function ReadColumns(s: string, n: nat): (r: Option<ColumnsRead>)
    ensures r.Some? ==> |r.value.columns| == n && r.value.size <= |s|
  {
    if n == 0 then Some(ColumnsRead([], 0))
    else
      match ReadColumn(s)
      case None => None
      case Some(c) =>
        Prepend(ColumnsRead([c.column], c.size), ReadColumns(s[c.size..], n - 1))
  }

  function Prepend(first: ColumnsRead, rest: Option<ColumnsRead>): Option<ColumnsRead> {
    match rest
    case None => None
    case Some(r) => Some(ColumnsRead(first.columns + r.columns, first.size + r.size))
  }

  datatype HeaderRead = HeaderRead(tdb: Tdb, metadataSize: nat)

  function ReadHeader(s: string): (r: Option<HeaderRead>)
    ensures r.Some? ==> r.value.metadataSize <= |s|
  {
    if |s| < 12 || FromLE(s[4..12]) > ARRAYMAXSIZE then None
    else
      match ReadColumns(s[12..], FromLE(s[4..12]))
      case None => None
      case Some(r) => Some(HeaderRead(Tdb(FromLE(s[..4]), r.columns), 12 + r.size))
  }

  // ----- the round trip -----

  lemma SmallCode(d: Datatype)
    ensures FromCode(FromLE(LE(Code(d), 4))) == Some(d)
  {
    Pow256Values();
    LERoundTrip(Code(d), 4);
  }

  lemma SignedByteRoundTrip(n: int)
    requires -128 <= n < 128
    ensures SignedByte(ByteOf(n)) == n
  {
  }

  /** The pieces of a column, where the reader looks for them. */
  lemma ColumnPieces(c: TdbColumn, rest: string)
    ensures var s, n := ColumnBytes(c) + rest, |c.name| + 1;
            && |s| >= n + 6 && s[0] == ByteOf(n) && s[1..1 + n] == c.name + [NUL]
            && s[1 + n..5 + n] == LE(Code(c.dtype), 4) && s[5 + n] == ByteOf(c.length)
            && s[n + 6..] == rest
  {
  }

  lemma ColumnRoundTrip(c: TdbColumn, rest: string)
    requires FitsColumn(c)
    ensures ReadColumn(ColumnBytes(c) + rest) == Some(ColumnRead(c, |ColumnBytes(c)|))
  {
    ColumnPieces(c, rest);
    var block := c.name + [NUL];
    assert block[0..0 + |c.name|] == c.name && block[|c.name|] == NUL;
    CStringReads(block, 0, c.name);
    SmallCode(c.dtype);
    SignedByteRoundTrip(|c.name| + 1);
    SignedByteRoundTrip(c.length);
    hide ColumnBytes, LE, FromLE, FromCode, CString, SignedByte, ByteOf;
  }

  lemma NextColumn(c: TdbColumn, tail: string, n: nat)
    requires FitsColumn(c) && n > 0
    ensures ReadColumns(ColumnBytes(c) + tail, n) ==
            Prepend(ColumnsRead([c], |ColumnBytes(c)|), ReadColumns(tail, n - 1))
  {
    ColumnRoundTrip(c, tail);
    assert (ColumnBytes(c) + tail)[|ColumnBytes(c)|..] == tail;
    hide ReadColumn, ColumnBytes, Prepend;
  }

  lemma FirstColumnBytes(c: TdbColumn, cols: seq<TdbColumn>, rest: string)
    ensures ColumnsBytes([c] + cols) == ColumnBytes(c) + ColumnsBytes(cols)
    ensures ColumnsBytes([c] + cols) + rest == ColumnBytes(c) + (ColumnsBytes(cols) + rest)
  {
    assert ([c] + cols)[1..] == cols;
    hide ColumnBytes;
  }

  lemma NextColumns(c: TdbColumn, cols: seq<TdbColumn>, rest: string)
    requires FitsColumn(c)
    requires ReadColumns(ColumnsBytes(cols) + rest, |cols|) == Some(ColumnsRead(cols, |ColumnsBytes(cols)|))
    ensures var all := ColumnsBytes([c] + cols);
            ReadColumns(all + rest, |cols| + 1) == Some(ColumnsRead([c] + cols, |all|))
  {
    hide ReadColumns, ColumnsBytes, ColumnBytes, FitsColumn;
    FirstColumnBytes(c, cols, rest);
    NextColumn(c, ColumnsBytes(cols) + rest, |cols| + 1);
  }

  lemma {:induction false} ColumnsRoundTrip(cols: seq<TdbColumn>, rest: string)
    requires forall i :: 0 <= i < |cols| ==> FitsColumn(cols[i])
    ensures ReadColumns(ColumnsBytes(cols) + rest, |cols|) == Some(ColumnsRead(cols, |ColumnsBytes(cols)|))
  {
    if cols == [] {
    } else {
      ColumnsRoundTrip(cols[1..], rest);
      NextColumns(cols[0], cols[1..], rest);
      hide *;
      assert [cols[0]] + cols[1..] == cols;
    }
  }

  lemma HeaderPieces(t: Tdb, rest: string)
    ensures var s := HeaderBytes(t) + rest;
            && |s| >= 12 && s[..4] == LE(t.records, 4) && s[4..12] == LE(|t.columns|, 8)
            && s[12..] == ColumnsBytes(t.columns) + rest
            && |HeaderBytes(t)| == 12 + |ColumnsBytes(t.columns)|
  {
    hide ColumnsBytes, LE;
  }

  /** Reading a written header restores the number of records and every column's name, type and
      length, and `metadataSize` is the number of bytes written: the records start right there. */
  lemma HeaderRoundTrip(t: Tdb, rest: string)
    requires FitsTdb(t)
    ensures ReadHeader(HeaderBytes(t) + rest) == Some(HeaderRead(t, |HeaderBytes(t)|))
    ensures (HeaderBytes(t) + rest)[|HeaderBytes(t)|..] == rest
  {
    HeaderPieces(t, rest);
    Pow256Values();
    LERoundTrip(t.records, 4);
    LERoundTrip(|t.columns|, 8);
    ColumnsRoundTrip(t.columns, rest);
    hide HeaderBytes, ReadColumns, LE, FromLE, ColumnsBytes;
  }

  /** No header is the start of another table's file: a file tells its table and its records. */
  lemma HeaderDetermines(t: Tdb, rest: string, u: Tdb, rest': string)
    requires FitsTdb(t) && FitsTdb(u) && HeaderBytes(t) + rest == HeaderBytes(u) + rest'
    ensures t == u && rest == rest'
  {
    HeaderRoundTrip(t, rest);
    HeaderRoundTrip(u, rest');
  }

  lemma {:induction false} FromLEBound(s: string)
    ensures FromLE(s) < Pow256(|s|)
  {
    if s != "" {
      FromLEBound(s[1..]);
    }
  }

  lemma ReadColumnFits(s: string)
    requires ReadColumn(s).Some?
    ensures FitsColumn(ReadColumn(s).value.column)
  {
    var n := SignedByte(s[0]);
    var block := s[1..1 + n];
    assert Terminated(block, 0);
    CStringSlice(block, 0);
  }

  lemma {:induction false} ReadColumnsFit(s: string, n: nat)
    requires ReadColumns(s, n).Some?
    ensures forall i :: 0 <= i < n ==> FitsColumn(ReadColumns(s, n).value.columns[i])
  {
    if n > 0 {
      ReadColumnFits(s);
      ReadColumnsFit(s[ReadColumn(s).value.size..], n - 1);
      hide ReadColumn, FitsColumn;
    }
  }

  /** Whatever header is read, it can be written again. */
  lemma ReadHeaderFits(s: string)
    requires ReadHeader(s).Some?
    ensures FitsTdb(ReadHeader(s).value.tdb)
  {
    ReadColumnsFit(s[12..], FromLE(s[4..12]));
    Pow256Values();
    FromLEBound(s[..4]);
    hide FromLE, ReadColumns, FitsColumn;
  }

  // ----- the writer and the reader -----

  /** Write one column, and count its bytes. */
  method WriteColumn(f: File, c: TdbColumn) returns (bytesWritten: nat)
    requires f.Valid() && FitsColumn(c)
    modifies f`bytes
    ensures f.Valid() && f.bytes == old(f.bytes) + ColumnBytes(c) && bytesWritten == |ColumnBytes(c)|
  {
    var nameLength := |c.name| + 1;
    f.Write([ByteOf(nameLength)]);
    f.Write(c.name + [NUL]);
    f.Write(LE(Code(c.dtype), 4));
    f.Write([ByteOf(c.length)]);
    bytesWritten := 1 + nameLength + 4 + 1;
  }

  /** `writeTdbMetadataToFD`. What it returns is four less than what it writes: it counts the
      size of `records` for the eight bytes of the number of columns. */
  method WriteTdbMetadataToFD(f: File, t: Tdb) returns (bytesWritten: nat)
    requires f.Valid() && FitsTdb(t)
    modifies f`bytes
    ensures f.Valid() && f.bytes == old(f.bytes) + HeaderBytes(t)
    ensures bytesWritten == |HeaderBytes(t)| - 4
  {
    hide ColumnBytes, LE;
    f.Write(LE(t.records, 4));
    bytesWritten := 4;
    f.Write(LE(|t.columns|, 8));
    bytesWritten := bytesWritten + 4;
    var i := 0;
    while i < |t.columns|
      invariant i <= |t.columns| && f.Valid()
      invariant f.bytes + ColumnsBytes(t.columns[i..]) == old(f.bytes) + HeaderBytes(t)
      invariant bytesWritten + |ColumnsBytes(t.columns[i..])| == |HeaderBytes(t)| - 4
    {
      var n := WriteColumn(f, t.columns[i]);
      bytesWritten := bytesWritten + n;
      assert t.columns[i..][0] == t.columns[i] && t.columns[i..][1..] == t.columns[i + 1..];
      i := i + 1;
    }
  }

  /** The name, the type and the length of a column. */
  method ReadPieces(f: File, n: nat) returns (name: string, dtype: string, length: string)
    requires f.Valid()
    modifies f`pos
    ensures f.Valid()
    ensures var s := old(f.Rest());
            if n + 5 <= |s| then name == s[..n] && dtype == s[n..n + 4] && length == [s[n + 4]]
                  && f.Rest() == s[n + 5..]
            else |name| < n || |dtype| < 4 || length == ""
  {
    ghost var s := f.Rest();
    name := f.Read(n);
    dtype := f.Read(4);
    length := f.Read(1);
    if n + 5 <= |s| {
      assert s[n..][..4] == s[n..n + 4] && s[n..][4..] == s[n + 4..] && s[n + 4..][1..] == s[n + 5..];
    }
  }

  /** Read one column. */
  method ReadColumnFrom(f: File) returns (r: Option<ColumnRead>)
    requires f.Valid()
    modifies f`pos
    ensures f.Valid() && r == ReadColumn(old(f.Rest()))
    ensures r.Some? ==> r.value.size <= |old(f.Rest())| && f.Rest() == old(f.Rest())[r.value.size..]
  {
    hide CString, FromLE, FromCode, SignedByte;
    ghost var s := f.Rest();
    var b := f.Read(1);
    if b == "" {
      return None;
    }
    var nameLength := SignedByte(b[0]);
    if nameLength < 1 || nameLength > CHARMAXSIZE {
      return None;
    }
    var name, dtype, length := ReadPieces(f, nameLength);
    if |name| < nameLength || |dtype| < 4 || length == "" || NUL !in name {
      return None;
    }
    assert s[1..][..nameLength] == s[1..1 + nameLength];
    assert s[1..][nameLength..nameLength + 4] == s[1 + nameLength..5 + nameLength];
    assert s[1..][nameLength + 5..] == s[nameLength + 6..];
    var d := FromCode(FromLE(dtype));
    if d == None {
      return None;
    }
    return Some(ColumnRead(TdbColumn(CString(name, 0), d.value, SignedByte(length[0])), nameLength + 6));
  }

  /** `readTdbMetadaFromFD`. */
  method ReadTdbMetadataFromFD(f: File) returns (r: Option<HeaderRead>)
    requires f.Valid()
    modifies f`pos
    ensures r == ReadHeader(old(f.Rest()))
  {
    hide ReadColumn, FromLE;
    ghost var s := f.Rest();
    var records := f.Read(4);
    var count := f.Read(8);
    assert |s| >= 12 ==> count == s[4..][..8] == s[4..12];
    if |records| < 4 || |count| < 8 || FromLE(count) > ARRAYMAXSIZE {
      return None;
    }
    assert s[4..][8..] == s[12..];
    var colCount := FromLE(count);
    var columns: seq<TdbColumn> := [];
    var size: nat := 0;
    var i := 0;
    PrependNothing(ReadColumns(s[12..], colCount));
    while i < colCount
      invariant i <= colCount && f.Valid()
      invariant ReadColumns(s[12..], colCount) ==
                Prepend(ColumnsRead(columns, size), ReadColumns(f.Rest(), colCount - i))
    {
      ghost var rest := f.Rest();
      var c := ReadColumnFrom(f);
      if c == None {
        return None;
      }
      PrependTwice(ColumnsRead(columns, size), ColumnsRead([c.value.column], c.value.size),
            ReadColumns(f.Rest(), colCount - i - 1));
      columns := columns + [c.value.column];
      size := size + c.value.size;
      i := i + 1;
    }
    assert columns + [] == columns;
    return Some(HeaderRead(Tdb(FromLE(records), columns), 12 + size));
  }

  lemma PrependNothing(r: Option<ColumnsRead>)
    ensures Prepend(ColumnsRead([], 0), r) == r
  {
    if r.Some? {
      assert [] + r.value.columns == r.value.columns;
    }
  }

  lemma PrependTwice(a: ColumnsRead, b: ColumnsRead, r: Option<ColumnsRead>)
    ensures Prepend(a, Prepend(b, r)) == Prepend(ColumnsRead(a.columns + b.columns, a.size + b.size), r)
  {
    if r.Some? {
      assert a.columns + (b.columns + r.value.columns) == a.columns + b.columns + r.value.columns;
    }
  }
}
