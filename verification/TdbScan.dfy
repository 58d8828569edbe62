/** The scan of a TDB table: the file is read in chunks, and the records of a chunk are served
    from the last one to the first. */
module TdbScan {
  import opened Arithmetic
  import opened CText
  import opened Tuples

  const TDBSCANBUFFRECORDS: nat := 10000

  // ----- records -----

  lemma RecordInside(k: nat, n: nat, size: nat, len: nat)
    requires k < n && n * size <= len
    ensures k * size + size <= len
  {
    MulMonotonic(k + 1, n, size);
  }

  lemma QuotientMonotonic(n: nat, len: nat, size: nat)
    requires size > 0 && n * size <= len
    ensures n <= len / size
  {
    WholeParts(len, size);
    if len / size < n {
      MulMonotonic(len / size + 1, n, size);
    }
  }

  function Record(s: string, size: nat, k: nat): string {
    if k * size + size <= |s| then s[k * size..k * size + size] else ""
  }

  /** The whole records of a stretch of bytes, in file order; a partial one at the end is dropped. */
  function Records(s: string, size: nat): (r: seq<string>)
    requires size > 0
    ensures |r| == |s| / size
  {
    seq(|s| / size, k requires 0 <= k => Record(s, size, k))
  }

  function Reverse(r: seq<string>): seq<string> {
    if r == [] then [] else [r[|r| - 1]] + Reverse(r[..|r| - 1])
  }

  /** What a scan serves: full chunks of records, each from last to first, and then what is left. */
  function Served(records: seq<string>): seq<string>
    decreases |records|
  {
    if |records| < TDBSCANBUFFRECORDS then Reverse(records)
    else Reverse(records[..TDBSCANBUFFRECORDS]) + Served(records[TDBSCANBUFFRECORDS..])
  }

  lemma {:induction false} ReversePermutes(r: seq<string>)
    ensures multiset(Reverse(r)) == multiset(r) && |Reverse(r)| == |r|
  {
    if r != [] {
      ReversePermutes(r[..|r| - 1]);
      assert r == r[..|r| - 1] + [r[|r| - 1]];
    }
  }

  lemma ReverseLast(r: seq<string>, last: string)
    ensures Reverse(r + [last]) == [last] + Reverse(r)
  {
    assert (r + [last])[..|r|] == r;
  }

  lemma {:induction false} ReverseAt(r: seq<string>, k: nat)
    requires k < |r|
    ensures |Reverse(r)| == |r| && Reverse(r)[k] == r[|r| - 1 - k]
  {
    ReversePermutes(r);
    if k > 0 {
      ReverseAt(r[..|r| - 1], k - 1);
    }
  }

  /** The scan is a permutation of the file: every record is served, as often as it is there. */
  lemma {:induction false} ServedPermutes(records: seq<string>)
    ensures multiset(Served(records)) == multiset(records) && |Served(records)| == |records|
    decreases |records|
  {
    if |records| < TDBSCANBUFFRECORDS {
      ReversePermutes(records);
    } else {
      var a, b := records[..TDBSCANBUFFRECORDS], records[TDBSCANBUFFRECORDS..];
      ReversePermutes(a);
      ServedPermutes(b);
      assert records == a + b;
    }
  }

  /** The `i`-th record served from chunk `c` is the `i`-th from the end of that chunk. */
  lemma {:induction false} ServedAt(records: seq<string>, c: nat, i: nat)
    requires i < TDBSCANBUFFRECORDS && c * TDBSCANBUFFRECORDS + i < |records|
    ensures var k, full := c * TDBSCANBUFFRECORDS + i, (c + 1) * TDBSCANBUFFRECORDS;
            var end := if full <= |records| then full else |records|;
            |Served(records)| == |records| && Served(records)[k] == records[end - 1 - i]
    decreases c
  {
    ServedPermutes(records);
    if |records| < TDBSCANBUFFRECORDS {
      ReverseAt(records, i);
    } else {
      var front, rest := records[..TDBSCANBUFFRECORDS], records[TDBSCANBUFFRECORDS..];
      ReversePermutes(front);
      if c == 0 {
        ReverseAt(front, i);
      } else {
        ServedAt(rest, c - 1, i);
      }
    }
  }

  /** Fewer than 10000 records are served exactly in reverse; of more, the record 9999 comes first, and
      after 10000 of them the last one of the next 10000. */
  lemma ServedInNumbers(records: seq<string>)
    ensures |Served(records)| == |records|
    ensures |records| < 10000 ==> forall k :: 0 <= k < |records| ==> Served(records)[k] == records[|records| - 1 - k]
    ensures |records| >= 10000 ==> Served(records)[0] == records[9999] && Served(records)[9999] == records[0]
    ensures |records| > 10000 ==>
              Served(records)[10000] == records[if |records| < 20000 then |records| - 1 else 19999]
  {
    ServedPermutes(records);
    forall k | 0 <= k < |records| < 10000
      ensures Served(records)[k] == records[|records| - 1 - k]
    {
      ServedAt(records, 0, k);
    }
    if |records| >= 10000 {
      ServedAt(records, 0, 0);
      ServedAt(records, 0, 9999);
    }
    if |records| > 10000 {
      ServedAt(records, 1, 0);
    }
  }

  // ----- records and chunks of bytes -----

  lemma FrontRecord(s: string, size: nat, m: nat, k: nat)
    requires k * size + size <= m <= |s|
    ensures Record(s[..m], size, k) == Record(s, size, k)
  {
  }

  lemma RestRecord(s: string, size: nat, m: nat, n: nat, k: nat)
    requires m == n * size && (n + k) * size + size <= |s|
    ensures Record(s[m..], size, k) == Record(s, size, n + k)
  {
    assert (n + k) * size == n * size + k * size;
  }

  lemma RecordsOfFront(s: string, size: nat, n: nat)
    requires size > 0 && n * size <= |s|
    ensures n <= |s| / size && Records(s[..n * size], size) == Records(s, size)[..n]
  {
    var m := n * size;
    QuotientIs(m, size, n);
    QuotientMonotonic(n, |s|, size);
    hide Record;
    forall k | 0 <= k < n
      ensures Record(s[..m], size, k) == Record(s, size, k)
    {
      RecordInside(k, n, size, m);
      FrontRecord(s, size, m, k);
    }
  }

  lemma RecordsOfRest(s: string, size: nat, n: nat)
    requires size > 0 && n * size <= |s|
    ensures n <= |s| / size && Records(s[n * size..], size) == Records(s, size)[n..]
  {
    var q, m := |s| / size, n * size;
    WholeParts(|s|, size);
    QuotientMonotonic(n, |s|, size);
    assert (q - n) * size == q * size - m;
    QuotientIs(|s| - m, size, q - n);
    hide Record;
    forall k | 0 <= k < q - n
      ensures Record(s[m..], size, k) == Record(s, size, n + k)
    {
      RecordInside(n + k, q, size, |s|);
      RestRecord(s, size, m, n, k);
    }
  }

  /** Everything a scan serves that stands at byte `pos` of the file with an empty buffer. */
  function ScanRun(file: string, pos: nat, size: nat): seq<string>
    requires size > 0
  {
    if pos <= |file| then Served(Records(file[pos..], size)) else []
  }

  /** One buffer filled at `pos`: its records come from last to first, and if it was full the
      scan goes on behind it. */
  lemma ChunkServed(file: string, pos: nat, size: nat, n: nat)
    requires size > 0 && pos <= |file|
    requires n == if |file| - pos < TDBSCANBUFFRECORDS * size then |file| - pos else TDBSCANBUFFRECORDS * size
    ensures var chunk := Records(file[pos..pos + n], size);
            ScanRun(file, pos, size) ==
              Reverse(chunk) + (if n < TDBSCANBUFFRECORDS * size then [] else ScanRun(file, pos + n, size))
    ensures n == TDBSCANBUFFRECORDS * size ==> n / size == TDBSCANBUFFRECORDS
  {
    var rest := file[pos..];
    WholeParts(|rest|, size);
    if n < TDBSCANBUFFRECORDS * size {
      assert rest[..n] == rest && file[pos..pos + n] == rest;
      if |rest| / size >= TDBSCANBUFFRECORDS {
        MulMonotonic(TDBSCANBUFFRECORDS, |rest| / size, size);
      }
    } else {
      RecordsOfFront(rest, size, TDBSCANBUFFRECORDS);
      RecordsOfRest(rest, size, TDBSCANBUFFRECORDS);
      QuotientIs(n, size, TDBSCANBUFFRECORDS);
      assert file[pos..pos + n] == rest[..n] && file[pos + n..] == rest[n..];
    }
  }

  lemma EmptyReverse()
    ensures Reverse([]) == []
  {
  }

  lemma FitsWhole(n: nat, size: nat)
    requires size > 0
    ensures n / size * size <= n
  {
    WholeParts(n, size);
  }

  /** A partial record at the end of a chunk holds no record. */
  lemma WholeChunk(s: string, size: nat)
    requires size > 0
    ensures var m := |s| / size * size;
            m <= |s| && Records(s[..m], size) == Records(s, size)
  {
    FitsWhole(|s|, size);
    RecordsOfFront(s, size, |s| / size);
  }

  // ----- a file of whole records -----

  lemma {:induction false} ConcatLength(records: seq<string>, size: nat)
    requires forall k :: 0 <= k < |records| ==> |records[k]| == size
    ensures |Concat(records)| == |records| * size
  {
    if records != [] {
      ConcatLength(records[..|records| - 1], size);
      assert (|records| - 1) * size + size == |records| * size;
    }
  }

  /** Records written one behind the other are read back as they were. */
  lemma {:induction false} RecordsOfConcat(records: seq<string>, size: nat)
    requires size > 0 && forall k :: 0 <= k < |records| ==> |records[k]| == size
    ensures Records(Concat(records), size) == records
  {
    var all := Concat(records);
    ConcatLength(records, size);
    QuotientIs(|all|, size, |records|);
    if records != [] {
      var n := |records| - 1;
      RecordsOfConcat(records[..n], size);
      ConcatLength(records[..n], size);
      RecordsOfFront(all, size, n);
      assert all[..n * size] == Concat(records[..n]);
      assert Record(all, size, n) == records[n];
      assert Records(all, size)[..n] == records[..n];
    }
  }

  /** The scan of a table behind its header. */
  lemma ScanServesRecords(header: string, records: seq<string>, size: nat)
    requires size > 0 && forall k :: 0 <= k < |records| ==> |records[k]| == size
    ensures ScanRun(header + Concat(records), |header|, size) == Served(records)
  {
    RecordsOfConcat(records, size);
    assert (header + Concat(records))[|header|..] == Concat(records);
  }

  // ----- the operator -----

  class TdbScan {
    const file: string
    const recordSize: nat
    const bufferSize: nat
    const buffer: array<char>
    var cursor: nat
    var recordsInBuffer: nat
    var fileRead: bool

    ghost predicate Valid()
      reads this, buffer
    {
      && recordSize > 0 && bufferSize == TDBSCANBUFFRECORDS * recordSize == buffer.Length
      && cursor <= |file|
      && recordsInBuffer * recordSize <= buffer.Length
    }

    /** The records still to be served: what is left in the buffer, from last to first, and what
        is left of the file. */
    ghost function Remaining(): seq<string>
      requires Valid()
      reads this, buffer
    {
      Reverse(BufferRecords()) + (if fileRead then [] else ScanRun(file, cursor, recordSize))
    }

    ghost function BufferRecords(): seq<string>
      requires Valid()
      reads this, buffer
    {
      Records(buffer[..recordsInBuffer * recordSize], recordSize)
    }

    constructor (file: string, start: nat, recordSize: nat)
      requires recordSize > 0 && start <= |file|
      ensures Valid() && fresh(buffer) && this.recordSize == recordSize
      ensures Remaining() == Served(Records(file[start..], recordSize))
    {
      this.file, this.recordSize, bufferSize := file, recordSize, TDBSCANBUFFRECORDS * recordSize;
      buffer := new char[TDBSCANBUFFRECORDS * recordSize];
      cursor, recordsInBuffer, fileRead := start, 0, false;
    }

    /** One read: the next bytes of the file, as many as the buffer holds. */
    method ReadChunk() returns (bytesRead: nat)
      requires Valid() && recordsInBuffer == 0
      modifies this`cursor, buffer
      ensures Valid() && cursor == old(cursor) + bytesRead
      ensures bytesRead == if |file| - old(cursor) < bufferSize then |file| - old(cursor) else bufferSize
      ensures buffer[..bytesRead] == file[old(cursor)..old(cursor) + bytesRead]
    {
      bytesRead := if |file| - cursor < bufferSize then |file| - cursor else bufferSize;
      forall k | 0 <= k < bytesRead {
        buffer[k] := file[cursor + k];
      }
      cursor := cursor + bytesRead;
    }

    /** Read the next chunk. A short one is the last. */
    method FillBuffer()
      requires Valid() && recordsInBuffer == 0 && !fileRead
      modifies this, buffer
      ensures Valid() && Remaining() == old(Remaining())
      ensures recordsInBuffer > 0 || fileRead
    {
      hide Record, Records, Reverse, Served;
      NothingBuffered();
      assert Reverse([]) == [] by { EmptyReverse(); }
      var bytesRead := ReadChunk();
      ChunkServed(file, old(cursor), recordSize, bytesRead);
      FitsWhole(bytesRead, recordSize);
      WholeChunk(buffer[..bytesRead], recordSize);
      recordsInBuffer := bytesRead / recordSize;
      if bytesRead < bufferSize {
        fileRead := true;
      }
      assert buffer[..bytesRead][..recordsInBuffer * recordSize] == buffer[..recordsInBuffer * recordSize];
    }

    /** The next record, `None` at the end. The call repeats itself at most once: after the
        buffer was filled it has a record, or the file is read. */
    method GetTuple() returns (r: Option<string>)
      requires Valid()
      modifies this, buffer
      ensures Valid()
      ensures var todo := old(Remaining());
              if todo == [] then r == None && Remaining() == []
              else r == Some(todo[0]) && |todo[0]| == recordSize && Remaining() == todo[1..]
      decreases if recordsInBuffer == 0 && !fileRead then 1 else 0
    {
      EmptyReverse();
      if fileRead && recordsInBuffer == 0 {
        NothingBuffered();
        return None;
      }
      if recordsInBuffer == 0 {
        FillBuffer();
        r := GetTuple();
        return;
      }
      hide *;
      var rec := ServeLast();
      r := Some(rec);
    }

    /** The last record in the buffer. */
    method ServeLast() returns (rec: string)
      requires Valid() && recordsInBuffer > 0
      modifies this`recordsInBuffer
      ensures Valid() && |rec| == recordSize && old(Remaining()) == [rec] + Remaining()
    {
      LastBuffered();
      hide Record, Records, Reverse, Served, ScanRun;
      var bufferDataOffset := (recordsInBuffer - 1) * recordSize;
      rec := buffer[bufferDataOffset..bufferDataOffset + recordSize];
      recordsInBuffer := recordsInBuffer - 1;
      ReverseLast(BufferRecords(), rec);
    }

    lemma NothingBuffered()
      requires Valid() && recordsInBuffer == 0
      ensures BufferRecords() == []
    {
      QuotientIs(0, recordSize, 0);
    }

    /** The last record of the buffer, and the records before it. */
    lemma LastBuffered()
      requires Valid() && recordsInBuffer > 0
      ensures var n := recordsInBuffer - 1;
              && n * recordSize + recordSize <= buffer.Length && n * recordSize <= buffer.Length
              && BufferRecords() == Records(buffer[..n * recordSize], recordSize)
                                    + [buffer[n * recordSize..n * recordSize + recordSize]]
    {
      var n, all := recordsInBuffer - 1, buffer[..recordsInBuffer * recordSize];
      assert recordsInBuffer * recordSize == n * recordSize + recordSize;
      QuotientIs(|all|, recordSize, recordsInBuffer);
      RecordsOfFront(all, recordSize, n);
      assert all[..n * recordSize] == buffer[..n * recordSize];
      assert Record(all, recordSize, n) == buffer[n * recordSize..n * recordSize + recordSize];
      assert Records(all, recordSize) == Records(all, recordSize)[..n] + [Record(all, recordSize, n)];
    }
  }
}
