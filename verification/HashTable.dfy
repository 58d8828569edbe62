/** The multimap that the chained hashmap stands for: buckets of entries, each entry with
    the values inserted for its key and the cursor up to which they have been served. */
module HashTable {

  const NODEVALUES: nat := 10000
  const KEYSIZE: nat := 100

  datatype Entry = Entry(key: string, vals: seq<nat>, cursor: nat)

  type Bucket = seq<Entry>
  type Table = seq<Bucket>
  type Hash = string -> nat

  /** Every key hashes into the table. */
  ghost predicate Fits(h: Hash, size: nat) {
    size > 0 && forall k :: h(k) < size
  }

  /** Position of the entry for `k` along the chain, or the length of the chain. */
  function Index(b: Bucket, k: string): (j: nat)
    ensures j <= |b|
    ensures j < |b| ==> b[j].key == k
    ensures forall i :: 0 <= i < j ==> b[i].key != k
  {
    if b == [] || b[0].key == k then 0 else 1 + Index(b[1..], k)
  }

  function InsertBucket(b: Bucket, k: string, v: nat): Bucket {
    var j := Index(b, k);
    if k == "" then b
    else if j < |b| then b[j := b[j].(vals := b[j].vals + [v])]
    else b + [Entry(k, [v], 0)]
  }

  function Insert(t: Table, h: Hash, k: string, v: nat): Table
    requires h(k) < |t|
  {
    t[h(k) := InsertBucket(t[h(k)], k, v)]
  }

  /** All values stored for `k`. */
  function Values(t: Table, h: Hash, k: string): seq<nat>
    requires h(k) < |t|
  {
    var b := t[h(k)];
    var j := Index(b, k);
    if j < |b| then b[j].vals else []
  }

  /** The values of `k` that its cursor has not passed yet. */
  function Pending(t: Table, h: Hash, k: string): seq<nat>
    requires h(k) < |t|
  {
    var b := t[h(k)];
    var j := Index(b, k);
    if j < |b| && b[j].cursor <= |b[j].vals| then b[j].vals[b[j].cursor..] else []
  }

  /** The table with the cursor of entry `j` in the bucket of `k` at `c`. */
  function MoveCursor(t: Table, h: Hash, k: string, j: nat, c: nat): (t': Table)
    requires h(k) < |t| && j < |t[h(k)]|
    ensures |t'| == |t|
  {
    t[h(k) := t[h(k)][j := t[h(k)][j].(cursor := c)]]
  }

  /** `k` moved past its next value. */
  function Advance(t: Table, h: Hash, k: string): (t': Table)
    requires h(k) < |t|
    ensures |t'| == |t|
  {
    var j := Index(t[h(k)], k);
    if j < |t[h(k)]| then MoveCursor(t, h, k, j, t[h(k)][j].cursor + 1) else t
  }

  /** `k` moved past all its values. */
  function Drain(t: Table, h: Hash, k: string): (t': Table)
    requires h(k) < |t|
    ensures |t'| == |t|
  {
    var j := Index(t[h(k)], k);
    if j < |t[h(k)]| then MoveCursor(t, h, k, j, |t[h(k)][j].vals|) else t
  }

  /** What `resetCursor` does: only the head of the key's bucket goes back to zero. */
  function Rewind(t: Table, h: Hash, k: string): (t': Table)
    requires h(k) < |t|
    ensures |t'| == |t|
  {
    if t[h(k)] == [] then t else MoveCursor(t, h, k, 0, 0)
  }

  function EmptyTable(size: nat): (t: Table)
    ensures |t| == size && forall i :: 0 <= i < size ==> t[i] == []
  {
    seq(size, _ => [])
  }

  /** Insert `keys[i]` with value `i`, in order, into an empty table. */
  function Build(keys: seq<string>, h: Hash, size: nat): (t: Table)
    requires forall k :: h(k) < size
    ensures |t| == size
  {
    if keys == [] then EmptyTable(size)
    else
      var n := |keys| - 1;
      Insert(Build(keys[..n], h, size), h, keys[n], n)
  }

  /** The positions at which `k` occurs, ascending. */
  function Positions(keys: seq<string>, k: string): (p: seq<nat>)
    ensures forall i :: 0 <= i < |p| ==> p[i] < |keys| && keys[p[i]] == k
    ensures p != [] <==> k in keys
  {
    if keys == [] then []
    else
      var n := |keys| - 1;
      Positions(keys[..n], k) + (if keys[n] == k then [n] else [])
  }

  /** The keys fit into the nodes of the hashmap, and so do the values of each. */
  ghost predicate KeysFit(keys: seq<string>) {
    && (forall i :: 0 <= i < |keys| ==> |keys[i]| < KEYSIZE)
    && (forall k :: k != "" ==> |Positions(keys, k)| <= NODEVALUES)
  }

  lemma {:induction false} PositionsGrow(keys: seq<string>, n: nat, k: string)
    requires n < |keys|
    ensures |Positions(keys[..n], k)| + (if keys[n] == k then 1 else 0) <= |Positions(keys, k)|
    decreases |keys|
  {
    var last := |keys| - 1;
    if n < last {
      PositionsGrow(keys[..last], n, k);
      assert keys[..last][..n] == keys[..n];
    }
  }

  /** The first non-empty key that hashes to bucket `b`, or the empty key. */
  function FirstInBucket(keys: seq<string>, h: Hash, b: nat): string {
    if keys == [] then ""
    else if keys[0] != "" && h(keys[0]) == b then keys[0]
    else FirstInBucket(keys[1..], h, b)
  }

  /** A key of `keys` that was not the first one in its bucket. */
  predicate Chained(keys: seq<string>, h: Hash, k: string) {
    k != "" && k in keys && FirstInBucket(keys, h, h(k)) != k
  }

  /** The representation invariant of the chains: non-empty keys, no key twice in a bucket,
      each key in its own bucket, cursors within their values. */
  ghost predicate Sound(t: Table, h: Hash) {
    Fits(h, |t|) &&
    (forall b, j :: 0 <= b < |t| && 0 <= j < |t[b]| ==>
      t[b][j].key != "" && h(t[b][j].key) == b && t[b][j].cursor <= |t[b][j].vals| && t[b][j].vals != []) &&
    (forall b, i, j :: 0 <= b < |t| && 0 <= i < j < |t[b]| ==> t[b][i].key != t[b][j].key)
  }

  lemma InsertSound(t: Table, h: Hash, k: string, v: nat)
    requires Sound(t, h)
    ensures Sound(Insert(t, h, k, v), h)
  {
  }

  /** An insertion touches one entry: that of the key, at the end of the chain if it is new. */
  lemma InsertEffect(t: Table, h: Hash, k: string, v: nat)
    requires h(k) < |t| && k != ""
    ensures var t', b, j := Insert(t, h, k, v), t[h(k)], Index(t[h(k)], k);
            && |t'| == |t| && (forall i :: 0 <= i < |t| && i != h(k) ==> t'[i] == t[i])
            && |t'[h(k)]| == (if j < |b| then |b| else |b| + 1)
            && (forall m :: 0 <= m < |b| && m != j ==> t'[h(k)][m] == b[m])
            && t'[h(k)][j] == (if j < |b| then Entry(k, b[j].vals + [v], b[j].cursor) else Entry(k, [v], 0))
  {
  }

  lemma IndexFound(b: Bucket, k: string, j: nat)
    requires j < |b| && b[j].key == k && forall i :: 0 <= i < j ==> b[i].key != k
    ensures Index(b, k) == j
  {
  }

  lemma IndexBeyond(b: Bucket, k: string, j: nat)
    requires j < |b| && j <= Index(b, k)
    ensures b[j].key == k ==> Index(b, k) == j
    ensures b[j].key != k ==> j + 1 <= Index(b, k)
  {
  }

  /** One more insertion: the key gains the value at the end, every other key is as before. */
  lemma InsertValues(t: Table, h: Hash, k: string, v: nat, other: string)
    requires Sound(t, h)
    ensures Values(Insert(t, h, k, v), h, other) ==
            Values(t, h, other) + (if other == k && k != "" then [v] else [])
  {
    var b := t[h(k)];
    var b' := InsertBucket(b, k, v);
    if k != "" && h(other) == h(k) {
      var j := Index(b, other);
      if j < |b| {
        IndexFound(b', other, j);
      } else if other == k {
        IndexFound(b', other, |b|);
      }
    }
  }

  /** The hashmap refines a multimap, for every hash function: after any insertions each key
      holds exactly its values in insertion order, and the empty key none. */
  lemma {:induction false} BuildIsMultimap(keys: seq<string>, h: Hash, size: nat, k: string)
    requires Fits(h, size)
    ensures Sound(Build(keys, h, size), h)
    ensures Values(Build(keys, h, size), h, k) == if k == "" then [] else Positions(keys, k)
  {
    if keys != [] {
      var n := |keys| - 1;
      BuildIsMultimap(keys[..n], h, size, k);
      InsertSound(Build(keys[..n], h, size), h, keys[n], n);
      InsertValues(Build(keys[..n], h, size), h, keys[n], n, k);
    }
  }

  /** The next insertion in a row, while no key has more than `limit` values in all. */
  lemma BuildNext(keys: seq<string>, n: nat, h: Hash, size: nat, limit: nat)
    requires Fits(h, size) && n < |keys| && limit > 0
    requires keys[n] != "" ==> |Positions(keys, keys[n])| <= limit
    ensures |Values(Build(keys[..n], h, size), h, keys[n])| < limit
    ensures Insert(Build(keys[..n], h, size), h, keys[n], n) == Build(keys[..n + 1], h, size)
  {
    assert keys[..n + 1][..n] == keys[..n];
    BuildIsMultimap(keys[..n], h, size, keys[n]);
    PositionsGrow(keys, n, keys[n]);
  }

  /** No cursor has moved. */
  ghost predicate Fresh(t: Table) {
    forall b, j :: 0 <= b < |t| && 0 <= j < |t[b]| ==> t[b][j].cursor == 0
  }

  lemma {:induction false} BuildFresh(keys: seq<string>, h: Hash, size: nat)
    requires Fits(h, size)
    ensures Fresh(Build(keys, h, size))
  {
    if keys != [] {
      BuildFresh(keys[..|keys| - 1], h, size);
    }
  }

  lemma {:induction false} FirstInBucketExtends(keys: seq<string>, x: string, h: Hash, b: nat)
    ensures var f := FirstInBucket(keys, h, b);
            FirstInBucket(keys + [x], h, b) == if f != "" then f else if h(x) == b then x else ""
  {
    if keys != [] {
      assert (keys + [x])[1..] == keys[1..] + [x];
      FirstInBucketExtends(keys[1..], x, h, b);
    }
  }

  /** The head of a bucket is the first key that hashed there. */
  lemma {:induction false} HeadIsFirst(keys: seq<string>, h: Hash, size: nat, b: nat)
    requires Fits(h, size) && b < size
    ensures var bucket := Build(keys, h, size)[b];
            FirstInBucket(keys, h, b) == if bucket == [] then "" else bucket[0].key
  {
    if keys != [] {
      var n := |keys| - 1;
      HeadIsFirst(keys[..n], h, size, b);
      BuildIsMultimap(keys[..n], h, size, "");
      FirstInBucketExtends(keys[..n], keys[n], h, b);
      assert keys == keys[..n] + [keys[n]];
    }
  }

  /** A key sits past the head of its bucket exactly when it is chained. */
  lemma ChainedIsPastHead(keys: seq<string>, h: Hash, size: nat, k: string)
    requires Fits(h, size)
    ensures var b := Build(keys, h, size)[h(k)];
            0 < Index(b, k) < |b| <==> Chained(keys, h, k)
  {
    HeadIsFirst(keys, h, size, h(k));
    BuildIsMultimap(keys, h, size, k);
    var b := Build(keys, h, size)[h(k)];
    assert Index(b, k) < |b| ==> b[Index(b, k)].vals != [];
  }

  // ----- the cursor protocol -----

  lemma {:induction false} SameKeys(b: Bucket, b': Bucket, k: string)
    requires |b| == |b'| && forall i :: 0 <= i < |b| ==> b'[i].key == b[i].key
    ensures Index(b', k) == Index(b, k)
  {
    if b != [] && b[0].key != k {
      SameKeys(b[1..], b'[1..], k);
    }
  }

  /** Moving the cursor of one entry: keys, values and the other entries' pending values stay. */
  lemma MoveCursorEffect(t: Table, h: Hash, k: string, j: nat, c: nat, other: string)
    requires Sound(t, h) && j < |t[h(k)]| && c <= |t[h(k)][j].vals|
    ensures var t' := MoveCursor(t, h, k, j, c);
            Sound(t', h) &&
            Values(t', h, other) == Values(t, h, other) &&
            Pending(t', h, other) ==
              if other == t[h(k)][j].key then t[h(k)][j].vals[c..] else Pending(t, h, other)
  {
    var b := t[h(k)];
    var t': Table := MoveCursor(t, h, k, j, c);
    MoveCursorSound(t, h, k, j, c);
    if h(other) == h(k) {
      SameKeys(b, t'[h(k)], other);
      if other == b[j].key {
        IndexFound(b, other, j);
      }
    }
  }

  /** Every value is served once: what is pending gets shorter. */
  lemma AdvanceShrinks(t: Table, h: Hash, k: string)
    requires h(k) < |t| && Pending(t, h, k) != []
    ensures |Pending(Advance(t, h, k), h, k)| < |Pending(t, h, k)|
  {
    SameKeys(t[h(k)], Advance(t, h, k)[h(k)], k);
  }

  lemma MoveCursorSound(t: Table, h: Hash, k: string, j: nat, c: nat)
    requires Sound(t, h) && j < |t[h(k)]| && c <= |t[h(k)][j].vals|
    ensures Sound(MoveCursor(t, h, k, j, c), h)
  {
    var t': Table := MoveCursor(t, h, k, j, c);
    assert forall b :: 0 <= b < |t| ==> |t'[b]| == |t[b]|;
    assert forall b, i :: 0 <= b < |t| && 0 <= i < |t[b]| ==>
        t'[b][i].key == t[b][i].key && t'[b][i].vals == t[b][i].vals;
  }

  lemma RewindSound(t: Table, h: Hash, k: string)
    requires Sound(t, h)
    ensures Sound(Rewind(t, h, k), h)
  {
    if t[h(k)] != [] {
      MoveCursorSound(t, h, k, 0, 0);
    }
  }

  /** Serving one value of `k`: it is the first pending one, and no other key is touched. */
  lemma AdvancePending(t: Table, h: Hash, k: string, other: string)
    requires Sound(t, h) && Pending(t, h, k) != []
    ensures var t' := Advance(t, h, k);
            Sound(t', h) &&
            Values(t', h, other) == Values(t, h, other) &&
            Pending(t', h, other) == if other == k then Pending(t, h, k)[1..] else Pending(t, h, other)
  {
    var j := Index(t[h(k)], k);
    MoveCursorEffect(t, h, k, j, t[h(k)][j].cursor + 1, other);
  }

  /** `n` values of `k` served in a row. */
  function AdvanceMany(t: Table, h: Hash, k: string, n: nat): (t': Table)
    requires h(k) < |t|
    ensures |t'| == |t|
  {
    if n == 0 then t else Advance(AdvanceMany(t, h, k, n - 1), h, k)
  }

  /** The `n`-th value served is the `n`-th stored one; after all of them there is none left,
      and every other key still has everything it had. */
  lemma {:induction false} CursorProtocol(t: Table, h: Hash, k: string, n: nat, other: string)
    requires Sound(t, h) && n <= |Pending(t, h, k)|
    ensures var t' := AdvanceMany(t, h, k, n);
            Sound(t', h) &&
            Values(t', h, other) == Values(t, h, other) &&
            Pending(t', h, k) == Pending(t, h, k)[n..] &&
            (other != k ==> Pending(t', h, other) == Pending(t, h, other))
  {
    if n > 0 {
      CursorProtocol(t, h, k, n - 1, other);
      AdvancePending(AdvanceMany(t, h, k, n - 1), h, k, other);
      AdvancePending(AdvanceMany(t, h, k, n - 1), h, k, k);
    }
  }
}
