/** The chained hashmap of the hash join: an array of inline bucket heads, each with a
    linked list of further nodes, every node serving its values through a cursor. */
module Hashmap {
  import opened Arithmetic
  import opened CText
  import opened HashTable

  class MapNode {
    var key: string
    var values: seq<nat>
    var obs: nat
    var cursor: nat
    var next: MapNode?
    ghost var bucket: nat
    ghost var pos: nat

    /** A zeroed node. */
    constructor (ghost bucket: nat, ghost pos: nat)
      ensures IsBlank() && next == null
      ensures this.bucket == bucket && this.pos == pos
    {
      key, values, obs, cursor, next := "", seq(NODEVALUES, _ => 0), 0, 0, null;
      this.bucket, this.pos := bucket, pos;
    }

    ghost predicate IsBlank()
      reads this
    {
      key == "" && obs == 0 && cursor == 0 && |values| == NODEVALUES
    }

    ghost predicate Holds(e: Entry)
      reads this
    {
      key == e.key && obs <= |values| == NODEVALUES && values[..obs] == e.vals && cursor == e.cursor
    }
  }

  class Hashmap {
    const hash: Hash
    var data: array<MapNode>
    ghost var table: Table
    ghost var chains: seq<seq<MapNode>>
    ghost var Repr: set<object>

    /** Node `j` of bucket `b` holds entry `j` of the table and links to node `j + 1`;
        a blank node may end the chain, as the head of an empty bucket does. */
    ghost predicate Link(b: nat, j: nat)
      requires b < |chains| && b < |table| && j < |chains[b]|
      reads this, Repr
    {
      var c := chains[b];
      && c[j] in Repr && c[j].bucket == b && c[j].pos == j
      && c[j].next == (if j + 1 < |c| then c[j + 1] else null)
      && (if j < |table[b]| then c[j].Holds(table[b][j]) else c[j].IsBlank())
    }

    /** Bucket `b` is a finite acyclic chain: one node per entry of the table, in order. */
    ghost predicate ChainOk(b: nat)
      requires b < |chains| && b < |table| && b < data.Length
      reads this, data, Repr
    {
      && |table[b]| <= |chains[b]| <= |table[b]| + 1 && chains[b] != []
      && chains[b][0] == data[b]
      && forall j :: 0 <= j < |chains[b]| ==> Link(b, j)
    }

    /** No blank node, except as the head of an empty bucket. */
    ghost predicate Tight(b: nat)
      requires b < |chains| && b < |table|
      reads this
    {
      |table[b]| < |chains[b]| ==> table[b] == []
    }

    /** Every chain is in order; only bucket `loose` may have a blank node at its end. */
    ghost predicate ValidExcept(loose: nat)
      reads this, Repr
    {
      && this in Repr && data in Repr
      && data.Length == |table| == |chains|
      && Sound(table, hash)
      && (forall b :: 0 <= b < |table| ==> ChainOk(b))
      && (forall b :: 0 <= b < |table| && b != loose ==> Tight(b))
    }

    ghost predicate Valid()
      reads this, Repr
      ensures Valid() ==> this in Repr
    {
      ValidExcept(|table|)
    }

    constructor (hash: Hash, tableSize: nat)
      requires Fits(hash, tableSize)
      ensures Valid() && fresh(Repr)
      ensures this.hash == hash && table == EmptyTable(tableSize)
    {
      this.hash := hash;
      var first := new MapNode(0, 0);
      var heads := new MapNode[tableSize](_ => first);
      data, table := heads, EmptyTable(tableSize);
      chains, Repr := [], {};
      new;
      Repr := {this, heads};
      for i := 0 to tableSize
        invariant heads == data && fresh(heads) && heads.Length == tableSize && fresh(Repr)
        invariant this in Repr && heads in Repr
        invariant |chains| == i
        invariant table == EmptyTable(tableSize)
        invariant forall b :: 0 <= b < i ==> |chains[b]| == 1 && heads[b] == chains[b][0]
        invariant forall b :: 0 <= b < i ==> Link(b, 0)
      {
        label Start:
        hide Fits;
        var node := new MapNode(i, 0);
        heads[i] := node;
        chains, Repr := chains + [[node]], Repr + {node};
        forall b | 0 <= b <= i
          ensures Link(b, 0)
        {
          assert b < i ==> old@Start(Link(b, 0));
        }
      }
    }

    method InsertToHashmap(key: string, value: nat)
      requires Valid()
      requires |key| < KEYSIZE && |Values(table, hash, key)| < NODEVALUES
      modifies Repr
      ensures Valid() && fresh(Repr - old(Repr))
      ensures table == Insert(old(table), hash, key, value)
    {
      var idx := hash(key);
      var node := data[idx];
      assert ChainOk(idx) && Tight(idx);
      TryInsert(key, value, node, 0);
    }

    method TryInsert(key: string, value: nat, node: MapNode, ghost j: nat)
      requires ValidExcept(hash(key))
      requires |key| < KEYSIZE && |Values(table, hash, key)| < NODEVALUES
      requires j < |chains[hash(key)]| && node == chains[hash(key)][j]
      requires j <= Index(table[hash(key)], key)
      requires Tight(hash(key)) || (key != "" && j == |table[hash(key)]|)
      modifies Repr
      ensures Valid() && fresh(Repr - old(Repr))
      ensures table == Insert(old(table), hash, key, value)
      decreases |table[hash(key)]| - j
    {
      if |key| == 0 {
        return;
      }
      hide HashTable.Insert, Sound, Values;
      ghost var b := hash(key);
      assert ChainOk(b) && Link(b, j);
      if j < |table[b]| {
        IndexBeyond(table[b], key, j);
      }
      if node.obs != 0 && key != node.key {
        if node.next == null {
          AppendNode(node, b);
        }
        assert ChainOk(b) && Link(b, j) && Link(b, j + 1);
        TryInsert(key, value, node.next, j + 1);
        return;
      }
      StoreValue(key, value, node, j);
    }

    /** A zeroed node after the last one of bucket `b`. */
    method AppendNode(node: MapNode, ghost b: nat)
      requires ValidExcept(b) && b < |table| && table[b] != []
      requires |chains[b]| == |table[b]| && node == chains[b][|chains[b]| - 1]
      modifies Repr
      ensures ValidExcept(b) && fresh(Repr - old(Repr))
      ensures table == old(table) && node.next != null
      ensures chains == old(chains)[b := old(chains[b]) + [node.next]]
    {
      assert ChainOk(b) && Link(b, |chains[b]| - 1);
      var more := new MapNode(b, |chains[b]|);
      node.next := more;
      chains := chains[b := chains[b] + [more]];
      Repr := Repr + {more};
      forall i | 0 <= i < |table|
        ensures ChainOk(i) && (i != b ==> Tight(i))
      {
        assert old(ChainOk(i)) && (i != b ==> old(Tight(i)));
        forall m | 0 <= m < |chains[i]|
          ensures Link(i, m)
        {
          assert m < |old(chains[i])| ==> old(Link(i, m));
        }
      }
    }

    /** Append `value` at the node that holds `key`, or at the blank node that takes it. */
    method StoreValue(key: string, value: nat, node: MapNode, ghost j: nat)
      requires ValidExcept(hash(key))
      requires key != "" && |Values(table, hash, key)| < NODEVALUES
      requires j < |chains[hash(key)]| && node == chains[hash(key)][j]
      requires j == Index(table[hash(key)], key)
      requires Tight(hash(key)) || j == |table[hash(key)]|
      modifies Repr
      ensures Valid() && Repr == old(Repr)
      ensures table == Insert(old(table), hash, key, value)
    {
      ghost var b := hash(key);
      assert ChainOk(b) && Link(b, j);
      InsertSound(table, hash, key, value);
      InsertEffect(table, hash, key, value);
      // the source's bound check follows the write; below the bound it never fires
      SetNode(node, if node.obs == 0 then key else node.key, node.values[node.obs := value],
              node.obs + 1, node.cursor, b, j, Insert(table, hash, key, value));
    }

    /** The fields of one node change, and with them its entry in the table `t`: every chain is
        still in order. */
    method SetNode(node: MapNode, key: string, values: seq<nat>, obs: nat, cursor: nat,
                   ghost b: nat, ghost j: nat, ghost t: Table)
      requires ValidExcept(b) && b < |table| && j < |chains[b]| && node == chains[b][j] && Link(b, j)
      requires Sound(t, hash) && |t| == |table| && forall i :: 0 <= i < |t| && i != b ==> t[i] == table[i]
      requires |table[b]| <= |t[b]| <= |chains[b]| && (|t[b]| < |chains[b]| ==> t[b] == [])
      requires forall m :: 0 <= m < |t[b]| && m != j ==> m < |table[b]| && t[b][m] == table[b][m]
      requires if j < |t[b]| then
                 obs <= |values| == NODEVALUES && t[b][j] == Entry(key, values[..obs], cursor)
               else key == "" && obs == 0 && cursor == 0 && |values| == NODEVALUES
      modifies Repr
      ensures Valid() && Repr == old(Repr) && chains == old(chains) && table == t
    {
      assert ChainOk(b);
      node.key, node.values, node.obs, node.cursor := key, values, obs, cursor;
      table := t;
      hide Sound;
      forall i | 0 <= i < |table|
        ensures ChainOk(i) && Tight(i)
      {
        assert old(ChainOk(i)) && (i != b ==> old(Tight(i)));
        forall m | 0 <= m < |chains[i]|
          ensures Link(i, m)
        {
          assert old(Link(i, m));
        }
      }
    }

    /** What a search for `key` learns at the `j`-th node of its chain. */
    lemma AtNode(key: string, j: nat)
      requires Valid()
      requires j < |chains[hash(key)]| && j <= Index(table[hash(key)], key)
      ensures var b, node := table[hash(key)], chains[hash(key)][j];
              && node in Repr && node.obs <= |node.values| && node.cursor <= node.obs
              && (if key == node.key then
                    if j < |b| then Index(b, key) == j && node.Holds(b[j]) else node.IsBlank() && b == []
                  else if node.next == null then Index(b, key) == |b| && !(key == "" && b == [])
                  else j + 1 < |chains[hash(key)]| && node.next == chains[hash(key)][j + 1]
                       && j + 1 <= Index(b, key))
    {
      var b := hash(key);
      assert ChainOk(b) && Tight(b) && Link(b, j);
      if j < |table[b]| {
        IndexBeyond(table[b], key, j);
      }
    }

    /** At the node of a key with a pending value, what serving it does to the table. */
    lemma ServeNext(key: string, j: nat)
      requires Valid() && j < |chains[hash(key)]| && j <= Index(table[hash(key)], key)
      requires chains[hash(key)][j].key == key && chains[hash(key)][j].cursor != chains[hash(key)][j].obs
      ensures var b, node := hash(key), chains[hash(key)][j];
              var t := Advance(table, hash, key);
              && Link(b, j) && Tight(b) && j < |table[b]| <= |chains[b]| && Sound(t, hash) && |t| == |table|
              && (forall i :: 0 <= i < |t| && i != b ==> t[i] == table[i])
              && |t[b]| == |table[b]| && (forall m :: 0 <= m < |t[b]| && m != j ==> t[b][m] == table[b][m])
              && node.cursor < node.obs <= |node.values| == NODEVALUES
              && t[b][j] == Entry(node.key, node.values[..node.obs], node.cursor + 1)
              && Pending(table, hash, key) != [] && node.values[node.cursor] == Pending(table, hash, key)[0]
    {
      AtNode(key, j);
      assert ChainOk(hash(key)) && Link(hash(key), j) && Tight(hash(key)) && Sound(table, hash);
      assert table[hash(key)][j].vals == chains[hash(key)][j].values[..chains[hash(key)][j].obs];
      AdvancePending(table, hash, key, key);
      hide Sound, ValidExcept, ChainOk;
    }

    /** Is there a value of `key` that its cursor has not passed? */
    method IsInHashmap(key: string) returns (found: bool)
      requires Valid()
      ensures found <==> Pending(table, hash, key) != []
    {
      var node := data[hash(key)];
      assert ChainOk(hash(key));
      found := IsIn(node, key, 0);
    }

    method IsIn(node: MapNode, key: string, ghost j: nat) returns (found: bool)
      requires Valid()
      requires j < |chains[hash(key)]| && node == chains[hash(key)][j]
      requires j <= Index(table[hash(key)], key)
      ensures found <==> Pending(table, hash, key) != []
      decreases |chains[hash(key)]| - j
    {
      AtNode(key, j);
      if key != node.key {
        if node.next == null {
          return false;
        }
        found := IsIn(node.next, key, j + 1);
        return;
      }
      if node.cursor == node.obs {
        return false;
      }
      return node.obs > 0;
    }

    /** Rewinds the head of the key's bucket, whichever key lives there. */
    method ResetCursor(key: string)
      requires Valid()
      modifies Repr
      ensures Valid() && Repr == old(Repr)
      ensures table == Rewind(old(table), hash, key)
    {
      var idx := hash(key);
      assert ChainOk(idx) && Link(idx, 0) && Tight(idx);
      var node := data[idx];
      RewindSound(table, hash, key);
      SetNode(node, node.key, node.values, node.obs, 0, idx, 0, Rewind(table, hash, key));
    }

    /** The next value of `key`; -1 when its values are used up, 0 when it was never inserted. */
    method GetValueFromHashmap(key: string) returns (value: int)
      requires Valid()
      modifies Repr
      ensures Valid() && Repr == old(Repr)
      ensures var pending := old(Pending(table, hash, key));
              if pending != [] then value == pending[0] && table == Advance(old(table), hash, key)
              else table == old(table) && value == Missing(key)
    {
      var node := data[hash(key)];
      assert ChainOk(hash(key));
      value := GetValue(node, key, 0);
    }

    /** The answer for a key with nothing pending. */
    ghost function Missing(key: string): int
      requires Valid()
      reads this, Repr
    {
      var b := table[hash(key)];
      if Index(b, key) < |b| || (key == "" && b == []) then -1 else 0
    }

    method GetValue(node: MapNode, key: string, ghost j: nat) returns (value: int)
      requires Valid()
      requires j < |chains[hash(key)]| && node == chains[hash(key)][j]
      requires j <= Index(table[hash(key)], key)
      modifies Repr
      ensures Valid() && Repr == old(Repr)
      ensures var pending := old(Pending(table, hash, key));
              if pending != [] then value == pending[0] && table == Advance(old(table), hash, key)
              else table == old(table) && value == Missing(key)
      decreases |chains[hash(key)]| - j
    {
      AtNode(key, j);
      if key != node.key {
        if node.next == null {
          return 0;
        }
        value := GetValue(node.next, key, j + 1);
        return;
      }
      if node.cursor == node.obs {
        return -1;
      }
      value := node.values[node.cursor];
      ServeNext(key, j);
      SetNode(node, node.key, node.values, node.obs, node.cursor + 1, hash(key), j, Advance(table, hash, key));
    }
  }

  // ----- the concrete hash -----

  /** The polynomial 32^(n-1) c0 + ... + 32 c(n-2) + c(n-1), without any wrap-around. */
  function Polynomial(key: string): int {
    if key == "" then 0
    else 32 * Polynomial(key[..|key| - 1]) + SignedByte(key[|key| - 1])
  }

  /** `hash`: the polynomial, reduced to 64 bits, then to the table, then to `unsigned int`. */
  function HashOf(key: string, tableSize: nat): (r: nat)
    requires tableSize > 0
    ensures r < tableSize
  {
    Polynomial(key) % TWO64 % tableSize % TWO32
  }

  /** The bytes are weighted with powers of 32, and those from 128 on are negative. */
  lemma HashInNumbers()
    ensures HashOf("ab", 3000) == (97 * 32 + 98) % 3000
    ensures HashOf([255 as char, 'a'], 3000) == 65
  {
    assert "ab"[..1] == "a" && "a"[..0] == "" && Polynomial("a") == 97;
    assert [255 as char, 'a'][..1] == [255 as char] && [255 as char][..0] == "" && Polynomial([255 as char]) == -1;
  }

  /** The loop wraps its 64-bit accumulator at every step; that loses nothing
      over reducing the whole polynomial once. */
  method Hash(key: string, tableSize: nat) returns (r: nat)
    requires tableSize > 0
    ensures r < tableSize
    ensures r == HashOf(key, tableSize)
  {
    hide Polynomial, SignedByte;
    var hashval := 0;
    PolynomialEmpty();
    for i := 0 to |key|
      invariant hashval == Polynomial(key[..i]) % TWO64
    {
      PolynomialNext(key, i);
      WrapStep(Polynomial(key[..i]), SignedByte(key[i]));
      hashval := ((hashval * 32) % TWO64 + SignedByte(key[i])) % TWO64;
    }
    assert key[..|key|] == key;
    r := hashval % tableSize % TWO32;
  }

  lemma PolynomialEmpty()
    ensures Polynomial("") == 0
  {
  }

  lemma PolynomialNext(key: string, i: nat)
    requires i < |key|
    ensures Polynomial(key[..i + 1]) == 32 * Polynomial(key[..i]) + SignedByte(key[i])
  {
    assert key[..i + 1][..i] == key[..i];
  }

  lemma WrapStep(p: int, c: int)
    ensures ((p % TWO64 * 32) % TWO64 + c) % TWO64 == (32 * p + c) % TWO64
  {
    var q := p / TWO64;
    assert p == q * TWO64 + p % TWO64;
    var m := p % TWO64 * 32;
    var d := m / TWO64;
    assert 32 * p + c == (m % TWO64 + c) + (32 * q + d) * TWO64;
    ModShift(m % TWO64 + c, 32 * q + d, TWO64);
  }

  /** The concrete hash is one of the functions the table accepts. */
  lemma ConcreteHashFits(tableSize: nat, h: Hash)
    requires tableSize > 0 && forall key :: h(key) == HashOf(key, tableSize)
    ensures Fits(h, tableSize)
  {
  }
}
