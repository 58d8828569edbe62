/** The run of a hash join as it goes from probe to probe, and what every probe keeps. */
module HashJoinSpec {
  import opened CText
  import opened Tuples
  import opened Filter
  import opened HashTable
  import opened JoinSpec

  function Keys(rows: seq<Row>, c: nat): (keys: seq<string>)
    ensures |keys| == |rows|
  {
    seq(|rows|, i requires 0 <= i < |rows| => rows[i].StrCol(c))
  }

  lemma KeyAt(rows: seq<Row>, c: nat, i: nat)
    requires i < |rows|
    ensures Keys(rows, c)[i] == rows[i].StrCol(c)
  {
  }

  /** One equality between a column of the left and one of the right side, both text or both numbers. */
  predicate KeyEquality(ops: seq<FilterOp>, lc: nat, rc: nat) {
    && |ops| == 1 && ops[0].Comparison? && ops[0].boolOp == -1 && ops[0].compType == CMP_COL_COL
    && ops[0].left.dtype == ops[0].right.dtype && ops[0].left.dtype in {DTYPE_STR, DTYPE_LONG}
    && ops[0].left.idx == lc && ops[0].right.idx == rc
  }

  predicate StringEquality(ops: seq<FilterOp>, lc: nat, rc: nat) {
    KeyEquality(ops, lc, rc) && ops[0].left.dtype == DTYPE_STR
  }

  lemma EqualityTyped(ops: seq<FilterOp>, lc: nat, rc: nat)
    requires KeyEquality(ops, lc, rc)
    ensures Typed(ops)
  {
    assert ops[1..] == [] && Typed(ops[1..]) && TypedOp(ops[0]);
  }

  lemma EqualityHolds(ops: seq<FilterOp>, lc: nat, rc: nat, l: Row, r: Row)
    requires StringEquality(ops, lc, rc)
    ensures Typed(ops) && (On(l, r, ops) <==> l.StrCol(lc) == r.StrCol(rc))
  {
    assert ops[1..] == [] && Typed(ops[1..]) && TypedOp(ops[0]);
    assert Fold(ops, true, AND, Flat(l), Flat(r)) ==
           Fold(ops[1..], Combine(AND, EvalOp(ops[0], Flat(l), Flat(r)), true), ops[0].operatorNext, Flat(l), Flat(r));
  }

  // ----- the run -----

  /** The join value of a left tuple. Once a number of a line was compared, its slot, which is the
      first one, has taken the place of the offset: what is read then starts with the block. */
  function JoinValue(l: Row, lc: nat, casted: bool): string {
    if casted && l.kind == TPL_DELIMITED then CString(l.data, 0) else l.StrCol(lc)
  }

  /** The comparison casts the columns that it reads. */
  predicate Casts(ops: seq<FilterOp>) {
    ops != [] && ops[0].Comparison? && ops[0].left.dtype == DTYPE_LONG
  }

  /** The pair of a left tuple and the right tuple at a position, if they match. */
  function PairAt(l: Row, rights: seq<Row>, p: nat, ops: seq<FilterOp>): seq<Pair>
    requires Typed(ops)
  {
    if p < |rights| && On(l, rights[p], ops) then [(l, rights[p])] else []
  }

  /** Everything the probe phase emits with the left tuple `l` in hand. A value that is not found
      rewinds its bucket and makes way for the next left tuple. */
  function RunFrom(t: Table, h: Hash, l: Row, casted: bool, lefts: seq<Row>, rights: seq<Row>,
                   ops: seq<FilterOp>, lc: nat): seq<Pair>
    requires Typed(ops) && forall k :: h(k) < |t|
    decreases |lefts|, if casted then 0 else 1, |Pending(t, h, JoinValue(l, lc, casted))|
  {
    var k := JoinValue(l, lc, casted);
    if Pending(t, h, k) == [] then
      if lefts == [] then [] else RunFrom(Rewind(t, h, k), h, lefts[0], false, lefts[1..], rights, ops, lc)
    else
      AdvanceShrinks(t, h, k);
      PairAt(l, rights, Pending(t, h, k)[0], ops)
      + RunFrom(Advance(t, h, k), h, l, casted || Casts(ops), lefts, rights, ops, lc)
  }

  /** What the hash join emits in all. The probe phase starts with a zeroed left tuple. */
  function HashJoinRun(lefts: seq<Row>, rights: seq<Row>, ops: seq<FilterOp>, lc: nat, rc: nat, h: Hash, size: nat):
    seq<Pair>
    requires Typed(ops) && forall k :: h(k) < size
  {
    RunFrom(Build(Keys(rights, rc), h, size), h, ZEROED, false, lefts, rights, ops, lc)
  }

  // ----- what every probe keeps -----

  /** Every key has the positions of its right tuples. */
  ghost predicate Stocked(t: Table, h: Hash, keys: seq<string>) {
    t != [] && Sound(t, h) && forall k :: Values(t, h, k) == if k == "" then [] else Positions(keys, k)
  }

  lemma BuiltIsStocked(keys: seq<string>, h: Hash, size: nat)
    requires Fits(h, size)
    ensures Stocked(Build(keys, h, size), h, keys)
  {
    forall k
      ensures Sound(Build(keys, h, size), h)
      ensures Values(Build(keys, h, size), h, k) == if k == "" then [] else Positions(keys, k)
    {
      BuildIsMultimap(keys, h, size, k);
    }
    BuildIsMultimap(keys, h, size, "");
  }

  /** A value that is not found: its bucket is rewound. */
  lemma RewindStocked(t: Table, h: Hash, k: string, keys: seq<string>)
    requires Stocked(t, h, keys)
    ensures Stocked(Rewind(t, h, k), h, keys)
  {
    if t[h(k)] != [] {
      forall other
        ensures Values(Rewind(t, h, k), h, other) == Values(t, h, other)
      {
        MoveCursorEffect(t, h, k, 0, 0, other);
      }
      MoveCursorEffect(t, h, k, 0, 0, k);
    }
  }

  /** A value that is found: its next position is that of a right tuple with this value. */
  lemma AdvanceStocked(t: Table, h: Hash, k: string, keys: seq<string>)
    requires Stocked(t, h, keys) && Pending(t, h, k) != []
    ensures Stocked(Advance(t, h, k), h, keys)
    ensures Pending(t, h, k) == [Pending(t, h, k)[0]] + Pending(Advance(t, h, k), h, k)
    ensures Pending(t, h, k)[0] in Positions(keys, k)
  {
    AdvancePending(t, h, k, k);
    PendingIsStored(t, h, k);
    forall other
      ensures Values(Advance(t, h, k), h, other) == Values(t, h, other)
    {
      AdvancePending(t, h, k, other);
      hide *;
    }
    hide Advance, Pending, Values, Sound, Positions;
  }

  lemma PendingIsStored(t: Table, h: Hash, k: string)
    requires h(k) < |t| && Pending(t, h, k) != []
    ensures Pending(t, h, k)[0] in Values(t, h, k)
  {
  }

  lemma PositionAt(rights: seq<Row>, rc: nat, k: string, p: nat)
    requires p in Positions(Keys(rights, rc), k)
    ensures p < |rights| && rights[p].StrCol(rc) == k
  {
  }

  /** One probe that finds its value: the position leads to a right tuple with this value. */
  lemma HitRun(t: Table, h: Hash, l: Row, casted: bool, lefts: seq<Row>, rights: seq<Row>, ops: seq<FilterOp>,
               lc: nat, rc: nat)
    requires Typed(ops) && Stocked(t, h, Keys(rights, rc)) && Pending(t, h, JoinValue(l, lc, casted)) != []
    ensures var k := JoinValue(l, lc, casted);
            var p, t' := Pending(t, h, k)[0], Advance(t, h, k);
            && p < |rights| && rights[p].StrCol(rc) == k && Stocked(t', h, Keys(rights, rc))
            && |Pending(t', h, k)| < |Pending(t, h, k)|
            && RunFrom(t, h, l, casted, lefts, rights, ops, lc) ==
               (if On(l, rights[p], ops) then [(l, rights[p])] else [])
               + RunFrom(t', h, l, casted || Casts(ops), lefts, rights, ops, lc)
  {
    var k := JoinValue(l, lc, casted);
    AdvanceStocked(t, h, k, Keys(rights, rc));
    PositionAt(rights, rc, k, Pending(t, h, k)[0]);
    AdvanceShrinks(t, h, k);
    hide Stocked, Advance, Pending, Keys, JoinValue, On;
  }

  /** One probe that does not. */
  lemma MissRun(t: Table, h: Hash, l: Row, casted: bool, lefts: seq<Row>, rights: seq<Row>, ops: seq<FilterOp>,
                lc: nat, keys: seq<string>)
    requires Typed(ops) && Stocked(t, h, keys) && Pending(t, h, JoinValue(l, lc, casted)) == []
    ensures var t' := Rewind(t, h, JoinValue(l, lc, casted));
            && Stocked(t', h, keys)
            && RunFrom(t, h, l, casted, lefts, rights, ops, lc) ==
               if lefts == [] then [] else RunFrom(t', h, lefts[0], false, lefts[1..], rights, ops, lc)
  {
    RewindStocked(t, h, JoinValue(l, lc, casted), keys);
    hide Rewind, Pending, JoinValue;
  }

  lemma SameCursor(t: Table, h: Hash, k: string, j: nat, c: nat)
    requires h(k) < |t| && j < |t[h(k)]| && t[h(k)][j].cursor == c
    ensures MoveCursor(t, h, k, j, c) == t
  {
    assert t[h(k)][j := t[h(k)][j].(cursor := c)] == t[h(k)];
  }

  lemma RewindFresh(t: Table, h: Hash, k: string)
    requires Fits(h, |t|) && Fresh(t)
    ensures Rewind(t, h, k) == t
  {
    if t[h(k)] != [] {
      SameCursor(t, h, k, 0, 0);
    }
  }

  lemma EmptyKeyPends(t: Table, h: Hash)
    requires Fits(h, |t|) && Sound(t, h) && Values(t, h, "") == []
    ensures Pending(t, h, "") == []
  {
  }

  /** The empty value of the zeroed left tuple is never found: all it does is to fetch the first
      left tuple. */
  lemma FirstProbe(lefts: seq<Row>, rights: seq<Row>, ops: seq<FilterOp>, lc: nat, rc: nat, h: Hash, size: nat)
    requires Typed(ops) && Fits(h, size)
    ensures var built := Build(Keys(rights, rc), h, size);
            && Stocked(built, h, Keys(rights, rc))
            && HashJoinRun(lefts, rights, ops, lc, rc, h, size) ==
               if lefts == [] then [] else RunFrom(built, h, lefts[0], false, lefts[1..], rights, ops, lc)
  {
    var built := Build(Keys(rights, rc), h, size);
    BuiltIsStocked(Keys(rights, rc), h, size);
    BuildFresh(Keys(rights, rc), h, size);
    RewindFresh(built, h, "");
    assert Values(built, h, "") == [];
    EmptyKeyPends(built, h);
    assert JoinValue(ZEROED, lc, false) == "";
    MissRun(built, h, ZEROED, false, lefts, rights, ops, lc, Keys(rights, rc));
    hide Build, Keys, Stocked, Rewind, Pending, RunFrom, Values;
  }
}
