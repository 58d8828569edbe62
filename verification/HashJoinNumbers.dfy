/** The hash join on numbers of lines, in any column. The first comparison casts the join column of
    the left tuple, and what is looked up for it from then on is the text of its first column. */
module HashJoinNumbers {
  import opened Tuples
  import opened Filter
  import opened HashTable
  import opened JoinSpec
  import opened HashJoinSpec
  import opened HashJoinServed

  /** Nothing is found for the left tuple once it is cast, unless its value stays the same. */
  predicate Detached(l: Row, lc: nat, ops: seq<FilterOp>, keys: seq<string>) {
    Steady(l, lc, ops) || JoinValue(l, lc, true) == "" || JoinValue(l, lc, true) !in keys
  }

  /** No left tuple looks up what another one has used: no value that is found comes twice, and none
      is met by the text of a first column. */
  ghost predicate Independent(lefts: seq<Row>, lc: nat, ops: seq<FilterOp>, keys: seq<string>) {
    && (forall i :: 0 <= i < |lefts| ==> Detached(lefts[i], lc, ops, keys))
    && forall i, j :: 0 <= i < j < |lefts| && lefts[i].StrCol(lc) == lefts[j].StrCol(lc) ==>
         lefts[i].StrCol(lc) == "" || lefts[i].StrCol(lc) !in keys
  }

  /** What a left tuple gets that no other one disturbs. */
  function LonePairs(l: Row, rights: seq<Row>, ops: seq<FilterOp>, lc: nat, rc: nat): seq<Pair>
    requires Typed(ops)
  {
    var keys, k := Keys(rights, rc), l.StrCol(lc);
    if k == "" || k !in keys then []
    else if Steady(l, lc, ops) then Keyed(l, rights, ops, lc, rc)
    else PairAt(l, rights, Positions(keys, k)[0], ops)
  }

  function LoneRun(lefts: seq<Row>, rights: seq<Row>, ops: seq<FilterOp>, lc: nat, rc: nat): seq<Pair>
    requires Typed(ops)
  {
    if lefts == [] then []
    else LonePairs(lefts[0], rights, ops, lc, rc) + LoneRun(lefts[1..], rights, ops, lc, rc)
  }

  // ----- what is still whole -----

  /** No value of the key was served, or all were given back. */
  ghost predicate Whole(t: Table, h: Hash, k: string)
    requires h(k) < |t|
  {
    Pending(t, h, k) == Values(t, h, k)
  }

  ghost predicate AllWhole(t: Table, h: Hash, lefts: seq<Row>, lc: nat)
    requires forall k :: h(k) < |t|
  {
    forall i :: 0 <= i < |lefts| ==> Whole(t, h, lefts[i].StrCol(lc))
  }

  lemma RewindWhole(t: Table, h: Hash, k: string, other: string)
    requires Sound(t, h) && Whole(t, h, other)
    ensures Whole(Rewind(t, h, k), h, other)
  {
    if t[h(k)] != [] {
      MoveCursorEffect(t, h, k, 0, 0, other);
      if other == t[h(k)][0].key {
        IndexFound(t[h(k)], other, 0);
      }
    }
  }

  lemma NoValuesWhole(t: Table, h: Hash, k: string)
    requires h(k) < |t| && Values(t, h, k) == []
    ensures Whole(t, h, k) && Pending(t, h, k) == []
  {
  }

  lemma SettleWhole(t: Table, h: Hash, k: string, other: string)
    requires Sound(t, h) && Whole(t, h, other) && other != k
    ensures Whole(Settle(t, h, k), h, other)
  {
    var j := Index(t[h(k)], k);
    if j < |t[h(k)]| {
      MoveCursorEffect(t, h, k, j, |t[h(k)][j].vals|, other);
    }
    assert Sound(Drain(t, h, k), h) && Whole(Drain(t, h, k), h, other);
    RewindWhole(Drain(t, h, k), h, k, other);
  }

  lemma AdvanceWhole(t: Table, h: Hash, k: string, other: string)
    requires Sound(t, h) && Pending(t, h, k) != [] && Whole(t, h, other) && other != k
    ensures Whole(Advance(t, h, k), h, other)
  {
    AdvancePending(t, h, k, other);
  }

  lemma FreshIsWhole(t: Table, h: Hash, k: string)
    requires Fits(h, |t|) && Fresh(t)
    ensures Whole(t, h, k)
  {
    var j := Index(t[h(k)], k);
    if j < |t[h(k)]| {
      assert t[h(k)][j].cursor == 0;
    }
  }

  // ----- the run -----

  /** The table after a left tuple that nothing disturbs. */
  function AfterLone(t: Table, h: Hash, l: Row, ops: seq<FilterOp>, lc: nat): (t': Table)
    requires forall k :: h(k) < |t|
    ensures |t'| == |t|
  {
    var k := l.StrCol(lc);
    if Pending(t, h, k) == [] then Rewind(t, h, k)
    else if Steady(l, lc, ops) then Settle(t, h, k)
    else Rewind(Advance(t, h, k), h, JoinValue(l, lc, true))
  }

  lemma StockedPending(t: Table, h: Hash, keys: seq<string>, k: string)
    requires Stocked(t, h, keys) && Whole(t, h, k)
    ensures Pending(t, h, k) == if k == "" then [] else Positions(keys, k)
    ensures Pending(t, h, k) == [] <==> k == "" || k !in keys
  {
  }

  lemma NotStocked(t: Table, h: Hash, keys: seq<string>, k: string)
    requires Stocked(t, h, keys) && (k == "" || k !in keys)
    ensures Whole(t, h, k) && Pending(t, h, k) == []
  {
    NoValuesWhole(t, h, k);
  }

  /** Another key that was whole stays so. */
  lemma LoneKeepsWhole(t: Table, h: Hash, l: Row, ops: seq<FilterOp>, lc: nat, keys: seq<string>, other: string)
    requires Stocked(t, h, keys) && Whole(t, h, other) && Stocked(AfterLone(t, h, l, ops, lc), h, keys)
    requires other != l.StrCol(lc) || other == "" || other !in keys
    ensures Whole(AfterLone(t, h, l, ops, lc), h, other)
  {
    var k := l.StrCol(lc);
    if other == "" || other !in keys {
      NotStocked(AfterLone(t, h, l, ops, lc), h, keys, other);
    } else if Pending(t, h, k) == [] {
      RewindWhole(t, h, k, other);
    } else if Steady(l, lc, ops) {
      SettleWhole(t, h, k, other);
    } else {
      AdvanceWhole(t, h, k, other);
      AdvancePending(t, h, k, other);
      RewindWhole(Advance(t, h, k), h, JoinValue(l, lc, true), other);
    }
    hide Whole, Stocked, Settle, Rewind, Advance, Pending, JoinValue, Row.StrCol, Steady;
  }

  /** A left tuple whose value is not found. */
  lemma LoneMiss(t: Table, h: Hash, l: Row, lefts: seq<Row>, rights: seq<Row>, ops: seq<FilterOp>, lc: nat, rc: nat)
    requires Typed(ops) && Stocked(t, h, Keys(rights, rc)) && Whole(t, h, l.StrCol(lc))
    requires Pending(t, h, l.StrCol(lc)) == []
    ensures LoneStep(t, h, l, lefts, rights, ops, lc, rc)
  {
    hide Stocked, RunFrom, Rewind, Pending, Whole, Keys, Row.StrCol, Steady;
    StockedPending(t, h, Keys(rights, rc), l.StrCol(lc));
    assert JoinValue(l, lc, false) == l.StrCol(lc);
    MissRun(t, h, l, false, lefts, rights, ops, lc, Keys(rights, rc));
    hide Stocked, RunFrom, Rewind, Pending, Whole, Keys, Row.StrCol, Steady, JoinValue;
  }

  /** A left tuple whose value stays what it is. */
  lemma LoneSteady(t: Table, h: Hash, l: Row, lefts: seq<Row>, rights: seq<Row>, ops: seq<FilterOp>, lc: nat, rc: nat)
    requires Typed(ops) && Stocked(t, h, Keys(rights, rc)) && Whole(t, h, l.StrCol(lc))
    requires Pending(t, h, l.StrCol(lc)) != [] && Steady(l, lc, ops)
    ensures LoneStep(t, h, l, lefts, rights, ops, lc, rc)
  {
    StockedPending(t, h, Keys(rights, rc), l.StrCol(lc));
    DrainRun(t, h, l, false, lefts, rights, ops, lc, rc);
    PositionsAreMatches(l, rights, ops, lc, rc);
    hide Stocked, RunFrom, Settle, Pending, Whole, Keys, Row.StrCol, Steady, Keyed, PairsOf;
  }

  /** A left tuple that is cast: one position is served, then nothing is found for it any more. */
  lemma LoneCast(t: Table, h: Hash, l: Row, lefts: seq<Row>, rights: seq<Row>, ops: seq<FilterOp>, lc: nat, rc: nat)
    requires Typed(ops) && Stocked(t, h, Keys(rights, rc)) && Whole(t, h, l.StrCol(lc))
    requires Pending(t, h, l.StrCol(lc)) != [] && !Steady(l, lc, ops) && Detached(l, lc, ops, Keys(rights, rc))
    ensures LoneStep(t, h, l, lefts, rights, ops, lc, rc)
  {
    var k, c, keys := l.StrCol(lc), JoinValue(l, lc, true), Keys(rights, rc);
    var t' := Advance(t, h, k);
    assert JoinValue(l, lc, false) == k && Casts(ops);
    StockedPending(t, h, keys, k);
    HitRun(t, h, l, false, lefts, rights, ops, lc, rc);
    NotStocked(t', h, keys, c);
    MissRun(t', h, l, true, lefts, rights, ops, lc, keys);
    hide Stocked, RunFrom, Advance, Rewind, Pending, Whole, Keys, Row.StrCol, JoinValue, On;
  }

  ghost predicate LoneStep(t: Table, h: Hash, l: Row, lefts: seq<Row>, rights: seq<Row>, ops: seq<FilterOp>,
                           lc: nat, rc: nat)
    requires Typed(ops) && forall k :: h(k) < |t|
  {
    var t' := AfterLone(t, h, l, ops, lc);
    && Stocked(t', h, Keys(rights, rc))
    && RunFrom(t, h, l, false, lefts, rights, ops, lc) ==
       LonePairs(l, rights, ops, lc, rc)
       + if lefts == [] then [] else RunFrom(t', h, lefts[0], false, lefts[1..], rights, ops, lc)
  }

  lemma IndependentRest(lefts: seq<Row>, lc: nat, ops: seq<FilterOp>, keys: seq<string>)
    requires lefts != [] && Independent(lefts, lc, ops, keys)
    ensures Detached(lefts[0], lc, ops, keys) && Independent(lefts[1..], lc, ops, keys)
    ensures forall i :: 0 <= i < |lefts[1..]| ==>
              var other := lefts[1..][i].StrCol(lc); other != lefts[0].StrCol(lc) || other == "" || other !in keys
  {
    hide Row.StrCol, Detached;
    forall i | 0 <= i < |lefts[1..]|
      ensures lefts[1..][i] == lefts[i + 1]
    {
    }
  }

  /** Every left tuple gets its pairs, and leaves the others theirs. */
  lemma {:induction false} LoneRuns(t: Table, h: Hash, lefts: seq<Row>, rights: seq<Row>, ops: seq<FilterOp>,
                                    lc: nat, rc: nat)
    requires Typed(ops) && Stocked(t, h, Keys(rights, rc)) && lefts != []
    requires Independent(lefts, lc, ops, Keys(rights, rc)) && AllWhole(t, h, lefts, lc)
    ensures RunFrom(t, h, lefts[0], false, lefts[1..], rights, ops, lc) == LoneRun(lefts, rights, ops, lc, rc)
    decreases lefts
  {
    var l, rest, keys := lefts[0], lefts[1..], Keys(rights, rc);
    IndependentRest(lefts, lc, ops, keys);
    assert Whole(t, h, l.StrCol(lc));
    if Pending(t, h, l.StrCol(lc)) == [] {
      LoneMiss(t, h, l, rest, rights, ops, lc, rc);
    } else if Steady(l, lc, ops) {
      LoneSteady(t, h, l, rest, rights, ops, lc, rc);
    } else {
      LoneCast(t, h, l, rest, rights, ops, lc, rc);
    }
    if rest != [] {
      var t' := AfterLone(t, h, l, ops, lc);
      forall i | 0 <= i < |rest|
        ensures Whole(t', h, rest[i].StrCol(lc))
      {
        assert rest[i] == lefts[i + 1];
        LoneKeepsWhole(t, h, l, ops, lc, keys, rest[i].StrCol(lc));
      }
      LoneRuns(t', h, rest, rights, ops, lc, rc);
    }
    hide Whole, RunFrom, LonePairs, AfterLone, Stocked, Independent, Pending, Steady, Row.StrCol;
  }

  /** On independent left tuples the run gives each of them its own pairs. */
  lemma IndependentRuns(lefts: seq<Row>, rights: seq<Row>, ops: seq<FilterOp>, lc: nat, rc: nat, h: Hash, size: nat)
    requires Fits(h, size) && Typed(ops) && Independent(lefts, lc, ops, Keys(rights, rc))
    ensures HashJoinRun(lefts, rights, ops, lc, rc, h, size) == LoneRun(lefts, rights, ops, lc, rc)
  {
    var built := Build(Keys(rights, rc), h, size);
    FirstProbe(lefts, rights, ops, lc, rc, h, size);
    BuildFresh(Keys(rights, rc), h, size);
    forall i | 0 <= i < |lefts|
      ensures Whole(built, h, lefts[i].StrCol(lc))
    {
      FreshIsWhole(built, h, lefts[i].StrCol(lc));
    }
    if lefts != [] {
      LoneRuns(built, h, lefts, rights, ops, lc, rc);
    }
    hide Build, Stocked, Fresh, RunFrom, Whole, Independent, HashJoinRun;
  }

  // ----- exactly when that is the join -----

  /** The matches of the left tuple have its value, which is not empty; and if that does not stay what
      it is, only the first right tuple with this value can be one. */
  ghost predicate LoneComplete(l: Row, rights: seq<Row>, ops: seq<FilterOp>, lc: nat, rc: nat)
    requires Typed(ops)
  {
    forall m :: 0 <= m < |rights| && On(l, rights[m], ops) ==>
      && l.StrCol(lc) == rights[m].StrCol(rc) != ""
      && (Steady(l, lc, ops) || forall j :: 0 <= j < m ==> rights[j].StrCol(rc) != l.StrCol(lc))
  }

  lemma {:induction false} FirstPosition(keys: seq<string>, k: string)
    requires k in keys
    ensures var p := Positions(keys, k)[0];
            p < |keys| && keys[p] == k && forall j :: 0 <= j < p ==> keys[j] != k
  {
    var n := |keys| - 1;
    if k in keys[..n] {
      FirstPosition(keys[..n], k);
    } else {
      assert keys == keys[..n] + [keys[n]];
      assert Positions(keys[..n], k) == [];
      assert forall j :: 0 <= j < n ==> keys[j] == keys[..n][j];
    }
  }

  /** A single pair is all of the matches exactly when no other right tuple matches. */
  lemma {:induction false} OnlyMatchIff(l: Row, rights: seq<Row>, p: nat, ops: seq<FilterOp>)
    requires Typed(ops) && p < |rights|
    ensures var one, all := PairAt(l, rights, p, ops), Matches(l, rights, ops);
            && |one| <= |all| && (one != all ==> |one| < |all|)
            && (one == all <==> forall m :: 0 <= m < |rights| && m != p ==> !On(l, rights[m], ops))
  {
    hide On;
    if p == 0 {
      NoMatchIff(l, rights[1..], ops);
      assert forall m :: 0 < m < |rights| ==> rights[m] == rights[1..][m - 1];
    } else {
      OnlyMatchIff(l, rights[1..], p - 1, ops);
      assert PairAt(l, rights, p, ops) == PairAt(l, rights[1..], p - 1, ops);
      assert forall m :: 0 < m < |rights| ==> rights[m] == rights[1..][m - 1];
    }
  }

  /** A value that is not found. */
  lemma NoValueIff(l: Row, rights: seq<Row>, ops: seq<FilterOp>, lc: nat, rc: nat)
    requires Typed(ops) && (l.StrCol(lc) == "" || l.StrCol(lc) !in Keys(rights, rc))
    ensures LoneComplete(l, rights, ops, lc, rc) <==> Matches(l, rights, ops) == []
  {
    NoMatchIff(l, rights, ops);
    assert forall m :: 0 <= m < |rights| ==> rights[m].StrCol(rc) == Keys(rights, rc)[m];
    hide On, Row.StrCol, Matches, Steady;
  }

  /** A value that stays what it is. */
  lemma SteadyIff(l: Row, rights: seq<Row>, ops: seq<FilterOp>, lc: nat, rc: nat)
    requires Typed(ops) && l.StrCol(lc) != "" && Steady(l, lc, ops)
    ensures LoneComplete(l, rights, ops, lc, rc) <==> |Keyed(l, rights, ops, lc, rc)| == |Matches(l, rights, ops)|
  {
    KeyedIff(l, rights, ops, lc, rc);
    hide On, Row.StrCol, Keyed, Matches, Steady;
  }

  /** A value that is lost to the cast. */
  lemma CastIff(l: Row, rights: seq<Row>, ops: seq<FilterOp>, lc: nat, rc: nat)
    requires Typed(ops) && l.StrCol(lc) != "" && l.StrCol(lc) in Keys(rights, rc) && !Steady(l, lc, ops)
    ensures var p := Positions(Keys(rights, rc), l.StrCol(lc))[0];
            && p < |rights|
            && (LoneComplete(l, rights, ops, lc, rc) <==>
                  forall m :: 0 <= m < |rights| && m != p ==> !On(l, rights[m], ops))
  {
    FirstPosition(Keys(rights, rc), l.StrCol(lc));
    assert forall m :: 0 <= m < |rights| ==> rights[m].StrCol(rc) == Keys(rights, rc)[m];
    hide On, Row.StrCol, Steady, Positions;
  }

  lemma LonePairsIff(l: Row, rights: seq<Row>, ops: seq<FilterOp>, lc: nat, rc: nat)
    requires Typed(ops)
    ensures var part, all := LonePairs(l, rights, ops, lc, rc), Matches(l, rights, ops);
            && |part| <= |all| && (part != all ==> |part| < |all|)
            && (part == all <==> LoneComplete(l, rights, ops, lc, rc))
  {
    var keys, k := Keys(rights, rc), l.StrCol(lc);
    if k == "" || k !in keys {
      NoValueIff(l, rights, ops, lc, rc);
    } else if Steady(l, lc, ops) {
      SteadyIff(l, rights, ops, lc, rc);
      KeyedIff(l, rights, ops, lc, rc);
    } else {
      CastIff(l, rights, ops, lc, rc);
      OnlyMatchIff(l, rights, Positions(keys, k)[0], ops);
    }
    hide On, Row.StrCol, Keyed, Matches, Steady, PairAt, LoneComplete, Keys, Positions;
  }

  lemma {:induction false} LoneRunIff(lefts: seq<Row>, rights: seq<Row>, ops: seq<FilterOp>, lc: nat, rc: nat)
    requires Typed(ops)
    ensures var run, all := LoneRun(lefts, rights, ops, lc, rc), Join(lefts, rights, ops);
            && |run| <= |all| && (run != all ==> |run| < |all|)
            && (run == all <==> forall i :: 0 <= i < |lefts| ==> LoneComplete(lefts[i], rights, ops, lc, rc))
  {
    if lefts != [] {
      LonePairsIff(lefts[0], rights, ops, lc, rc);
      LoneRunIff(lefts[1..], rights, ops, lc, rc);
      hide LonePairs, LoneComplete, Matches;
      assert forall i :: 0 < i < |lefts| ==> lefts[i] == lefts[1..][i - 1];
    }
  }

  /** On independent left tuples the hash join emits exactly the join if and only if the matches of
      each are spelled like it, and a cast one has no second match. */
  lemma IndependentIsJoinIff(lefts: seq<Row>, rights: seq<Row>, ops: seq<FilterOp>, lc: nat, rc: nat, h: Hash,
                             size: nat)
    requires Fits(h, size) && Typed(ops) && Independent(lefts, lc, ops, Keys(rights, rc))
    ensures HashJoinRun(lefts, rights, ops, lc, rc, h, size) == Join(lefts, rights, ops) <==>
            forall i :: 0 <= i < |lefts| ==> LoneComplete(lefts[i], rights, ops, lc, rc)
  {
    IndependentRuns(lefts, rights, ops, lc, rc, h, size);
    LoneRunIff(lefts, rights, ops, lc, rc);
    hide *;
  }
}
