/** What the hash join serves while the values it looks up stay what they are, as they do for text,
    for stored longs and for a number in the first column; and exactly when that is the join. */
module HashJoinServed {
  import opened Tuples
  import opened Filter
  import opened HashTable
  import opened JoinSpec
  import opened HashJoinSpec

  /** Casting does not change what is looked up for the left tuple. */
  predicate Steady(l: Row, lc: nat, ops: seq<FilterOp>) {
    Casts(ops) ==> JoinValue(l, lc, true) == l.StrCol(lc)
  }

  ghost predicate AllSteady(lefts: seq<Row>, lc: nat, ops: seq<FilterOp>) {
    forall i :: 0 <= i < |lefts| ==> Steady(lefts[i], lc, ops)
  }

  /** For text, for stored longs and for the first column of a line. */
  lemma SteadyCases(l: Row, lc: nat, ops: seq<FilterOp>)
    requires !Casts(ops) || l.kind == TPL_TDB || l.Offset(lc) == 0
    ensures Steady(l, lc, ops)
  {
  }

  // ----- the run, left tuple by left tuple -----

  /** The matches of the left tuple among the right tuples at the given positions. */
  function PairsOf(l: Row, rights: seq<Row>, at: seq<nat>, ops: seq<FilterOp>): seq<Pair>
    requires Typed(ops)
  {
    if at == [] then [] else PairAt(l, rights, at[0], ops) + PairsOf(l, rights, at[1..], ops)
  }

  /** The table once all pairs of a left key are emitted: its values are used up, and the head
      of its bucket is rewound. */
  function Settle(t: Table, h: Hash, k: string): (t': Table)
    requires h(k) < |t|
    ensures |t'| == |t|
  {
    Rewind(Drain(t, h, k), h, k)
  }

  /** Every left tuple drains the positions of its key. */
  function HashRun(t: Table, h: Hash, lefts: seq<Row>, rights: seq<Row>, ops: seq<FilterOp>, lc: nat): seq<Pair>
    requires Typed(ops) && forall k :: h(k) < |t|
    decreases lefts
  {
    if lefts == [] then []
    else
      var k := lefts[0].StrCol(lc);
      PairsOf(lefts[0], rights, Pending(t, h, k), ops) + HashRun(Settle(t, h, k), h, lefts[1..], rights, ops, lc)
  }

  lemma MoveTwice(t: Table, h: Hash, k: string, j: nat, c: nat, d: nat)
    requires h(k) < |t| && j < |t[h(k)]|
    ensures MoveCursor(MoveCursor(t, h, k, j, c), h, k, j, d) == MoveCursor(t, h, k, j, d)
  {
    var b, e := t[h(k)], t[h(k)][j];
    assert b[j := e.(cursor := c)][j := e.(cursor := d)] == b[j := e.(cursor := d)];
  }

  lemma MissStep(t: Table, h: Hash, k: string)
    requires Fits(h, |t|) && Sound(t, h) && Pending(t, h, k) == []
    ensures Rewind(t, h, k) == Settle(t, h, k)
  {
    var j := Index(t[h(k)], k);
    if j < |t[h(k)]| {
      SameCursor(t, h, k, j, |t[h(k)][j].vals|);
    }
  }

  lemma HitStep(t: Table, h: Hash, k: string)
    requires Fits(h, |t|) && Sound(t, h) && Pending(t, h, k) != []
    ensures Settle(Advance(t, h, k), h, k) == Settle(t, h, k)
  {
    var j := Index(t[h(k)], k);
    var t' := Advance(t, h, k);
    SameKeys(t[h(k)], t'[h(k)], k);
    MoveTwice(t, h, k, j, t[h(k)][j].cursor + 1, |t[h(k)][j].vals|);
  }

  lemma SteadyValue(l: Row, casted: bool, lc: nat, ops: seq<FilterOp>)
    requires Steady(l, lc, ops) && (casted ==> Casts(ops))
    ensures JoinValue(l, lc, casted) == l.StrCol(lc)
  {
  }

  /** Probe by probe, a steady left tuple drains the positions of its key. */
  lemma {:induction false} DrainRun(t: Table, h: Hash, l: Row, casted: bool, lefts: seq<Row>, rights: seq<Row>,
                                    ops: seq<FilterOp>, lc: nat, rc: nat)
    requires Typed(ops) && Stocked(t, h, Keys(rights, rc)) && Steady(l, lc, ops) && (casted ==> Casts(ops))
    ensures var k := l.StrCol(lc);
            && Stocked(Settle(t, h, k), h, Keys(rights, rc))
            && RunFrom(t, h, l, casted, lefts, rights, ops, lc) ==
               PairsOf(l, rights, Pending(t, h, k), ops)
               + if lefts == [] then []
                 else RunFrom(Settle(t, h, k), h, lefts[0], false, lefts[1..], rights, ops, lc)
    decreases |Pending(t, h, l.StrCol(lc))|
  {
    var k := l.StrCol(lc);
    SteadyValue(l, casted, lc, ops);
    if Pending(t, h, k) == [] {
      MissRun(t, h, l, casted, lefts, rights, ops, lc, Keys(rights, rc));
      MissStep(t, h, k);
      hide Stocked, Settle, RunFrom, Rewind, Steady, Pending, JoinValue;
    } else {
      HitRun(t, h, l, casted, lefts, rights, ops, lc, rc);
      AdvanceStocked(t, h, k, Keys(rights, rc));
      HitStep(t, h, k);
      DrainRun(Advance(t, h, k), h, l, casted || Casts(ops), lefts, rights, ops, lc, rc);
      var p, rest := Pending(t, h, k)[0], Pending(Advance(t, h, k), h, k);
      var more := if lefts == [] then []
                  else RunFrom(Settle(t, h, k), h, lefts[0], false, lefts[1..], rights, ops, lc);
      NextPosition(l, rights, p, rest, ops, more);
      hide Stocked, Settle, RunFrom, Advance, Steady, Pending, JoinValue, PairsOf;
    }
  }

  lemma {:induction false} SteadyRun(t: Table, h: Hash, l: Row, lefts: seq<Row>, rights: seq<Row>,
                                     ops: seq<FilterOp>, lc: nat, rc: nat)
    requires Typed(ops) && Stocked(t, h, Keys(rights, rc)) && Steady(l, lc, ops) && AllSteady(lefts, lc, ops)
    ensures var k := l.StrCol(lc);
            RunFrom(t, h, l, false, lefts, rights, ops, lc) ==
              PairsOf(l, rights, Pending(t, h, k), ops) + HashRun(Settle(t, h, k), h, lefts, rights, ops, lc)
    decreases lefts
  {
    DrainRun(t, h, l, false, lefts, rights, ops, lc, rc);
    if lefts != [] {
      assert Steady(lefts[0], lc, ops) && AllSteady(lefts[1..], lc, ops);
      SteadyRun(Settle(t, h, l.StrCol(lc)), h, lefts[0], lefts[1..], rights, ops, lc, rc);
    }
    hide Stocked, Settle, RunFrom, Steady, Pending, PairsOf;
  }

  lemma NextPosition(l: Row, rights: seq<Row>, p: nat, at: seq<nat>, ops: seq<FilterOp>, more: seq<Pair>)
    requires Typed(ops) && p < |rights|
    ensures PairsOf(l, rights, [p] + at, ops) + more ==
            (if On(l, rights[p], ops) then [(l, rights[p])] else []) + (PairsOf(l, rights, at, ops) + more)
  {
    hide On;
    assert ([p] + at)[1..] == at;
  }

  // ----- which pairs are served -----

  function Spend(keys: seq<string>, h: Hash, k: string, spent: set<string>): set<string> {
    if Chained(keys, h, k) then spent + {k} else spent
  }

  /** The table during the probe phase, between two left tuples: the entries that were built;
      heads rewound, and past the heads the spent keys used up. */
  ghost predicate Resting(t: Table, built: Table, spent: set<string>) {
    |t| == |built|
    && (forall b :: 0 <= b < |t| ==> |t[b]| == |built[b]|)
    && (forall b, j :: 0 <= b < |t| && 0 <= j < |t[b]| ==>
          var e, e0 := t[b][j], built[b][j];
          e.key == e0.key && e.vals == e0.vals
          && e.cursor == (if j > 0 && e.key in spent then |e.vals| else 0))
  }

  lemma FreshRests(t: Table)
    requires Fresh(t)
    ensures Resting(t, t, {})
  {
  }

  lemma RestingIndex(t: Table, built: Table, h: Hash, spent: set<string>, k: string)
    requires Resting(t, built, spent) && h(k) < |t|
    ensures Index(t[h(k)], k) == Index(built[h(k)], k)
  {
    SameKeys(built[h(k)], t[h(k)], k);
  }

  /** What a left key finds in a resting table, and that the table rests again afterwards. */
  lemma RestingStep(t: Table, h: Hash, keys: seq<string>, spent: set<string>, k: string)
    requires Fits(h, |t|) && Resting(t, Build(keys, h, |t|), spent)
    ensures Pending(t, h, k) ==
            if k == "" || (Chained(keys, h, k) && k in spent) then [] else Positions(keys, k)
    ensures Resting(Settle(t, h, k), Build(keys, h, |t|), Spend(keys, h, k, spent))
  {
    var built := Build(keys, h, |t|);
    BuildIsMultimap(keys, h, |t|, k);
    ChainedIsPastHead(keys, h, |t|, k);
    RestingIndex(t, built, h, spent, k);
    SettleRests(t, h, built, spent, k, Spend(keys, h, k, spent));
  }

  /** Settling a key rewinds the head of its bucket, and else uses up the key. */
  lemma SettleEntry(t: Table, h: Hash, k: string, b: nat, i: nat)
    requires h(k) < |t| && b < |t| && i < |t[b]|
    ensures var t', j := Settle(t, h, k), Index(t[h(k)], k);
            && |t'[b]| == |t[b]|
            && t'[b][i] == if b != h(k) || i !in {0, j} then t[b][i]
                           else t[b][i].(cursor := if i == 0 then 0 else |t[b][i].vals|)
  {
  }

  lemma SettleRests(t: Table, h: Hash, built: Table, spent: set<string>, k: string, spent': set<string>)
    requires h(k) < |t| && Resting(t, built, spent) && Sound(built, h)
    requires spent' == if 0 < Index(t[h(k)], k) < |t[h(k)]| then spent + {k} else spent
    ensures Resting(Settle(t, h, k), built, spent')
  {
    var t': Table := Settle(t, h, k);
    var j := Index(t[h(k)], k);
    forall b | 0 <= b < |t|
      ensures |t'[b]| == |built[b]|
    {
      if t[b] != [] {
        SettleEntry(t, h, k, b, 0);
      }
    }
    forall b, i | 0 <= b < |t'| && 0 <= i < |t'[b]|
      ensures var e, e0 := t'[b][i], built[b][i];
              e.key == e0.key && e.vals == e0.vals
              && e.cursor == (if i > 0 && e.key in spent' then |e.vals| else 0)
    {
      SettleEntry(t, h, k, b, i);
      assert built[b][i].key == k ==> b == h(k);
      assert b == h(k) && built[b][i].key == k ==> i == j;
    }
    hide Settle;
  }

  /** The matches of a left tuple that have its key, too. */
  function Keyed(l: Row, rights: seq<Row>, ops: seq<FilterOp>, lc: nat, rc: nat): seq<Pair>
    requires Typed(ops)
  {
    if rights == [] then []
    else
      (if l.StrCol(lc) == rights[0].StrCol(rc) && On(l, rights[0], ops) then [(l, rights[0])] else [])
      + Keyed(l, rights[1..], ops, lc, rc)
  }

  lemma {:induction false} KeyedAppend(l: Row, rights: seq<Row>, r: Row, ops: seq<FilterOp>, lc: nat, rc: nat)
    requires Typed(ops)
    ensures Keyed(l, rights + [r], ops, lc, rc) ==
            Keyed(l, rights, ops, lc, rc)
            + (if l.StrCol(lc) == r.StrCol(rc) && On(l, r, ops) then [(l, r)] else [])
  {
    hide On, Row.StrCol;
    if rights == [] {
      assert rights + [r] == [r] && [r][1..] == [];
    } else {
      assert (rights + [r])[1..] == rights[1..] + [r];
      KeyedAppend(l, rights[1..], r, ops, lc, rc);
    }
  }

  lemma {:induction false} PairsAppend(l: Row, rights: seq<Row>, a: seq<nat>, p: nat, ops: seq<FilterOp>)
    requires Typed(ops)
    ensures PairsOf(l, rights, a + [p], ops) == PairsOf(l, rights, a, ops) + PairAt(l, rights, p, ops)
  {
    hide PairAt;
    if a == [] {
      assert a + [p] == [p] && [p][1..] == [];
    } else {
      assert (a + [p])[1..] == a[1..] + [p];
      PairsAppend(l, rights, a[1..], p, ops);
    }
  }

  lemma {:induction false} PairsOfPrefix(l: Row, rights: seq<Row>, at: seq<nat>, n: nat, ops: seq<FilterOp>)
    requires Typed(ops) && n <= |rights| && forall i :: 0 <= i < |at| ==> at[i] < n
    ensures PairsOf(l, rights[..n], at, ops) == PairsOf(l, rights, at, ops)
  {
    hide On;
    if at != [] {
      PairsOfPrefix(l, rights, at[1..], n, ops);
    }
  }

  lemma LastPosition(rights: seq<Row>, rc: nat, k: string)
    requires rights != []
    ensures var n := |rights| - 1;
            && rights == rights[..n] + [rights[n]]
            && Positions(Keys(rights, rc), k) ==
               Positions(Keys(rights[..n], rc), k) + (if rights[n].StrCol(rc) == k then [n] else [])
            && forall i :: 0 <= i < |Positions(Keys(rights[..n], rc), k)| ==>
                 Positions(Keys(rights[..n], rc), k)[i] < n
  {
    var n := |rights| - 1;
    assert Keys(rights[..n], rc) == Keys(rights, rc)[..n];
  }

  /** The positions stored for the key of a left tuple lead to its matches with that key, in order. */
  lemma {:induction false} PositionsAreMatches(l: Row, rights: seq<Row>, ops: seq<FilterOp>, lc: nat, rc: nat)
    requires Typed(ops)
    ensures PairsOf(l, rights, Positions(Keys(rights, rc), l.StrCol(lc)), ops) == Keyed(l, rights, ops, lc, rc)
  {
    if rights != [] {
      var n, k := |rights| - 1, l.StrCol(lc);
      var before := Positions(Keys(rights[..n], rc), k);
      PositionsAreMatches(l, rights[..n], ops, lc, rc);
      LastPosition(rights, rc, k);
      PairsOfPrefix(l, rights, before, n, ops);
      PairsAppend(l, rights, before, n, ops);
      KeyedAppend(l, rights[..n], rights[n], ops, lc, rc);
      hide Keyed, PairsOf, Positions, Keys, Row.StrCol, On;
      assert before + [] == before;
    }
  }

  /** What the run emits: for every left tuple its matches with its key, but nothing for the empty
      key, nor for a key past the head of its bucket when it comes again. */
  function ServedRun(lefts: seq<Row>, rights: seq<Row>, ops: seq<FilterOp>, lc: nat, rc: nat, h: Hash,
                     spent: set<string>): seq<Pair>
    requires Typed(ops)
    decreases lefts
  {
    if lefts == [] then []
    else
      var k := lefts[0].StrCol(lc);
      (if k == "" || k in spent then [] else Keyed(lefts[0], rights, ops, lc, rc))
      + ServedRun(lefts[1..], rights, ops, lc, rc, h, Spend(Keys(rights, rc), h, k, spent))
  }

  lemma PairsOfLeft(t: Table, h: Hash, l: Row, rights: seq<Row>, ops: seq<FilterOp>, lc: nat, rc: nat,
                    spent: set<string>)
    requires Fits(h, |t|) && Typed(ops) && Resting(t, Build(Keys(rights, rc), h, |t|), spent)
    requires forall k :: k in spent ==> Chained(Keys(rights, rc), h, k)
    ensures var k := l.StrCol(lc);
            PairsOf(l, rights, Pending(t, h, k), ops) ==
              if k == "" || k in spent then [] else Keyed(l, rights, ops, lc, rc)
  {
    RestingStep(t, h, Keys(rights, rc), spent, l.StrCol(lc));
    PositionsAreMatches(l, rights, ops, lc, rc);
    hide Resting, Build, Pending, Keyed, Settle;
  }

  lemma {:induction false} RunServes(t: Table, h: Hash, lefts: seq<Row>, rights: seq<Row>, ops: seq<FilterOp>,
                                     lc: nat, rc: nat, spent: set<string>)
    requires Fits(h, |t|) && Typed(ops) && Resting(t, Build(Keys(rights, rc), h, |t|), spent)
    requires forall k :: k in spent ==> Chained(Keys(rights, rc), h, k)
    ensures HashRun(t, h, lefts, rights, ops, lc) == ServedRun(lefts, rights, ops, lc, rc, h, spent)
    decreases lefts
  {
    if lefts != [] {
      var keys, l := Keys(rights, rc), lefts[0];
      var k := l.StrCol(lc);
      RestingStep(t, h, keys, spent, k);
      RunServes(Settle(t, h, k), h, lefts[1..], rights, ops, lc, rc, Spend(keys, h, k, spent));
      PairsOfLeft(t, h, l, rights, ops, lc, rc, spent);
      hide Settle, Resting, Build, Pending, Keyed, PairsOf, Keys, Row.StrCol;
    }
  }

  /** For steady left tuples the run is exactly what is served. */
  lemma SteadyRunServes(lefts: seq<Row>, rights: seq<Row>, ops: seq<FilterOp>, lc: nat, rc: nat, h: Hash, size: nat)
    requires Fits(h, size) && Typed(ops) && AllSteady(lefts, lc, ops)
    ensures HashJoinRun(lefts, rights, ops, lc, rc, h, size) == ServedRun(lefts, rights, ops, lc, rc, h, {})
  {
    var built := Build(Keys(rights, rc), h, size);
    FirstProbe(lefts, rights, ops, lc, rc, h, size);
    BuildFresh(Keys(rights, rc), h, size);
    FreshRests(built);
    RunServes(built, h, lefts, rights, ops, lc, rc, {});
    if lefts != [] {
      assert Steady(lefts[0], lc, ops) && AllSteady(lefts[1..], lc, ops);
      SteadyRun(built, h, lefts[0], lefts[1..], rights, ops, lc, rc);
    }
    hide Build, Keys, Stocked, Resting, Fresh, RunFrom, ServedRun, Steady, Pending, Settle, PairsOf, HashJoinRun;
  }

  // ----- exactly when that is the join -----

  /** The pair of the left tuple `i` and the right tuple `m` is served: they have the same key, which
      is not empty, nor one past the head of its bucket that an earlier left tuple has used up. */
  ghost predicate ServesPair(lefts: seq<Row>, rights: seq<Row>, lc: nat, rc: nat, h: Hash, spent: set<string>,
                             i: nat, m: nat)
    requires i < |lefts| && m < |rights|
  {
    var k := lefts[i].StrCol(lc);
    && k == rights[m].StrCol(rc) && k != "" && k !in spent
    && (Chained(Keys(rights, rc), h, k) ==> !Earlier(lefts, lc, i, k))
  }

  ghost predicate Earlier(lefts: seq<Row>, lc: nat, i: nat, k: string)
    requires i <= |lefts|
  {
    exists j :: 0 <= j < i && lefts[j].StrCol(lc) == k
  }

  /** Every pair that matches is served. */
  ghost predicate Complete(lefts: seq<Row>, rights: seq<Row>, ops: seq<FilterOp>, lc: nat, rc: nat, h: Hash,
                           spent: set<string>)
    requires Typed(ops)
  {
    forall i, m :: 0 <= i < |lefts| && 0 <= m < |rights| && On(lefts[i], rights[m], ops) ==>
      ServesPair(lefts, rights, lc, rc, h, spent, i, m)
  }

  /** The first left tuple is served with all its matches. */
  ghost predicate FirstComplete(l: Row, rights: seq<Row>, ops: seq<FilterOp>, lc: nat, rc: nat, spent: set<string>)
    requires Typed(ops)
  {
    forall m :: 0 <= m < |rights| && On(l, rights[m], ops) ==>
      l.StrCol(lc) == rights[m].StrCol(rc) && l.StrCol(lc) != "" && l.StrCol(lc) !in spent
  }

  lemma {:induction false} KeyedIff(l: Row, rights: seq<Row>, ops: seq<FilterOp>, lc: nat, rc: nat)
    requires Typed(ops)
    ensures var keyed, all := Keyed(l, rights, ops, lc, rc), Matches(l, rights, ops);
            && |keyed| <= |all| && (|keyed| == |all| ==> keyed == all)
            && (|keyed| == |all| <==>
                  forall m :: 0 <= m < |rights| && On(l, rights[m], ops) ==> l.StrCol(lc) == rights[m].StrCol(rc))
  {
    hide On, Row.StrCol;
    if rights != [] {
      KeyedIff(l, rights[1..], ops, lc, rc);
      assert forall m :: 0 < m < |rights| ==> rights[m] == rights[1..][m - 1];
    }
  }

  lemma {:induction false} NoMatchIff(l: Row, rights: seq<Row>, ops: seq<FilterOp>)
    requires Typed(ops)
    ensures Matches(l, rights, ops) == [] <==> forall m :: 0 <= m < |rights| ==> !On(l, rights[m], ops)
  {
    hide On;
    if rights != [] {
      NoMatchIff(l, rights[1..], ops);
      assert forall m :: 0 < m < |rights| ==> rights[m] == rights[1..][m - 1];
    }
  }

  /** Of the first left tuple. */
  lemma FirstServedIff(l: Row, rights: seq<Row>, ops: seq<FilterOp>, lc: nat, rc: nat, spent: set<string>)
    requires Typed(ops)
    ensures var k := l.StrCol(lc);
            var part := if k == "" || k in spent then [] else Keyed(l, rights, ops, lc, rc);
            && |part| <= |Matches(l, rights, ops)|
            && (part == Matches(l, rights, ops) <==> FirstComplete(l, rights, ops, lc, rc, spent))
            && (part != Matches(l, rights, ops) ==> |part| < |Matches(l, rights, ops)|)
  {
    KeyedIff(l, rights, ops, lc, rc);
    NoMatchIff(l, rights, ops);
    hide On, Row.StrCol, Keyed, Matches;
  }

  lemma SpendIn(keys: seq<string>, h: Hash, k: string, spent: set<string>, other: string)
    ensures other in Spend(keys, h, k, spent) <==> other in spent || (other == k && Chained(keys, h, k))
  {
    hide Chained;
  }

  lemma EarlierNext(lefts: seq<Row>, lc: nat, i: nat, k: string)
    requires 0 < i <= |lefts|
    ensures Earlier(lefts, lc, i, k) <==> lefts[0].StrCol(lc) == k || Earlier(lefts[1..], lc, i - 1, k)
  {
    hide Row.StrCol;
    if j :| 0 <= j < i - 1 && lefts[1..][j].StrCol(lc) == k {
      assert lefts[j + 1].StrCol(lc) == k;
    }
    if j :| 0 <= j < i && lefts[j].StrCol(lc) == k {
      assert j > 0 ==> lefts[1..][j - 1].StrCol(lc) == k;
    }
  }

  /** A later pair is served with what the first left tuple spends. */
  lemma ServesNext(lefts: seq<Row>, rights: seq<Row>, lc: nat, rc: nat, h: Hash, spent: set<string>, i: nat, m: nat)
    requires 0 < i < |lefts| && m < |rights|
    ensures ServesPair(lefts, rights, lc, rc, h, spent, i, m) <==>
            ServesPair(lefts[1..], rights, lc, rc, h, Spend(Keys(rights, rc), h, lefts[0].StrCol(lc), spent), i - 1, m)
  {
    var k := lefts[i].StrCol(lc);
    EarlierNext(lefts, lc, i, k);
    SpendIn(Keys(rights, rc), h, lefts[0].StrCol(lc), spent, k);
    hide Row.StrCol, Chained, Earlier, Spend, Keys;
  }

  lemma CompleteStep(lefts: seq<Row>, rights: seq<Row>, ops: seq<FilterOp>, lc: nat, rc: nat, h: Hash,
                     spent: set<string>)
    requires Typed(ops) && lefts != []
    ensures Complete(lefts, rights, ops, lc, rc, h, spent) <==>
            && FirstComplete(lefts[0], rights, ops, lc, rc, spent)
            && Complete(lefts[1..], rights, ops, lc, rc, h, Spend(Keys(rights, rc), h, lefts[0].StrCol(lc), spent))
  {
    var rest, spent' := lefts[1..], Spend(Keys(rights, rc), h, lefts[0].StrCol(lc), spent);
    forall m | 0 <= m < |rights|
      ensures ServesPair(lefts, rights, lc, rc, h, spent, 0, m) <==>
              lefts[0].StrCol(lc) == rights[m].StrCol(rc) && lefts[0].StrCol(lc) != "" && lefts[0].StrCol(lc) !in spent
    {
    }
    forall i, m | 0 < i < |lefts| && 0 <= m < |rights|
      ensures ServesPair(lefts, rights, lc, rc, h, spent, i, m) <==>
              ServesPair(rest, rights, lc, rc, h, spent', i - 1, m)
    {
      ServesNext(lefts, rights, lc, rc, h, spent, i, m);
    }
    hide ServesPair, On, Row.StrCol, Spend;
    if Complete(rest, rights, ops, lc, rc, h, spent') && FirstComplete(lefts[0], rights, ops, lc, rc, spent) {
      forall i, m | 0 <= i < |lefts| && 0 <= m < |rights| && On(lefts[i], rights[m], ops)
        ensures ServesPair(lefts, rights, lc, rc, h, spent, i, m)
      {
        if i > 0 {
          assert rest[i - 1] == lefts[i];
        }
      }
    }
    if Complete(lefts, rights, ops, lc, rc, h, spent) {
      forall i, m | 0 <= i < |rest| && 0 <= m < |rights| && On(rest[i], rights[m], ops)
        ensures ServesPair(rest, rights, lc, rc, h, spent', i, m)
      {
        assert lefts[i + 1] == rest[i];
        assert ServesPair(lefts, rights, lc, rc, h, spent, i + 1, m);
      }
    }
  }

  lemma {:induction false} ServedIsAllIff(lefts: seq<Row>, rights: seq<Row>, ops: seq<FilterOp>, lc: nat, rc: nat,
                                          h: Hash, spent: set<string>)
    requires Typed(ops)
    ensures var served, all := ServedRun(lefts, rights, ops, lc, rc, h, spent), Join(lefts, rights, ops);
            && |served| <= |all|
            && (served == all <==> Complete(lefts, rights, ops, lc, rc, h, spent))
            && (served != all ==> |served| < |all|)
    decreases lefts
  {
    if lefts != [] {
      var spent' := Spend(Keys(rights, rc), h, lefts[0].StrCol(lc), spent);
      FirstServedIff(lefts[0], rights, ops, lc, rc, spent);
      ServedIsAllIff(lefts[1..], rights, ops, lc, rc, h, spent');
      CompleteStep(lefts, rights, ops, lc, rc, h, spent);
      hide Complete, FirstComplete, Keyed, Matches, Spend, Row.StrCol, Keys;
    }
  }

  /** For steady left tuples the hash join emits exactly the join, in its order and with its
      duplicates, if and only if every pair that matches is served. */
  lemma SteadyIsJoinIff(lefts: seq<Row>, rights: seq<Row>, ops: seq<FilterOp>, lc: nat, rc: nat, h: Hash, size: nat)
    requires Fits(h, size) && Typed(ops) && AllSteady(lefts, lc, ops)
    ensures HashJoinRun(lefts, rights, ops, lc, rc, h, size) == Join(lefts, rights, ops) <==>
            Complete(lefts, rights, ops, lc, rc, h, {})
  {
    SteadyRunServes(lefts, rights, ops, lc, rc, h, size);
    ServedIsAllIff(lefts, rights, ops, lc, rc, h, {});
    hide *;
  }

  // ----- text -----

  /** The left tuples without those with an empty key, and without the second and later
      occurrences of a key that sits past the head of its bucket. */
  function Served(lefts: seq<Row>, lc: nat, keys: seq<string>, h: Hash, spent: set<string>): seq<Row> {
    if lefts == [] then []
    else
      var k := lefts[0].StrCol(lc);
      var rest := Served(lefts[1..], lc, keys, h, Spend(keys, h, k, spent));
      if k == "" || k in spent then rest else [lefts[0]] + rest
  }

  lemma JoinCons(l: Row, lefts: seq<Row>, rights: seq<Row>, ops: seq<FilterOp>)
    requires Typed(ops)
    ensures Join([l] + lefts, rights, ops) == Matches(l, rights, ops) + Join(lefts, rights, ops)
  {
    assert ([l] + lefts)[1..] == lefts;
  }

  lemma {:induction false} TextKeyed(l: Row, rights: seq<Row>, ops: seq<FilterOp>, lc: nat, rc: nat)
    requires StringEquality(ops, lc, rc) && Typed(ops)
    ensures Keyed(l, rights, ops, lc, rc) == Matches(l, rights, ops)
  {
    if rights != [] {
      EqualityHolds(ops, lc, rc, l, rights[0]);
      TextKeyed(l, rights[1..], ops, lc, rc);
    }
    hide On, StringEquality;
  }

  lemma {:induction false} TextServed(lefts: seq<Row>, rights: seq<Row>, ops: seq<FilterOp>, lc: nat, rc: nat,
                                      h: Hash, spent: set<string>)
    requires StringEquality(ops, lc, rc) && Typed(ops)
    ensures ServedRun(lefts, rights, ops, lc, rc, h, spent) ==
            Join(Served(lefts, lc, Keys(rights, rc), h, spent), rights, ops)
    decreases lefts
  {
    if lefts != [] {
      var keys, l := Keys(rights, rc), lefts[0];
      var spent' := Spend(keys, h, l.StrCol(lc), spent);
      TextKeyed(l, rights, ops, lc, rc);
      TextServed(lefts[1..], rights, ops, lc, rc, h, spent');
      JoinCons(l, Served(lefts[1..], lc, keys, h, spent'), rights, ops);
      hide Keyed, Matches, Spend, StringEquality;
    }
  }

  lemma TextSteady(lefts: seq<Row>, ops: seq<FilterOp>, lc: nat, rc: nat)
    requires StringEquality(ops, lc, rc)
    ensures AllSteady(lefts, lc, ops)
  {
  }

  /** On text the run is exactly the join of the left tuples it serves, with its order and duplicates. */
  lemma HashJoinServes(lefts: seq<Row>, rights: seq<Row>, lc: nat, rc: nat, ops: seq<FilterOp>, h: Hash, size: nat)
    requires Fits(h, size) && StringEquality(ops, lc, rc) && Typed(ops)
    ensures HashJoinRun(lefts, rights, ops, lc, rc, h, size) ==
            Join(Served(lefts, lc, Keys(rights, rc), h, {}), rights, ops)
  {
    TextSteady(lefts, ops, lc, rc);
    SteadyRunServes(lefts, rights, ops, lc, rc, h, size);
    TextServed(lefts, rights, ops, lc, rc, h, {});
    hide *;
  }

  /** No empty key on both sides, and no key past the head of its bucket twice on the left. */
  ghost predicate NothingLost(lefts: seq<Row>, lc: nat, keys: seq<string>, h: Hash) {
    var leftKeys := Keys(lefts, lc);
    && !("" in leftKeys && "" in keys)
    && forall i, j :: 0 <= i < j < |leftKeys| && leftKeys[i] == leftKeys[j] ==> !Chained(keys, h, leftKeys[i])
  }

  /** On text every match has the key: what is lost is lost for its key alone. */
  lemma NothingLostIff(lefts: seq<Row>, rights: seq<Row>, ops: seq<FilterOp>, lc: nat, rc: nat, h: Hash)
    requires StringEquality(ops, lc, rc) && Typed(ops)
    ensures Complete(lefts, rights, ops, lc, rc, h, {}) <==> NothingLost(lefts, lc, Keys(rights, rc), h)
  {
    var keys, leftKeys := Keys(rights, rc), Keys(lefts, lc);
    forall i, m | 0 <= i < |lefts| && 0 <= m < |rights|
      ensures On(lefts[i], rights[m], ops) <==> leftKeys[i] == keys[m]
    {
      EqualityHolds(ops, lc, rc, lefts[i], rights[m]);
    }
    hide On, StringEquality, Row.StrCol;
    if NothingLost(lefts, lc, keys, h) {
      forall i, m | 0 <= i < |lefts| && 0 <= m < |rights| && On(lefts[i], rights[m], ops)
        ensures ServesPair(lefts, rights, lc, rc, h, {}, i, m)
      {
        assert leftKeys[i] in leftKeys && keys[m] in keys;
        if j :| 0 <= j < i && lefts[j].StrCol(lc) == leftKeys[i] {
          assert leftKeys[j] == leftKeys[i];
        }
      }
    }
    if Complete(lefts, rights, ops, lc, rc, h, {}) {
      CompleteLosesNothing(lefts, rights, ops, lc, rc, h);
    }
  }

  lemma CompleteLosesNothing(lefts: seq<Row>, rights: seq<Row>, ops: seq<FilterOp>, lc: nat, rc: nat, h: Hash)
    requires Typed(ops) && Complete(lefts, rights, ops, lc, rc, h, {})
    requires forall i, m :: 0 <= i < |lefts| && 0 <= m < |rights| ==>
               (On(lefts[i], rights[m], ops) <==> Keys(lefts, lc)[i] == Keys(rights, rc)[m])
    ensures NothingLost(lefts, lc, Keys(rights, rc), h)
  {
    hide On, Row.StrCol;
    var keys, leftKeys := Keys(rights, rc), Keys(lefts, lc);
    forall i, m | 0 <= i < |leftKeys| && 0 <= m < |keys| && leftKeys[i] == keys[m]
      ensures leftKeys[i] != ""
    {
      assert ServesPair(lefts, rights, lc, rc, h, {}, i, m);
    }
    forall i, j | 0 <= i < j < |leftKeys| && leftKeys[i] == leftKeys[j]
      ensures !Chained(keys, h, leftKeys[i])
    {
      if leftKeys[i] in keys {
        var m :| 0 <= m < |keys| && keys[m] == leftKeys[i];
        assert ServesPair(lefts, rights, lc, rc, h, {}, j, m);
        assert lefts[i].StrCol(lc) == leftKeys[j];
      }
    }
  }

  /** On text the hash join emits exactly the join, in its order and with its duplicates, if and only
      if no empty key occurs on both sides and no key past its bucket head occurs twice on the left. */
  lemma HashJoinIsJoinIff(lefts: seq<Row>, rights: seq<Row>, lc: nat, rc: nat, ops: seq<FilterOp>, h: Hash, size: nat)
    requires Fits(h, size) && StringEquality(ops, lc, rc) && Typed(ops)
    ensures HashJoinRun(lefts, rights, ops, lc, rc, h, size) == Join(lefts, rights, ops) <==>
            NothingLost(lefts, lc, Keys(rights, rc), h)
  {
    TextSteady(lefts, ops, lc, rc);
    SteadyIsJoinIff(lefts, rights, ops, lc, rc, h, size);
    NothingLostIff(lefts, rights, ops, lc, rc, h);
    hide *;
  }
}
