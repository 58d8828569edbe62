/** When a statement can be run over a join, in tuples that keep what is cast in them: conditions on its
    text and on the description of the tables. */
module RunConditions {
  import opened CText
  import opened Tuples
  import opened Filter
  import opened FilterPlanner
  import opened ParseTree
  import opened WhereMeaning
  import opened HashTable
  import opened Evaluator
  import opened Readings
  import opened Scan
  import opened JoinPlanner
  import opened JoinQuery
  import opened SelectPlanner
  import opened Pipeline
  import opened Bottom
  import opened Query
  import opened Database
  import opened KeptCasts

  /** A statement that only reads columns as what they are can be run over a table. */
  lemma ListingOfTableRuns(s: Statement, table: Stored, on: Condition, hashJoinEnabled: bool, h: Hash, size: nat)
    requires WellKept(table.desc, table.contents) && Counted(s, table.desc) == None
    ensures StatementRuns(s, One(table), on, hashJoinEnabled, h, size)
  {
    var rds := DescribedReadings(table.desc);
    KeptRowsRead(table.desc, table.contents, rds);
    assert forall i :: 0 <= i < |RowsIn(table.contents)| ==> HasWidth(RowsIn(table.contents)[i], |table.desc.columns|);
    hide RowsRead, WellStored, RowsIn, Counted;
    assert StatementReads(s, One(table), Described) && TablesRun(One(table), on, hashJoinEnabled, h, size, Described);
  }

  /** Over a join of two it can be run exactly when a number past the width of a left line is the first
      that ON reads there. */
  lemma ListingRunsIff(s: Statement, left: Stored, right: Stored, on: Condition, hashJoinEnabled: bool,
                       h: Hash, size: nat)
    requires WellKept(left.desc, left.contents) && WellKept(right.desc, right.contents)
    requires Counted(s, JoinDescription(left.desc, right.desc)) == None && AllPlain(on)
    requires Resolves(on, JoinDescription(left.desc, right.desc))
    requires Joinable(on, JoinDescription(left.desc, right.desc), |left.desc.columns|, |right.desc.columns|)
    requires var ops := JoinOps(on, left.desc, right.desc);
             && Hashable(ops, hashJoinEnabled, RowsIn(right.contents), h, size)
             && (DeduceJoinType(ops, hashJoinEnabled) == OP_JOIN ==> RowsIn(left.contents) != [])
    ensures StatementRuns(s, Two(left, right), on, hashJoinEnabled, h, size) <==>
              var ops, n := JoinOps(on, left.desc, right.desc), |left.desc.columns|;
              left.contents.Lines? && ReadsLeft(ops, n) && PastReading(right.desc) == [AsLong] ==>
                FirstLeft(ops) == Some(n)
  {
    var t := Two(left, right);
    JoinFitsIff(on, left.desc, right.desc, left.contents, right.contents);
    assert StatementReads(s, t, Described);
    assert forall way :: StatementReads(s, t, way) ==> way == Described;
    hide Joinable, Hashable, WayFits, WellStored, RowsIn, JoinOps, Resolves, AllPlain, AllHaveWidth;
  }

  /** So can an aggregate of a number. */
  lemma SumOfNumberRuns(s: Statement, left: Stored, right: Stored, on: Condition, hashJoinEnabled: bool,
                        h: Hash, size: nat, c: nat)
    requires Counted(s, JoinDescription(left.desc, right.desc)) == Some(c)
    requires JoinDescription(left.desc, right.desc).columns[c].dtype == DTYPE_LONG
    requires JoinRuns(on, left.desc, right.desc, hashJoinEnabled, left.contents, right.contents, h, size, Described)
    ensures StatementRuns(s, Two(left, right), on, hashJoinEnabled, h, size)
  {
    var t := Two(left, right);
    assert TableReadings(left.desc, left.contents, 0, Number(c)) ==
           TableReadings(left.desc, left.contents, 0, Described);
    assert TableReadings(right.desc, right.contents, |left.desc.columns|, Number(c)) ==
           TableReadings(right.desc, right.contents, |left.desc.columns|, Described);
    DescribedJoin(left.desc, right.desc, left.contents, right.contents);
    DescribedReads(QueryOf(s), JoinDescription(left.desc, right.desc));
    hide TableReadings, QueryReads, Counted, JoinOps, Joinable, Hashable, Resolves, AllPlain, WellStored, RowsIn;
    assert StatementReads(s, t, Number(c)) && TablesRun(t, on, hashJoinEnabled, h, size, Number(c));
  }

  /** An aggregate of a left text column of lines can be run over such a join exactly when neither ON nor
      WHERE reads it as a text, or it is the first of its table and they read no number of that table. */
  lemma SumOfLeftTextRunsIff(s: Statement, left: Stored, right: Stored, on: Condition, hashJoinEnabled: bool,
                             h: Hash, size: nat, c: nat)
    requires var base := JoinDescription(left.desc, right.desc);
             && Counted(s, base) == Some(c) && Resolves(on, base) && ConditionsKnown(QueryOf(s), base)
    requires JoinRuns(on, left.desc, right.desc, hashJoinEnabled, left.contents, right.contents, h, size, Described)
    requires left.contents.Lines? && RowsIn(left.contents) != []
    requires c < |left.desc.columns| && left.desc.columns[c].dtype != DTYPE_LONG
    ensures StatementRuns(s, Two(left, right), on, hashJoinEnabled, h, size) <==>
              var base, ops := JoinDescription(left.desc, right.desc), JoinOps(on, left.desc, right.desc);
              || (!LeftReadsText(ops, c) && !QueryReadsText(QueryOf(s), base, c))
              || (c == 0 && !LeftReadsNumber(ops) && !QueryReadsNumberIn(QueryOf(s), base, 0, |left.desc.columns|))
  {
    hide *;
    FittedWay(left, right, on, hashJoinEnabled, h, size);
    LeftColumn(left, right, c);
    var q, ops := QueryOf(s), JoinOps(on, left.desc, right.desc);
    NumberLeftFitsIff(left.desc, right.desc, ops, left.contents, right.contents, c);
    MixedLeftFitsIff(left.desc, right.desc, ops, left.contents, right.contents, c);
    LinesCount(left.contents, c);
    WhereReadsIff(q, left, right, c, 0, |left.desc.columns|);
    TwoWays(s, left, right, on, hashJoinEnabled, h, size, c);
    WayIs(s, left, right, on, Number(c));
    WayIs(s, left, right, on, Mixed(c));
  }

  /** The same for a right text column. */
  lemma SumOfRightTextRunsIff(s: Statement, left: Stored, right: Stored, on: Condition, hashJoinEnabled: bool,
                              h: Hash, size: nat, k: nat)
    requires var base := JoinDescription(left.desc, right.desc);
             && Counted(s, base) == Some(k) && Resolves(on, base) && ConditionsKnown(QueryOf(s), base)
    requires JoinRuns(on, left.desc, right.desc, hashJoinEnabled, left.contents, right.contents, h, size, Described)
    requires right.contents.Lines? && RowsIn(right.contents) != []
    requires |left.desc.columns| <= k < |left.desc.columns| + |right.desc.columns|
    requires right.desc.columns[k - |left.desc.columns|].dtype != DTYPE_LONG
    ensures StatementRuns(s, Two(left, right), on, hashJoinEnabled, h, size) <==>
              var base, ops := JoinDescription(left.desc, right.desc), JoinOps(on, left.desc, right.desc);
              var n, all := |left.desc.columns|, |left.desc.columns| + |right.desc.columns|;
              || (!RightReadsText(ops, k - n) && !QueryReadsText(QueryOf(s), base, k))
              || (k == n && !RightReadsNumber(ops) && !QueryReadsNumberIn(QueryOf(s), base, n, all))
  {
    hide *;
    FittedWay(left, right, on, hashJoinEnabled, h, size);
    RightColumn(left, right, k);
    var q, ops, n := QueryOf(s), JoinOps(on, left.desc, right.desc), |left.desc.columns|;
    NumberRightFitsIff(left.desc, right.desc, ops, left.contents, right.contents, k);
    MixedRightFitsIff(left.desc, right.desc, ops, left.contents, right.contents, k);
    LinesCount(right.contents, k - n);
    WhereReadsIff(q, left, right, k, n, n + |right.desc.columns|);
    TwoWays(s, left, right, on, hashJoinEnabled, h, size, k);
    WayIs(s, left, right, on, Number(k));
    WayIs(s, left, right, on, Mixed(k));
  }

  /** What WHERE asks, in both ways. */
  lemma WhereReadsIff(q: Select, left: Stored, right: Stored, c: nat, lo: nat, hi: nat)
    requires ConditionsKnown(q, JoinDescription(left.desc, right.desc))
    requires var n, all := |left.desc.columns|, |left.desc.columns| + |right.desc.columns|;
             && lo <= c < hi <= all && JoinDescription(left.desc, right.desc).columns[c].dtype != DTYPE_LONG
             && ((lo == 0 && hi == n && left.contents.Lines?) || (lo == n && hi == all && right.contents.Lines?))
    ensures var base, t := JoinDescription(left.desc, right.desc), Two(left, right);
            && (QueryReads(q, base, ReadingsFor(t, Number(c))) <==> !QueryReadsText(q, base, c))
            && (QueryReads(q, base, ReadingsFor(t, Mixed(c))) <==> !QueryReadsNumberIn(q, base, lo, hi))
  {
    var base, t := JoinDescription(left.desc, right.desc), Two(left, right);
    NumberWay(left, right, c);
    NumberReadsIff(q, base, c);
    MixedWay(left, right, c, lo, hi);
    WithoutNumbersIff(q, base, ReadingsFor(t, Mixed(c)), lo, hi);
    hide *;
  }

  /** Every column of a line can be read as a number. */
  lemma LinesCount(contents: Contents, c: nat)
    requires contents.Lines?
    ensures Countable(RowsIn(contents), c)
  {
  }

  lemma NumberWay(left: Stored, right: Stored, c: nat)
    requires c < |left.desc.columns| + |right.desc.columns|
    ensures ReadingsFor(Two(left, right), Number(c)) ==
            DescribedReadings(JoinDescription(left.desc, right.desc))[c := AsLong]
  {
    DescribedJoin(left.desc, right.desc, left.contents, right.contents);
    NumberReadings(left.desc, left.contents, 0, c);
    NumberReadings(right.desc, right.contents, |left.desc.columns|, c);
    hide TableReadings, DescribedReadings;
  }

  /** What a join that can be run fits, and where its rows lie. */
  lemma FittedWay(left: Stored, right: Stored, on: Condition, hashJoinEnabled: bool, h: Hash, size: nat)
    requires JoinRuns(on, left.desc, right.desc, hashJoinEnabled, left.contents, right.contents, h, size, Described)
    requires Resolves(on, JoinDescription(left.desc, right.desc))
    ensures WayFits(left.desc, right.desc, JoinOps(on, left.desc, right.desc), left.contents, right.contents, Described)
    ensures WellStored(left.contents) && WellStored(right.contents)
    ensures |JoinDescription(left.desc, right.desc).columns| == |left.desc.columns| + |right.desc.columns|
  {
    hide WayFits, WellStored, JoinOps, Hashable, Joinable;
  }

  lemma LeftColumn(left: Stored, right: Stored, c: nat)
    requires c < |left.desc.columns|
    ensures JoinDescription(left.desc, right.desc).columns[c] == left.desc.columns[c]
  {
  }

  lemma RightColumn(left: Stored, right: Stored, k: nat)
    requires |left.desc.columns| <= k < |left.desc.columns| + |right.desc.columns|
    ensures JoinDescription(left.desc, right.desc).columns[k] == right.desc.columns[k - |left.desc.columns|]
  {
  }

  /** A text is cast as well, and the numbers of its table, which has those columns, are left alone. */
  lemma MixedWay(left: Stored, right: Stored, c: nat, lo: nat, hi: nat)
    requires var n, all := |left.desc.columns|, |left.desc.columns| + |right.desc.columns|;
             && lo <= c < hi <= all && JoinDescription(left.desc, right.desc).columns[c].dtype != DTYPE_LONG
             && ((lo == 0 && hi == n && left.contents.Lines?) || (lo == n && hi == all && right.contents.Lines?))
    ensures Without(DescribedReadings(JoinDescription(left.desc, right.desc)), ReadingsFor(Two(left, right), Mixed(c)),
                    lo, hi)
  {
    DescribedJoin(left.desc, right.desc, left.contents, right.contents);
    MixedTable(left.desc, left.contents, 0, c, lo, hi);
    MixedTable(right.desc, right.contents, |left.desc.columns|, c, lo, hi);
    hide TableReadings, DescribedReadings, JoinDescription;
    WithoutBoth(TableReadings(left.desc, left.contents, 0, Described),
                TableReadings(left.desc, left.contents, 0, Mixed(c)),
                TableReadings(right.desc, right.contents, |left.desc.columns|, Described),
                TableReadings(right.desc, right.contents, |left.desc.columns|, Mixed(c)), lo, hi);
  }

  lemma WithoutBoth(a: seq<Reading>, a2: seq<Reading>, b: seq<Reading>, b2: seq<Reading>, lo: nat, hi: nat)
    requires WithoutFrom(a, a2, 0, lo, hi) && WithoutFrom(b, b2, |a|, lo, hi)
    ensures Without(a + b, a2 + b2, lo, hi)
  {
    forall i | 0 <= i < |a + b|
      ensures var r, s := (a + b)[i], (a2 + b2)[i];
              s.Text() == r.Text() && (r.Long() ==> (s.Long() <==> !(lo <= i < hi)))
    {
      if i >= |a| {
        assert b[i - |a|] == (a + b)[i];
      }
    }
  }

  /** The same for the columns from `first` on. */
  predicate WithoutFrom(rds: seq<Reading>, some: seq<Reading>, first: nat, lo: nat, hi: nat) {
    |rds| == |some| && forall i :: 0 <= i < |rds| ==>
                         && some[i].Text() == rds[i].Text()
                         && (rds[i].Long() ==> (some[i].Long() <==> !(lo <= first + i < hi)))
  }

  lemma MixedTable(desc: ResultSet, contents: Contents, first: nat, c: nat, lo: nat, hi: nat)
    requires if first <= c < first + |desc.columns| then
               contents.Lines? && lo == first && hi == first + |desc.columns|
               && desc.columns[c - first].dtype != DTYPE_LONG
             else first + |desc.columns| <= lo || hi <= first
    ensures WithoutFrom(TableReadings(desc, contents, first, Described), TableReadings(desc, contents, first, Mixed(c)),
                        first, lo, hi)
  {
  }

  /** WHERE and ON can read the columns so. */
  ghost predicate ReadsWay(s: Statement, left: Stored, right: Stored, on: Condition, way: Way)
    requires Resolves(on, JoinDescription(left.desc, right.desc))
  {
    && QueryReads(QueryOf(s), JoinDescription(left.desc, right.desc), ReadingsFor(Two(left, right), way))
    && WayFits(left.desc, right.desc, JoinOps(on, left.desc, right.desc), left.contents, right.contents, way)
  }

  lemma WayIs(s: Statement, left: Stored, right: Stored, on: Condition, way: Way)
    requires Resolves(on, JoinDescription(left.desc, right.desc))
    ensures ReadsWay(s, left, right, on, way) <==>
              && QueryReads(QueryOf(s), JoinDescription(left.desc, right.desc), ReadingsFor(Two(left, right), way))
              && WayFits(left.desc, right.desc, JoinOps(on, left.desc, right.desc), left.contents, right.contents, way)
  {
    hide QueryReads, WayFits, ReadingsFor, JoinOps, QueryOf, JoinDescription, Resolves;
  }

  lemma TwoWays(s: Statement, left: Stored, right: Stored, on: Condition, hashJoinEnabled: bool, h: Hash, size: nat,
                c: nat)
    requires var base := JoinDescription(left.desc, right.desc); Counted(s, base) == Some(c) && Resolves(on, base)
    requires JoinRuns(on, left.desc, right.desc, hashJoinEnabled, left.contents, right.contents, h, size, Described)
    ensures StatementRuns(s, Two(left, right), on, hashJoinEnabled, h, size) <==>
              || ReadsWay(s, left, right, on, Number(c)) || ReadsWay(s, left, right, on, Mixed(c))
  {
    var t, base := Two(left, right), JoinDescription(left.desc, right.desc);
    forall way: Way
      ensures TablesRun(t, on, hashJoinEnabled, h, size, way) <==>
                WayFits(left.desc, right.desc, JoinOps(on, left.desc, right.desc), left.contents, right.contents, way)
      ensures StatementReads(s, t, way) <==>
                way in {Number(c), Mixed(c)} && QueryReads(QueryOf(s), base, ReadingsFor(t, way))
    {
    }
    hide StatementReads, TablesRun, WayFits, QueryReads, ReadingsFor, JoinRuns;
  }
}
