/** A join written out, from its text to the numbers that are printed for it. */
module JoinTexts {
  import opened CText
  import opened Tuples
  import opened Filter
  import opened Comparison
  import opened ParseTree
  import opened WrittenText
  import opened QueryText
  import opened FilterPlanner
  import opened WhereMeaning
  import opened HashTable
  import opened JoinPlanner
  import opened JoinQuery
  import opened Scan
  import opened SelectPlanner
  import opened Pipeline
  import opened Query
  import opened Database
  import opened RunConditions
  import opened ClauseTexts
  import opened StatementTexts
  import Aggregate

  // ----- what is expected -----

  /** The number of a left row, once for every right row with the same one. */
  function OnceForEach(l: Row, rights: seq<Row>, i: nat, j: nat): seq<seq<Value>> {
    if rights == [] then []
    else (if l.LongCol(i) == rights[0].LongCol(j) then [[Value.Number(l.LongCol(i))]] else [])
         + OnceForEach(l, rights[1..], i, j)
  }

  function ForEachLeft(lefts: seq<Row>, rights: seq<Row>, i: nat, j: nat): seq<seq<Value>> {
    if lefts == [] then [] else OnceForEach(lefts[0], rights, i, j) + ForEachLeft(lefts[1..], rights, i, j)
  }

  function FileRows(f: string, catalog: Catalog): seq<Row>
    requires Path(f) in catalog
  {
    RowsIn(catalog[Path(f)].contents)
  }

  // ----- SELECT l.a FROM 'l' AS l JOIN 'r' AS r ON l.a = r.b -----

  const LEFT: Operand := Column("l", "a")
  const RIGHT: Operand := Column("r", "b")

  function SameNumber(): Condition {
    ComparisonOf(LEFT, "=", RIGHT)
  }

  function WrittenOn(): Written {
    WrittenComparison(LEFT, "=", RIGHT, "", Tail.End)
  }

  function JoinPlace(): Place {
    Place.Joined(AliasedFile("l", "l", " "), " ", AliasedFile("r", "r", " "), " ", WrittenOn())
  }

  const TEXT: string := "SELECT l.a FROM " + ("'l' AS l " + ("JOIN 'r' AS r " + "ON l.a = r.b"))

  lemma OnSpelled()
    ensures WellSpelled(LEFT) && WellSpelled(RIGHT) && OperandText(LEFT) == "l.a"
    ensures TextOf(WrittenOn()) == "l.a = r.b" && Writes(WrittenOn(), SameNumber()) && Stands(WrittenOn(), "")
  {
    ComparisonClause(LEFT, "=", RIGHT);
    WritesComparison(LEFT, "=", RIGHT);
    TextSpelled(LEFT, "=", RIGHT);
    assert OperandText(LEFT) == "l.a" && OperandText(RIGHT) == "r.b";
    hide TextOf, ComparisonText, Writes, Stands;
    assert "l.a" + " " + "=" + " " + "r.b" == "l.a = r.b";
  }

  lemma PlaceSpelled()
    ensures PlaceText(JoinPlace(), "") == "'l' AS l " + ("JOIN 'r' AS r " + "ON l.a = r.b")
  {
    var on := OnText(" ", WrittenOn(), "");
    OnSpelled();
    assert on == "ON" + (" " + ("l.a = r.b" + ""));
    assert JoinText(" ", AliasedFile("r", "r", " "), " ", WrittenOn(), "") ==
           "JOIN" + (" " + OriginText(AliasedFile("r", "r", " "), on));
    var join := JoinText(" ", AliasedFile("r", "r", " "), " ", WrittenOn(), "");
    assert PlaceText(JoinPlace(), "") == OriginText(AliasedFile("l", "l", " "), join);
    AliasSpelled("r", "r", " ", on);
    AliasSpelled("l", "l", " ", join);
    hide *;
    TailSpelled();
  }

  lemma TailSpelled()
    ensures "'" + "l" + "' AS " + "l" + " " +
            ("JOIN" + (" " + ("'" + "r" + "' AS " + "r" + " " + ("ON" + (" " + ("l.a = r.b" + "")))))) ==
            "'l' AS l " + ("JOIN 'r' AS r " + "ON l.a = r.b")
  {
    assert "ON" + (" " + ("l.a = r.b" + "")) == "ON l.a = r.b";
    assert "'" + "r" + "' AS " + "r" + " " == "'r' AS r ";
    assert "'" + "l" + "' AS " + "l" + " " == "'l' AS l ";
    assert "JOIN" + (" " + ("'r' AS r " + "ON l.a = r.b")) == "JOIN 'r' AS r " + "ON l.a = r.b";
  }

  lemma PlaceWell()
    ensures PlaceStands(JoinPlace(), "")
  {
    var on := OnText(" ", WrittenOn(), "");
    OnSpelled();
    hide TextOf, Stands, Writes;
    AliasWell("r", "r", " ", on);
    var join := JoinText(" ", AliasedFile("r", "r", " "), " ", WrittenOn(), "");
    AliasWell("l", "l", " ", join);
    assert AllWhite(" ");
  }

  function WrittenJoin(): WrittenQuery {
    QueryOfOne("l", "a", " ", JoinPlace(), None)
  }

  lemma TextOfJoin()
    ensures TextOfQuery(WrittenJoin(), "") == TEXT
  {
    assert WrittenJoin() == QueryOfOne("l", "a", " ", JoinPlace(), None) && LEFT == Column("l", "a");
    assert WhereText(None, "") == "";
    hide *;
    OnSpelled();
    PlaceSpelled();
    OneColumnText("l", "a", JoinPlace(), None, "");
    JoinedUp();
  }

  lemma JoinedUp()
    ensures "SELECT " + "l.a" + " FROM " + ("'l' AS l " + ("JOIN 'r' AS r " + "ON l.a = r.b")) == TEXT
  {
    assert "SELECT " + "l.a" + " FROM " == "SELECT l.a FROM ";
  }

  lemma NoNulInText()
    ensures NUL !in TEXT
  {
    assert NUL !in "SELECT l.a FROM " && NUL !in "'l' AS l " && NUL !in "JOIN 'r' AS r " && NUL !in "ON l.a = r.b";
  }

  lemma IsSelectJoin()
    ensures IsStatement(TEXT, WrittenJoin(), Listing(OneColumn("l", "a", Base, None)), SameNumber())
  {
    OnSpelled();
    TextOfJoin();
    NoNulInText();
    PlaceWell();
    OneColumnWell("l", "a", JoinPlace(), None);
    OneColumnWritten("l", "a", JoinPlace(), None, None);
    hide TextOfQuery, WellQuery, WellSpelled, OperandText, QueryWrites, PlaceText, TextOf, Writes, PlaceStands;
  }

  // ----- what it prints -----

  /** The two tables, under their aliases. */
  function LeftOf(catalog: Catalog): Stored
    requires Path("l") in catalog
  {
    Stored(Aliased(catalog[Path("l")].desc, "l"), catalog[Path("l")].contents)
  }

  function RightOf(catalog: Catalog): Stored
    requires Path("r") in catalog
  {
    Stored(Aliased(catalog[Path("r")].desc, "r"), catalog[Path("r")].contents)
  }

  ghost predicate HasTables(catalog: Catalog, i: nat, j: nat) {
    && HasNumber("l", catalog, "a", i) && HasNumber("r", catalog, "b", j) && j > 0 && FileRows("l", catalog) != []
    && forall x, y :: x in FileRows("l", catalog) && y in FileRows("r", catalog) ==> Near(x.LongCol(i), y.LongCol(j))
  }

  /** Both columns are found, each in its own table. */
  lemma ColumnsFound(catalog: Catalog, i: nat, j: nat)
    requires HasTables(catalog, i, j)
    ensures var l, r := LeftOf(catalog), RightOf(catalog);
            var base, n := JoinDescription(l.desc, r.desc), |l.desc.columns|;
            && FindColIdxInResDesc(base.columns, "a", "l") == Some(i)
            && FindColIdxInResDesc(base.columns, "b", "r") == Some(n + j)
            && i < n && j < |r.desc.columns| && base.columns[i].dtype == DTYPE_LONG == base.columns[n + j].dtype
  {
    var left, right := catalog[Path("l")].desc, catalog[Path("r")].desc;
    var l, r := LeftOf(catalog), RightOf(catalog);
    AliasedFinds(left.columns, left, "l", "a", "l");
    AliasedFinds(left.columns, left, "l", "b", "r");
    AliasedFinds(right.columns, right, "r", "b", "r");
    FindsInBoth(l.desc.columns, r.desc.columns, "a", "l");
    FindsInBoth(l.desc.columns, r.desc.columns, "b", "r");
    hide FindColIdxInResDesc, Aggregate.FindByName, WellKept;
  }

  /** The planner handles the condition. */
  lemma ConditionPlanned(base: ResultSet, n: nat, m: nat, i: nat, j: nat)
    requires FindColIdxInResDesc(base.columns, "a", "l") == Some(i) && i < n
    requires FindColIdxInResDesc(base.columns, "b", "r") == Some(n + j) && 0 < j < m
    requires base.columns[i].dtype == DTYPE_LONG == base.columns[n + j].dtype
    ensures var op := Comparison(Side(i, DTYPE_LONG, "", 0), -1, Side(n + j, DTYPE_LONG, "", 0), CMP_COL_COL, AND);
            && Resolves(SameNumber(), base) && WellTyped(SameNumber(), base) && OpsOf(SameNumber(), base) == [op]
            && AllRelocatable([op], n, m) && Relocated([op], n) == [op.(right := op.right.(idx := j))]
    ensures AllPlain(SameNumber())
  {
    var op := Comparison(Side(i, DTYPE_LONG, "", 0), -1, Side(n + j, DTYPE_LONG, "", 0), CMP_COL_COL, AND);
    assert OpsOf(SameNumber(), base) == [OpOf(SameNumber().item, AND, base)] == [op];
    assert Planned(op, n, m) && Relocatable(op, n, m);
    assert [op][1..] == [] && AllRelocatable([], n, m) && Relocated([], n) == [];
    hide FindColIdxInResDesc;
  }

  /** It holds for a pair exactly when the two numbers are the same. */
  lemma OnSameNumber(base: ResultSet, n: nat, i: nat, j: nat, x: Row, y: Row)
    requires FindColIdxInResDesc(base.columns, "a", "l") == Some(i) && i < n
    requires FindColIdxInResDesc(base.columns, "b", "r") == Some(n + j)
    requires base.columns[i].dtype == DTYPE_LONG == base.columns[n + j].dtype
    ensures Resolves(SameNumber(), base) && (OnMeans(SameNumber(), base, n, x, y) <==> x.LongCol(i) == y.LongCol(j))
    ensures Near(x.LongCol(i), y.LongCol(j)) ==>
              var t, ops := View.Joined(n, x, y), OpsOf(SameNumber(), base); Typed(ops) && AllFaithful(ops, t, t)
  {
    var t := View.Joined(n, x, y);
    JoinedReads(n, x, y, i);
    JoinedReads(n, x, y, n + j);
    assert ValueOf(LEFT, base, t) == Value.Number(x.LongCol(i));
    assert ValueOf(RIGHT, base, t) == Value.Number(y.LongCol(j));
    assert TypeOf(LEFT, base) == DTYPE_LONG == TypeOf(RIGHT, base);
    NumbersMean(LEFT, "=", RIGHT, base, t, x.LongCol(i), y.LongCol(j));
    if Near(x.LongCol(i), y.LongCol(j)) {
      NumbersFaithful(LEFT, "=", RIGHT, base, t, x.LongCol(i), y.LongCol(j));
    }
    hide FindColIdxInResDesc, ValueOf, AllFaithful, Row.LongCol, View.LongCol, Means;
  }

  /** The plan of the condition, and that nothing is read past a width. */
  lemma ConditionJoins(catalog: Catalog, i: nat, j: nat, h: Hash, size: nat)
    requires HasTables(catalog, i, j)
    ensures var l, r := LeftOf(catalog), RightOf(catalog);
            var base, n, m := JoinDescription(l.desc, r.desc), |l.desc.columns|, |r.desc.columns|;
            && AllPlain(SameNumber()) && Resolves(SameNumber(), base) && Joinable(SameNumber(), base, n, m)
            && var ops := JoinOps(SameNumber(), l.desc, r.desc);
               && Hashable(ops, false, RowsIn(r.contents), h, size) && DeduceJoinType(ops, false) == OP_JOIN
               && !ReadsLeft(ops, n)
  {
    var l, r := LeftOf(catalog), RightOf(catalog);
    ColumnsFound(catalog, i, j);
    hide FindColIdxInResDesc, HasTables, Aliased, WellKept;
    ConditionPlanned(JoinDescription(l.desc, r.desc), |l.desc.columns|, |r.desc.columns|, i, j);
    var op := Comparison(Side(i, DTYPE_LONG, "", 0), -1, Side(j, DTYPE_LONG, "", 0), CMP_COL_COL, AND);
    assert [op][1..] == [] && !ReadsLeft([op], |l.desc.columns|);
    hide FindColIdxInResDesc, OpsOf, Relocated, AllRelocatable, Resolves, WellTyped, RowsIn, SameNumber, HasTables;
  }

  lemma JoinCanRun(catalog: Catalog, i: nat, j: nat, h: Hash, size: nat)
    requires HasTables(catalog, i, j)
    ensures var t := Two(LeftOf(catalog), RightOf(catalog));
            && StatementRuns(Listing(OneColumn("l", "a", Base, None)), t, SameNumber(), false, h, size)
            && TablesKnown(Some(t), SameNumber())
  {
    var l, r := LeftOf(catalog), RightOf(catalog);
    ConditionJoins(catalog, i, j, h, size);
    AliasedKept(catalog[Path("l")], AliasedFile("l", "l", " "));
    AliasedKept(catalog[Path("r")], AliasedFile("r", "r", " "));
    assert RowsIn(l.contents) == FileRows("l", catalog) != [];
    hide FindColIdxInResDesc, WellKept, StatementRuns, Resolves, RowsIn, SameNumber, JoinOps, Joinable, Hashable,
         DeduceJoinType, AllPlain, ReadsLeft;
    ListingRunsIff(Listing(OneColumn("l", "a", Base, None)), l, r, SameNumber(), false, h, size);
  }

  lemma JoinDelivered(catalog: Catalog, i: nat, j: nat, h: Hash)
    requires HasTables(catalog, i, j)
    ensures TablesKnown(Some(Two(LeftOf(catalog), RightOf(catalog))), SameNumber())
    ensures TablesDeliver(Two(LeftOf(catalog), RightOf(catalog)), SameNumber(), false, h)
  {
    var l, r := LeftOf(catalog), RightOf(catalog);
    var base, n := JoinDescription(l.desc, r.desc), |l.desc.columns|;
    ColumnsFound(catalog, i, j);
    ConditionJoins(catalog, i, j, h, 0);
    forall x, y | 0 <= x < |RowsIn(l.contents)| && 0 <= y < |RowsIn(r.contents)|
      ensures var v, ops := View.Joined(n, RowsIn(l.contents)[x], RowsIn(r.contents)[y]), OpsOf(SameNumber(), base);
              Typed(ops) && AllFaithful(ops, v, v)
    {
      OnSameNumber(base, n, i, j, RowsIn(l.contents)[x], RowsIn(r.contents)[y]);
    }
    OpsTyped(SameNumber(), base);
    hide FindColIdxInResDesc, WellKept, AllFaithful, OpsOf, Resolves, WellTyped, Typed, RowsIn, SameNumber, Row.LongCol,
         JoinOps, Hashable, DeduceJoinType, ReadsLeft, JoinDescription;
  }

  lemma {:induction false} MatchesPrinted(x: Row, rights: seq<Row>, base: ResultSet, n: nat, i: nat, j: nat)
    requires FindColIdxInResDesc(base.columns, "a", "l") == Some(i) && i < n
    requires FindColIdxInResDesc(base.columns, "b", "r") == Some(n + j)
    requires base.columns[i].dtype == DTYPE_LONG == base.columns[n + j].dtype && Resolves(SameNumber(), base)
    ensures Kept(MatchingViews(x, rights, SameNumber(), base, n), i, (t: View) => true) == OnceForEach(x, rights, i, j)
  {
    if rights != [] {
      OnSameNumber(base, n, i, j, x, rights[0]);
      MatchesPrinted(x, rights[1..], base, n, i, j);
      JoinedReads(n, x, rights[0], i);
      var rest := MatchingViews(x, rights[1..], SameNumber(), base, n);
      assert [] + rest == rest && ([View.Joined(n, x, rights[0])] + rest)[1..] == rest;
      assert [] + OnceForEach(x, rights[1..], i, j) == OnceForEach(x, rights[1..], i, j);
      hide OnMeans, Row.LongCol, View.LongCol, SameNumber, FindColIdxInResDesc, Resolves;
    }
  }

  lemma {:induction false} KeptAppends(a: seq<View>, b: seq<View>, i: nat, p: View -> bool)
    ensures Kept(a + b, i, p) == Kept(a, i, p) + Kept(b, i, p)
  {
    if a == [] {
      assert a + b == b && [] + Kept(b, i, p) == Kept(b, i, p);
    } else {
      KeptAppends(a[1..], b, i, p);
      assert (a + b)[0] == a[0] && (a + b)[1..] == a[1..] + b;
    }
  }

  lemma {:induction false} JoinPrinted(lefts: seq<Row>, rights: seq<Row>, base: ResultSet, n: nat, i: nat, j: nat)
    requires FindColIdxInResDesc(base.columns, "a", "l") == Some(i) && i < n
    requires FindColIdxInResDesc(base.columns, "b", "r") == Some(n + j)
    requires base.columns[i].dtype == DTYPE_LONG == base.columns[n + j].dtype && Resolves(SameNumber(), base)
    ensures Kept(JoinedRows(lefts, rights, SameNumber(), base, n), i, (t: View) => true) ==
            ForEachLeft(lefts, rights, i, j)
  {
    if lefts != [] {
      MatchesPrinted(lefts[0], rights, base, n, i, j);
      JoinPrinted(lefts[1..], rights, base, n, i, j);
      KeptAppends(MatchingViews(lefts[0], rights, SameNumber(), base, n),
                  JoinedRows(lefts[1..], rights, SameNumber(), base, n), i, (t: View) => true);
      hide MatchingViews, OnceForEach, Kept, SameNumber, FindColIdxInResDesc, Resolves;
    }
  }

  lemma JoinAnswered(catalog: Catalog, i: nat, j: nat, h: Hash, size: nat)
    requires HasTables(catalog, i, j)
    ensures var t, s := Two(LeftOf(catalog), RightOf(catalog)), Listing(OneColumn("l", "a", Base, None));
            && TablesOf(PlaceOf(WrittenJoin()), catalog) == Some(t)
            && TablesKnown(Some(t), SameNumber()) && NamesKnown(QueryOf(s), DescriptionOf(t))
            && FaithfulOn(QueryOf(s), DescriptionOf(t), RowsOf(t, SameNumber()))
            && ResultOfStatement(s, DescriptionOf(t), RowsOf(t, SameNumber())) ==
               Rows(ForEachLeft(FileRows("l", catalog), FileRows("r", catalog), i, j))
  {
    hide *;
    TablesThere(catalog, i, j);
    var left, right, q := LeftOf(catalog), RightOf(catalog), OneColumn("l", "a", Base, None);
    var base, n := JoinDescription(left.desc, right.desc), |left.desc.columns|;
    JoinDelivered(catalog, i, j, h);
    ColumnsFound(catalog, i, j);
    TwoTables(catalog);
    RowsJoined(catalog, i, j);
    OneListed();
    AllAnswered(q, base, RowsOf(Two(left, right), SameNumber()), i);
    JoinPrinted(FileRows("l", catalog), FileRows("r", catalog), base, n, i, j);
  }

  lemma TablesThere(catalog: Catalog, i: nat, j: nat)
    requires HasTables(catalog, i, j)
    ensures Path("l") in catalog && Path("r") in catalog
  {
  }

  lemma OneListed()
    ensures var s, q := Listing(OneColumn("l", "a", Base, None)), OneColumn("l", "a", Base, None);
            && QueryOf(s) == q && q.list.Columns? && |q.list.refs| == 1
            && q.list.refs[0].tblref == "l" && q.list.refs[0].name == "a"
            && forall base, rows :: ResultOfStatement(s, base, rows) == ResultOf(q, base, rows)
  {
    hide ResultOf;
  }

  lemma RowsJoined(catalog: Catalog, i: nat, j: nat)
    requires HasTables(catalog, i, j)
    ensures var left, right := LeftOf(catalog), RightOf(catalog);
            var t, base, n := Two(left, right), JoinDescription(left.desc, right.desc), |left.desc.columns|;
            && DescriptionOf(t) == base && Resolves(SameNumber(), base)
            && RowsOf(t, SameNumber()) ==
               JoinedRows(FileRows("l", catalog), FileRows("r", catalog), SameNumber(), base, n)
  {
    var left, right := LeftOf(catalog), RightOf(catalog);
    ColumnsFound(catalog, i, j);
    ConditionPlanned(JoinDescription(left.desc, right.desc), |left.desc.columns|, |right.desc.columns|, i, j);
    hide FindColIdxInResDesc, HasTables, Aliased, JoinedRows, RowsIn, Resolves, JoinDescription, OpsOf, Relocated,
         AllRelocatable, WellTyped;
  }

  lemma TwoTables(catalog: Catalog)
    requires Path("l") in catalog && Path("r") in catalog
    ensures TablesOf(PlaceOf(WrittenJoin()), catalog) == Some(Two(LeftOf(catalog), RightOf(catalog)))
  {
    hide Aliased;
  }

  /** For every left row its number is printed as often as the right table has it. */
  method SelectJoin(catalog: Catalog, h: Hash, size: nat, ghost i: nat, ghost j: nat) returns (r: Ran)
    requires HasTables(catalog, i, j)
    ensures r == Rows(ForEachLeft(FileRows("l", catalog), FileRows("r", catalog), i, j))
  {
    IsSelectJoin();
    JoinCanRun(catalog, i, j, h, size);
    JoinDelivered(catalog, i, j, h);
    JoinAnswered(catalog, i, j, h, size);
    hide *;
    r := Run(TEXT, catalog, false, h, size, WrittenJoin(), Listing(OneColumn("l", "a", Base, None)), SameNumber());
  }
}
