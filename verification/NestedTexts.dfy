/** A query from a query, written out, and what is printed for it. */
module NestedTexts {
  import opened CText
  import opened Tuples
  import opened Filter
  import opened ParseTree
  import opened WrittenText
  import opened QueryText
  import opened FilterPlanner
  import opened WhereMeaning
  import opened HashTable
  import opened Scan
  import opened Bottom
  import opened JoinQuery
  import opened SelectPlanner
  import opened Pipeline
  import opened Query
  import opened Database
  import opened ClauseTexts
  import opened StatementTexts

  const TEXT: string := "SELECT a FROM " + ("(SELECT a, b FROM " + ("'f' WHERE b > 3) " + "WHERE a < 5"))

  // ----- which query it writes -----

  const A: Operand := Column("", "a")
  const B: Operand := Column("", "b")

  function InnerWhere(): Written {
    WrittenComparison(B, ">", NumberConst("3"), "", Tail.End)
  }

  function OuterWhere(): Written {
    WrittenComparison(A, "<", NumberConst("5"), "", Tail.End)
  }

  function WrittenInner(): WrittenQuery {
    WrittenQuery("", Items(" ", ColumnItem(A), "", Some(Items(" ", ColumnItem(B), " ", None))), " ",
                 Single(FileNamed("f", " ", None)), Some(WrittenWhere(" ", InnerWhere())))
  }

  function WrittenOuter(): WrittenQuery {
    QueryOfOne("", "a", " ", Nested(WrittenInner(), " ", None), Some(WrittenWhere(" ", OuterWhere())))
  }

  function InnerQuery(): Select {
    Select(Columns([ColumnRef("", "a"), ColumnRef("", "b")]), Base, Some(ComparisonOf(B, ">", NumberConst("3"))))
  }

  function OuterQuery(): Select {
    OneColumn("", "a", Sub(InnerQuery()), Some(ComparisonOf(A, "<", NumberConst("5"))))
  }

  lemma ConditionsSpelled()
    ensures TextOf(InnerWhere()) == "b > 3" && TextOf(OuterWhere()) == "a < 5"
    ensures WellWritten(InnerWhere()) && WellWritten(OuterWhere())
    ensures Writes(InnerWhere(), ComparisonOf(B, ">", NumberConst("3")))
    ensures Writes(OuterWhere(), ComparisonOf(A, "<", NumberConst("5")))
  {
    var three, five := NumberConst("3"), NumberConst("5");
    assert WellSpelled(A) && WellSpelled(B) && WellSpelled(three) && WellSpelled(five);
    assert OperandText(A) == "a" && OperandText(B) == "b" && OperandText(three) == "3" && OperandText(five) == "5";
    hide TextOf, ComparisonText, Writes, WellSpelled, OperandText;
    ComparisonClause(B, ">", three);
    ComparisonClause(A, "<", five);
    WritesComparison(B, ">", three);
    WritesComparison(A, "<", five);
    TextSpelled(B, ">", three);
    TextSpelled(A, "<", five);
    assert "b" + " " + ">" + " " + "3" == "b > 3" && "a" + " " + "<" + " " + "5" == "a < 5";
  }

  lemma InnerSpelled(k: string)
    ensures TextOfQuery(WrittenInner(), ")" + k) == "SELECT a, b FROM " + ("'f' WHERE b > 3)" + k)
  {
    var x := WrittenInner();
    var place := PlaceText(x.place, WhereText(x.where, ")" + k));
    ConditionsSpelled();
    assert WhereText(x.where, ")" + k) == "WHERE" + (" " + ("b > 3" + (")" + k)));
    FileSpelled("f", WhereText(x.where, ")" + k));
    assert FromText(x, ")" + k) == "FROM" + (" " + place);
    assert ItemsText(x.items, FromText(x, ")" + k)) ==
           " " + ("a" + ("" + ("," + (" " + ("b" + (" " + FromText(x, ")" + k)))))));
    assert TextOfQuery(x, ")" + k) == "" + ("SELECT" + ItemsText(x.items, FromText(x, ")" + k)));
    hide *;
    InnerJoined(k);
  }

  lemma InnerJoined(k: string)
    ensures var place := "'" + "f" + "' " + ("WHERE" + (" " + ("b > 3" + (")" + k))));
            "" + ("SELECT" + (" " + ("a" + ("" + ("," + (" " + ("b" + (" " + ("FROM" + (" " + place)))))))))) ==
            "SELECT a, b FROM " + ("'f' WHERE b > 3)" + k)
  {
  }

  lemma OuterSpelled()
    ensures TextOfQuery(WrittenOuter(), "") == TEXT
  {
    var x := WrittenOuter();
    var k := " " + ("WHERE a < 5");
    ConditionsSpelled();
    WhereSpelled(OuterWhere());
    assert "WHERE " + "a < 5" == "WHERE a < 5";
    assert WhereText(x.where, "") == "WHERE a < 5";
    assert PlaceText(x.place, "WHERE a < 5") == "(" + TextOfQuery(WrittenInner(), ")" + (" " + "WHERE a < 5"));
    InnerSpelled(k);
    OneColumnText("", "a", x.place, x.where, "");
    assert OperandText(A) == "a";
    hide *;
    OuterJoined();
  }

  lemma OuterJoined()
    ensures "SELECT " + "a" + " FROM "
            + ("(" + ("SELECT a, b FROM " + ("'f' WHERE b > 3)" + (" " + "WHERE a < 5")))) == TEXT
  {
    assert "'f' WHERE b > 3)" + (" " + "WHERE a < 5") == "'f' WHERE b > 3) " + "WHERE a < 5";
    assert "SELECT " + "a" + " FROM " == "SELECT a FROM ";
  }

  lemma InnerWell()
    ensures WellQuery(WrittenInner()) && PlaceStands(WrittenOuter().place, "W")
  {
    var x := WrittenInner();
    ConditionsSpelled();
    FileSpelled("f", "W");
    assert AllWhite("") && AllWhite(" ") && WellSpelled(A) && WellSpelled(B);
    assert WellItems(x.items.rest.value) && WellItems(x.items) && ItemsEndBlank(x.items);
    hide WellWritten, WellSpelled;
  }

  lemma IsSelectNested()
    ensures IsStatement(TEXT, WrittenOuter(), Listing(OuterQuery()), NOJOIN)
  {
    var x := WrittenOuter();
    ConditionsSpelled();
    OuterSpelled();
    InnerWell();
    ColumnSpelled();
    OneColumnWell("", "a", x.place, x.where);
    NestedWritten();
    assert NUL !in "SELECT a FROM " && NUL !in "(SELECT a, b FROM ";
    assert NUL !in "'f' WHERE b > 3) " && NUL !in "WHERE a < 5";
    hide TextOfQuery, WellQuery, WellSpelled, QueryWrites, Writes, TextOf;
  }

  lemma NestedWritten()
    ensures QueryWrites(WrittenOuter(), OuterQuery()) && GroupsLead(OuterQuery())
  {
    var x := WrittenInner();
    ConditionsSpelled();
    assert RefsWritten(x.items.rest.value, [ColumnRef("", "b")]);
    assert [ColumnRef("", "a"), ColumnRef("", "b")][1..] == [ColumnRef("", "b")];
    assert RefsWritten(x.items, [ColumnRef("", "a"), ColumnRef("", "b")]);
    assert QueryWrites(x, InnerQuery());
    assert RefsWritten(WrittenOuter().items, [ColumnRef("", "a")]);
    hide Writes, TextOf;
  }

  // ----- what it prints -----

  ghost predicate HasBoth(catalog: Catalog, i: nat, j: nat) {
    && HasNumber("f", catalog, "a", i) && HasNumber("f", catalog, "b", j)
    && forall t :: t in RowsAt("f", catalog) ==> Near(t.LongCol(i), 5) && Near(t.LongCol(j), 3)
  }

  /** Both levels find their columns, the outer one among all columns of the base. */
  lemma NamesFound(base: ResultSet, i: nat, j: nat)
    requires FindColIdxInResDesc(base.columns, "a", "") == Some(i) && base.columns[i].dtype == DTYPE_LONG
    requires FindColIdxInResDesc(base.columns, "b", "") == Some(j) && base.columns[j].dtype == DTYPE_LONG
    requires forall k :: 0 <= k < |base.columns| ==> base.columns[k].resultSetAlias == ""
    ensures NamesKnown(OuterQuery(), base) && SelectsSome(OuterQuery(), base) && ShownOf(OuterQuery(), base) == [i]
    ensures FindColIdxInResDesc(Outer(base).columns, "a", "") == Some(i) && Outer(base).columns[i].dtype == DTYPE_LONG
  {
    SameFind(base.columns, Outer(base).columns, "a", "");
    InnerList(base, i, j);
    BothKnown(base, i, j);
    hide FindColIdxInResDesc, Resolve, Resolves, ShownOf, Known;
    OneColumnShown("", "a", Sub(InnerQuery()), OuterQuery().where, base, i);
  }

  lemma InnerList(base: ResultSet, i: nat, j: nat)
    requires FindColIdxInResDesc(base.columns, "a", "") == Some(i)
    requires FindColIdxInResDesc(base.columns, "b", "") == Some(j)
    ensures ListsKnown(InnerQuery(), base)
  {
    ResolveOne(ColumnRef("", "a"), base.columns);
    ResolveOne(ColumnRef("", "b"), base.columns);
    ResolveAppend([ColumnRef("", "a")], [ColumnRef("", "b")], base.columns);
    assert [ColumnRef("", "a")] + [ColumnRef("", "b")] == [ColumnRef("", "a"), ColumnRef("", "b")];
    hide FindColIdxInResDesc, Resolve;
  }

  lemma BothKnown(base: ResultSet, i: nat, j: nat)
    requires FindColIdxInResDesc(base.columns, "b", "") == Some(j) && base.columns[j].dtype == DTYPE_LONG
    requires FindColIdxInResDesc(Outer(base).columns, "a", "") == Some(i) && Outer(base).columns[i].dtype == DTYPE_LONG
    ensures ConditionsKnown(OuterQuery(), base)
    ensures WellTyped(OuterQuery().where.value, Outer(base)) && WellTyped(InnerQuery().where.value, base)
  {
    var five, three := NumberConst("5"), NumberConst("3");
    assert Known(A, Outer(base)) && Known(five, Outer(base)) && Known(B, base) && Known(three, base);
    assert TypeOf(A, Outer(base)) == TypeOf(five, Outer(base)) == TypeOf(B, base) == TypeOf(three, base) == DTYPE_LONG;
    assert Resolves(OuterQuery().where.value, Outer(base)) && Resolves(InnerQuery().where.value, base);
    hide FindColIdxInResDesc, Known, TypeOf, Outer;
  }

  /** A row satisfies both levels exactly when both its numbers do. */
  lemma BothAnswered(base: ResultSet, t: View, i: nat, j: nat)
    requires FindColIdxInResDesc(base.columns, "b", "") == Some(j) && base.columns[j].dtype == DTYPE_LONG
    requires FindColIdxInResDesc(Outer(base).columns, "a", "") == Some(i) && Outer(base).columns[i].dtype == DTYPE_LONG
    requires ConditionsKnown(OuterQuery(), base) && Near(t.LongCol(i), 5) && Near(t.LongCol(j), 3)
    ensures FaithfulAt(OuterQuery(), base, t)
    ensures Satisfies(OuterQuery(), base, t) <==> t.LongCol(i) < 5 && t.LongCol(j) > 3
    ensures WellTyped(OuterQuery().where.value, Outer(base)) && WellTyped(InnerQuery().where.value, base)
  {
    Digits();
    ColumnIs("a", Outer(base), t, i);
    ConstantIs("5", Outer(base), t);
    ColumnIs("b", base, t, j);
    ConstantIs("3", base, t);
    NumbersMean(A, "<", NumberConst("5"), Outer(base), t, t.LongCol(i), 5);
    NumbersFaithful(A, "<", NumberConst("5"), Outer(base), t, t.LongCol(i), 5);
    NumbersMean(B, ">", NumberConst("3"), base, t, t.LongCol(j), 3);
    NumbersFaithful(B, ">", NumberConst("3"), base, t, t.LongCol(j), 3);
    hide Means, FindColIdxInResDesc, AllFaithful, Typed, OpsOf, ValueOf, View.LongCol, Known, TypeOf;
  }

  lemma Digits()
    ensures Atol("5") == 5 && Atol("3") == 3
  {
    AtolOfNumeral("5");
    AtolOfNumeral("3");
    assert "5"[..0] == "" && "3"[..0] == "";
  }

  /** The numbers of the rows that both conditions keep are printed, in the order of the file. */
  method SelectNested(catalog: Catalog, hashJoinEnabled: bool, h: Hash, size: nat, ghost i: nat, ghost j: nat)
    returns (r: Ran)
    requires HasBoth(catalog, i, j)
    ensures r == Rows(Kept(RowsAt("f", catalog), i, (t: View) => t.LongCol(i) < 5 && t.LongCol(j) > 3))
  {
    ghost var o := FileNamed("f", " ", None);
    IsSelectNested();
    NestedAnswered(catalog, i, j);
    NestedPlace();
    hide *;
    r := RunListing(TEXT, catalog, hashJoinEnabled, h, size, WrittenOuter(), OuterQuery(), o, i,
                    (t: View) => t.LongCol(i) < 5 && t.LongCol(j) > 3);
  }

  lemma NestedPlace()
    ensures var o := FileNamed("f", " ", None);
            PlaceOf(WrittenOuter()) == Single(o) && AliasName(o.alias) == "" && o.target == Path("f")
  {
  }

  lemma NestedAnswered(catalog: Catalog, i: nat, j: nat)
    requires HasBoth(catalog, i, j)
    ensures Path("f") in catalog && WellKept(catalog[Path("f")].desc, catalog[Path("f")].contents)
    ensures RowsAt("f", catalog) == Flats(RowsIn(catalog[Path("f")].contents))
    ensures var base, rows, q := Aliased(catalog[Path("f")].desc, ""), RowsAt("f", catalog), OuterQuery();
            && i < |base.columns| && base.columns[i].dtype == DTYPE_LONG && NamesKnown(q, base) && SelectsSome(q, base)
            && ShownOf(q, base) == [i] && FaithfulOn(q, base, rows) && !Stops(q, base, rows)
            && forall n :: 0 <= n < |rows| ==>
                 Satisfies(q, base, rows[n]) == (rows[n].LongCol(i) < 5 && rows[n].LongCol(j) > 3)
  {
    var desc, rows := catalog[Path("f")].desc, RowsAt("f", catalog);
    var base, q := Aliased(desc, ""), OuterQuery();
    AliasedFinds(desc.columns, desc, "", "a", "");
    AliasedFinds(desc.columns, desc, "", "b", "");
    NamesFound(base, i, j);
    forall n | 0 <= n < |rows|
      ensures FaithfulAt(q, base, rows[n])
      ensures Satisfies(q, base, rows[n]) <==> rows[n].LongCol(i) < 5 && rows[n].LongCol(j) > 3
    {
      BothAnswered(base, rows[n], i, j);
    }
    NeverStops(base, rows, i, j);
    hide *;
  }

  lemma NeverStops(base: ResultSet, rows: seq<View>, i: nat, j: nat)
    requires FindColIdxInResDesc(base.columns, "b", "") == Some(j) && base.columns[j].dtype == DTYPE_LONG
    requires FindColIdxInResDesc(Outer(base).columns, "a", "") == Some(i) && Outer(base).columns[i].dtype == DTYPE_LONG
    requires ConditionsKnown(OuterQuery(), base)
    ensures !Stops(OuterQuery(), base, rows)
  {
    BothKnown(base, i, j);
    hide FindColIdxInResDesc, Input, Answer, WellTyped, Resolves;
  }
}
