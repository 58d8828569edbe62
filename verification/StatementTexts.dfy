/** Whole statements written out, and what is printed for them. */
module StatementTexts {
  import opened CText
  import opened Tuples
  import opened Filter
  import opened Comparison
  import opened ParseTree
  import opened WrittenText
  import opened QueryText
  import opened FilterPlanner
  import opened WhereMeaning
  import opened HashTable
  import opened Scan
  import opened Bottom
  import opened JoinQuery
  import opened SelectPlanner
  import opened Pipeline
  import opened Query
  import opened Database
  import opened RunConditions
  import opened ClauseTexts
  import Aggregate

  // ----- what is expected -----

  /** The numbers in column `i` of the rows with `p`, one in a line. */
  function Kept(rows: seq<View>, i: nat, p: View -> bool): seq<seq<Value>> {
    if rows == [] then []
    else (if p(rows[0]) then [[Value.Number(rows[0].LongCol(i))]] else []) + Kept(rows[1..], i, p)
  }

  /** The rows of the file `f`. */
  function RowsAt(f: string, catalog: Catalog): seq<View>
    requires Path(f) in catalog
  {
    Flats(RowsIn(catalog[Path(f)].contents))
  }

  /** The file is in the catalog, its rows have its columns, and `i` is the first column of that name,
      a number. */
  ghost predicate HasNumber(f: string, catalog: Catalog, name: string, i: nat) {
    && Path(f) in catalog && WellKept(catalog[Path(f)].desc, catalog[Path(f)].contents)
    && Aggregate.FindByName(catalog[Path(f)].desc.columns, name) == Some(i)
    && catalog[Path(f)].desc.columns[i].dtype == DTYPE_LONG
  }

  /** Where nothing is joined there is no ON; this stands for it. */
  const NOJOIN: Condition := Last(Plain(NumberConst("0"), Equal, NumberConst("0")))

  // ----- a list of one column -----

  function OneColumn(ref: string, name: string, from: From, where: Option<Condition>): Select {
    Select(Columns([ColumnRef(ref, name)]), from, where)
  }

  lemma OneColumnShown(ref: string, name: string, from: From, where: Option<Condition>, base: ResultSet, i: nat)
    requires FindColIdxInResDesc(Seen(from, base).columns, name, ref) == Some(i)
    requires from.Sub? ==> ListsKnown(from.query, base)
    ensures var q := OneColumn(ref, name, from, where);
            ListsKnown(q, base) && ShownOf(q, base) == [i] && SelectsSome(q, base)
  {
    ResolveOne(ColumnRef(ref, name), Seen(from, base).columns);
    hide FindColIdxInResDesc, Resolve;
  }

  lemma {:induction false} AnswerKept(q: Select, base: ResultSet, rows: seq<View>, i: nat, p: View -> bool)
    requires ConditionsKnown(q, base) && i < |base.columns| && base.columns[i].dtype == DTYPE_LONG
    requires forall k :: 0 <= k < |rows| ==> Satisfies(q, base, rows[k]) == p(rows[k])
    ensures ShownRows(base.columns, [i], Answer(rows, q, base)) == Kept(rows, i, p)
  {
    if rows != [] {
      AnswerKept(q, base, rows[1..], i, p);
      var rest := Answer(rows[1..], q, base);
      assert [rows[0]] + rest == [rows[0]] + rest;
      ShownFirst(base.columns, i, rows[0], rest);
      assert [] + rest == rest && [] + Kept(rows[1..], i, p) == Kept(rows[1..], i, p);
      hide Satisfies, ShownRows;
    }
  }

  lemma ShownFirst(cols: seq<ColumnMetadata>, i: nat, t: View, rest: seq<View>)
    requires i < |cols| && cols[i].dtype == DTYPE_LONG
    ensures ShownRows(cols, [i], [t] + rest) == [[Value.Number(t.LongCol(i))]] + ShownRows(cols, [i], rest)
  {
    assert ShownRow(cols, [i], t) == [ShownValue(cols[i], i, t)];
  }

  /** What a statement that lists one number of a table prints, once its names are known and its
      conditions are answered as written. */
  method RunListing(text: string, catalog: Catalog, hashJoinEnabled: bool, h: Hash, size: nat,
                    ghost x: WrittenQuery, ghost q: Select, ghost o: Origin, ghost i: nat, ghost p: View -> bool)
    returns (r: Ran)
    requires IsStatement(text, x, Listing(q), NOJOIN)
    requires PlaceOf(x) == Single(o) && o.target in catalog
    requires WellKept(catalog[o.target].desc, catalog[o.target].contents)
    requires var base := Aliased(catalog[o.target].desc, AliasName(o.alias));
             var rows := Flats(RowsIn(catalog[o.target].contents));
             && i < |base.columns| && base.columns[i].dtype == DTYPE_LONG && NamesKnown(q, base) && SelectsSome(q, base)
             && ShownOf(q, base) == [i] && FaithfulOn(q, base, rows) && !Stops(q, base, rows)
             && forall k :: 0 <= k < |rows| ==> Satisfies(q, base, rows[k]) == p(rows[k])
    ensures r == Rows(Kept(Flats(RowsIn(catalog[o.target].contents)), i, p))
  {
    ghost var stored := catalog[o.target];
    ghost var table := Stored(Aliased(stored.desc, AliasName(o.alias)), stored.contents);
    ghost var rows := Flats(RowsIn(stored.contents));
    assert TablesOf(PlaceOf(x), catalog) == Some(One(table));
    AliasedKept(stored, o);
    ListingOfTableRuns(Listing(q), table, NOJOIN, hashJoinEnabled, h, size);
    AnswerKept(q, table.desc, rows, i, p);
    hide IsStatement, WellKept, NamesKnown, FaithfulOn, Satisfies, Stops, StatementRuns, Kept, ShownRows, Answer,
         ShownOf, SelectsSome, TablesOf, Aliased, ConditionsKnown, ListsKnown;
    r := Run(text, catalog, hashJoinEnabled, h, size, x, Listing(q), NOJOIN);
  }

  lemma AliasedKept(stored: Stored, o: Origin)
    requires WellKept(stored.desc, stored.contents)
    ensures WellKept(Aliased(stored.desc, AliasName(o.alias)), stored.contents)
  {
    hide WellStored, AllHaveWidth;
  }

  // ----- SELECT a FROM 'f' WHERE a < 5 -----

  function QueryOfOne(ref: string, name: string, w: string, place: Place, where: Option<WrittenWhere>): WrittenQuery {
    WrittenQuery("", Items(" ", ColumnItem(Column(ref, name)), " ", None), w, place, where)
  }

  function FileNamed(f: string, w: string, alias: Option<Alias>): Origin {
    Origin(Path(f), w, alias)
  }

  function AgainstNumber(s: string, k: string): Condition
    requires IsOperator(s)
  {
    ComparisonOf(Column("", "a"), s, NumberConst(k))
  }

  function WrittenAgainst(s: string, k: string): WrittenQuery
    requires IsOperator(s)
  {
    QueryOfOne("", "a", " ", Single(FileNamed("f", " ", None)),
               Some(WrittenWhere(" ", WrittenComparison(Column("", "a"), s, NumberConst(k), "", Tail.End))))
  }

  /** The text of a query for one column. */
  lemma OneColumnText(ref: string, name: string, place: Place, where: Option<WrittenWhere>, k: string)
    ensures TextOfQuery(QueryOfOne(ref, name, " ", place, where), k) ==
            "SELECT " + OperandText(Column(ref, name)) + " FROM " + PlaceText(place, WhereText(where, k))
  {
    var x, rest := QueryOfOne(ref, name, " ", place, where), PlaceText(place, WhereText(where, k));
    assert FromText(x, k) == "FROM" + (" " + rest);
    assert ItemsText(x.items, FromText(x, k)) == " " + (OperandText(Column(ref, name)) + (" " + FromText(x, k)));
    assert TextOfQuery(x, k) == "" + ("SELECT" + ItemsText(x.items, FromText(x, k)));
    hide OperandText, PlaceText, WhereText, ItemsText, FromText, TextOfQuery;
    SelectSpelled(OperandText(Column(ref, name)), rest);
  }

  lemma SelectSpelled(a: string, rest: string)
    ensures "" + ("SELECT" + (" " + (a + (" " + ("FROM" + (" " + rest)))))) == "SELECT " + a + " FROM " + rest
  {
  }

  lemma OneColumnWell(ref: string, name: string, place: Place, where: Option<WrittenWhere>)
    requires WellSpelled(Column(ref, name)) && PlaceStands(place, if where.Some? then "W" else "")
    requires where.Some? ==> AllWhite(where.value.w) && WellWritten(where.value.x)
    ensures WellQuery(QueryOfOne(ref, name, " ", place, where))
  {
    var x := QueryOfOne(ref, name, " ", place, where);
    assert AllWhite("") && AllWhite(" ");
    assert WellItem(x.items.item) && WellItems(x.items) && ItemsEndBlank(x.items);
    hide WellSpelled, PlaceStands, WellWritten;
  }

  /** A file behind FROM. */
  lemma FileSpelled(f: string, k: string)
    requires '\'' !in f && NUL !in f && |f| < MAXEXPRSIZE
    ensures PlaceText(Single(FileNamed(f, " ", None)), k) == "'" + f + "' " + k
    ensures Behind(k) ==> PlaceStands(Single(FileNamed(f, " ", None)), k)
  {
    var o := FileNamed(f, " ", None);
    assert AllWhite(" ") && WellOrigin(o);
    assert OriginText(o, k) == "'" + (f + ("'" + (" " + k)));
    assert "'" + (f + ("'" + (" " + k))) == "'" + f + "' " + k;
  }

  lemma WhereSpelled(y: Written)
    ensures WhereText(Some(WrittenWhere(" ", y)), "") == "WHERE " + TextOf(y)
  {
    assert "WHERE" + (" " + (TextOf(y) + "")) == "WHERE " + TextOf(y);
  }

  lemma IsSelectAgainst(s: string, k: string)
    requires IsOperator(s) && WellSpelled(NumberConst(k))
    ensures IsStatement("SELECT a FROM 'f' WHERE a " + s + " " + k, WrittenAgainst(s, k),
                        Listing(OneColumn("", "a", Base, Some(AgainstNumber(s, k)))), NOJOIN)
  {
    var x := WrittenAgainst(s, k);
    TextAgainst(s, k);
    ColumnSpelled();
    NoNul(NumberConst(k));
    WritesComparison(Column("", "a"), s, NumberConst(k));
    FileSpelled("f", "W");
    WrittenAs(s, k);
    OneColumnWell("", "a", x.place, x.where);
    NoNulAgainst(s, k);
    OneColumnWritten("", "a", x.place, x.where, Some(AgainstNumber(s, k)));
    hide TextOfQuery, Writes, WellQuery, WellSpelled, IsOperator, OperatorOf, OperandText, QueryWrites;
  }

  lemma NoNulAgainst(s: string, k: string)
    requires IsOperator(s) && NUL !in k
    ensures NUL !in "SELECT a FROM 'f' WHERE a " + s + " " + k
  {
  }

  lemma OneColumnWritten(ref: string, name: string, place: Place, where: Option<WrittenWhere>, c: Option<Condition>)
    requires !place.Nested? && (where.Some? <==> c.Some?) && (c.Some? ==> Writes(where.value.x, c.value))
    ensures QueryWrites(QueryOfOne(ref, name, " ", place, where), OneColumn(ref, name, Base, c))
  {
    var x := QueryOfOne(ref, name, " ", place, where);
    assert RefsWritten(x.items, [ColumnRef(ref, name)]);
    hide Writes;
  }

  lemma TextAgainst(s: string, k: string)
    requires IsOperator(s) && WellSpelled(NumberConst(k))
    ensures TextOfQuery(WrittenAgainst(s, k), "") == "SELECT a FROM 'f' WHERE a " + s + " " + k
  {
    var x, a := WrittenAgainst(s, k), Column("", "a");
    ColumnSpelled();
    assert OperandText(NumberConst(k)) == k;
    hide *;
    ComparisonClause(a, s, NumberConst(k));
    TextSpelled(a, s, NumberConst(k));
    WrittenAs(s, k);
    WhereSpelled(x.where.value.x);
    FileSpelled("f", WhereText(x.where, ""));
    OneColumnText("", "a", x.place, x.where, "");
    AgainstSpelled(s, k);
  }

  lemma WrittenAs(s: string, k: string)
    requires IsOperator(s)
    ensures var y := WrittenComparison(Column("", "a"), s, NumberConst(k), "", Tail.End);
            WrittenAgainst(s, k) ==
            QueryOfOne("", "a", " ", Single(FileNamed("f", " ", None)), Some(WrittenWhere(" ", y)))
  {
  }

  /** The rows of the file whose number stands in that relation to `k` are printed, in the order of the file. */
  method SelectAgainst(s: string, k: string, catalog: Catalog, hashJoinEnabled: bool, h: Hash, size: nat, ghost i: nat)
    returns (r: Ran)
    requires IsOperator(s) && WellSpelled(NumberConst(k)) && Numeral(k) < 0x8000_0000_0000_0000
    requires HasNumber("f", catalog, "a", i)
    requires forall t :: t in RowsAt("f", catalog) ==> Near(t.LongCol(i), Numeral(k))
    ensures r == Rows(Kept(RowsAt("f", catalog), i, (t: View) => NumbersRelate(s, t.LongCol(i), Numeral(k))))
  {
    ghost var q := OneColumn("", "a", Base, Some(AgainstNumber(s, k)));
    ghost var o := FileNamed("f", " ", None);
    IsSelectAgainst(s, k);
    AgainstAnswered(s, k, catalog, i);
    assert PlaceOf(WrittenAgainst(s, k)) == Single(o) && AliasName(o.alias) == "";
    hide IsStatement, NamesKnown, FaithfulOn, Satisfies, Stops, Kept, ShownOf, SelectsSome, ConditionsKnown, ListsKnown,
         WellKept, IsOperator, WellSpelled, Numeral, Aliased, RowsIn;
    r := RunListing("SELECT a FROM 'f' WHERE a " + s + " " + k, catalog, hashJoinEnabled, h, size, WrittenAgainst(s, k),
                    q, o, i, (t: View) => NumbersRelate(s, t.LongCol(i), Numeral(k)));
  }

  lemma AgainstAnswered(s: string, k: string, catalog: Catalog, i: nat)
    requires IsOperator(s) && WellSpelled(NumberConst(k)) && Numeral(k) < 0x8000_0000_0000_0000
    requires HasNumber("f", catalog, "a", i)
    requires forall t :: t in RowsAt("f", catalog) ==> Near(t.LongCol(i), Numeral(k))
    ensures var base, rows := Aliased(catalog[Path("f")].desc, ""), RowsAt("f", catalog);
            var q := OneColumn("", "a", Base, Some(AgainstNumber(s, k)));
            && i < |base.columns| && base.columns[i].dtype == DTYPE_LONG && NamesKnown(q, base) && SelectsSome(q, base)
            && ShownOf(q, base) == [i] && FaithfulOn(q, base, rows) && !Stops(q, base, rows)
            && forall n :: 0 <= n < |rows| ==>
                 Satisfies(q, base, rows[n]) == NumbersRelate(s, rows[n].LongCol(i), Numeral(k))
  {
    var desc, rows, c := catalog[Path("f")].desc, RowsAt("f", catalog), AgainstNumber(s, k);
    var base, q, a, n := Aliased(desc, ""), OneColumn("", "a", Base, Some(c)), Column("", "a"), NumberConst(k);
    AliasedFinds(desc.columns, desc, "", "a", "");
    OneColumnShown("", "a", Base, Some(c), base, i);
    NumberIs(k);
    KnownAgainst(s, k, base, i);
    forall m | 0 <= m < |rows|
      ensures FaithfulAt(q, base, rows[m])
      ensures Satisfies(q, base, rows[m]) == NumbersRelate(s, rows[m].LongCol(i), Numeral(k))
    {
      var t := rows[m];
      ColumnIs("a", base, t, i);
      ConstantIs(k, base, t);
      NumbersMean(a, s, n, base, t, t.LongCol(i), Numeral(k));
      NumbersFaithful(a, s, n, base, t, t.LongCol(i), Numeral(k));
    }
    hide *;
  }

  lemma KnownAgainst(s: string, k: string, base: ResultSet, i: nat)
    requires IsOperator(s) && FindColIdxInResDesc(base.columns, "a", "") == Some(i)
    requires base.columns[i].dtype == DTYPE_LONG
    ensures var q, c := OneColumn("", "a", Base, Some(AgainstNumber(s, k))), AgainstNumber(s, k);
            ConditionsKnown(q, base) && Resolves(c, base) && WellTyped(c, base)
  {
  }

  lemma ColumnSpelled()
    ensures OperandText(Column("", "a")) == "a" && WellSpelled(Column("", "a"))
    ensures '\'' !in "f" && NUL !in "f" && |"f"| < MAXEXPRSIZE
  {
  }

  lemma AgainstSpelled(s: string, k: string)
    ensures "SELECT " + "a" + " FROM " + ("'" + "f" + "' " + ("WHERE " + ("a" + " " + s + " " + k))) ==
            "SELECT a FROM 'f' WHERE a " + s + " " + k
  {
  }

  // ----- SELECT MAX(a) FROM 'f' -----

  function WrittenCall(f: string): WrittenQuery {
    var args := Items("", ColumnItem(Column("", "a")), "", None);
    WrittenQuery("", Items(" ", CallItem(f, args), " ", None), " ", Single(FileNamed("f", "", None)), None)
  }

  /** A name that the parser takes for one. */
  predicate IsName(f: string) {
    f != "" && IsLetter(f[0]) && AllAlphaNumeric(f) && |f| < MAXEXPRSIZE
  }

  lemma TextOfCall(f: string)
    ensures TextOfQuery(WrittenCall(f), "") == "SELECT " + f + "(a) FROM 'f'"
  {
    var x := WrittenCall(f);
    var place, args := PlaceText(x.place, ""), x.items.item.args;
    assert place == "'" + ("f" + ("'" + ("" + "")));
    assert WhereText(x.where, "") == "" && FromText(x, "") == "FROM" + (" " + place);
    assert ItemsText(args, ")" + (" " + FromText(x, ""))) == "" + ("a" + ("" + (")" + (" " + FromText(x, "")))));
    assert ItemsText(x.items, FromText(x, "")) == " " + (f + ("(" + ItemsText(args, ")" + (" " + FromText(x, "")))));
    assert TextOfQuery(x, "") == "" + ("SELECT" + ItemsText(x.items, FromText(x, "")));
    hide PlaceText, ItemsText, FromText, TextOfQuery;
    CallSpelled(f, place);
  }

  lemma CallSpelled(f: string, place: string)
    requires place == "'" + ("f" + ("'" + ("" + "")))
    ensures "" + ("SELECT" + (" " + (f + ("(" + ("" + ("a" + ("" + (")" + (" " + ("FROM" + (" " + place))))))))))) ==
            "SELECT " + f + "(a) FROM 'f'"
  {
  }

  lemma IsSelectCall(f: string)
    requires IsName(f)
    ensures IsStatement("SELECT " + f + "(a) FROM 'f'", WrittenCall(f), Aggregation(f, "a", Base, None), NOJOIN)
  {
    var x := WrittenCall(f);
    TextOfCall(f);
    ColumnSpelled();
    WellCall(f);
    assert NUL !in "SELECT " + f + "(a) FROM 'f'" by {
      assert forall c :: c in f ==> IsAlphaNumeric(c);
    }
    hide TextOfQuery, WellQuery;
  }

  lemma WellCall(f: string)
    requires IsName(f)
    ensures WellQuery(WrittenCall(f))
  {
    var x := WrittenCall(f);
    assert AllWhite("") && AllWhite(" ") && WellSpelled(Column("", "a"));
    assert WellItems(x.items.item.args) && WellItem(x.items.item) && WellItems(x.items);
    assert WellOrigin(FileNamed("f", "", None)) && PlaceStands(x.place, "");
  }

  /** The aggregate of the column by the name of the function is printed, or the name is refused. */
  method SelectAggregate(f: string, catalog: Catalog, hashJoinEnabled: bool, h: Hash, size: nat, ghost i: nat)
    returns (r: Ran)
    requires IsName(f) && HasNumber("f", catalog, "a", i)
    ensures PrintsAsNamed(f, Aggregate.ColumnOf(RowsAt("f", catalog), i), r)
    ensures f !in {"COUNT", "MAX", "MIN", "SUM", "AVG"} ==> r == Refused
  {
    ghost var s, stored := Aggregation(f, "a", Base, None), catalog[Path("f")];
    ghost var table, rows := Stored(Aliased(stored.desc, ""), stored.contents), RowsAt("f", catalog);
    IsSelectCall(f);
    AliasedKept(stored, FileNamed("f", "", None));
    Aggregate.SameFindByName(table.desc.columns, stored.desc.columns, "a");
    CallRuns(s, table, hashJoinEnabled, h, size, i);
    CallAnswered(table.desc, rows, i);
    AggregatesByName(f, "a", Base, None, table.desc, rows, i);
    CallKnown(f, table.desc, i);
    assert TablesOf(PlaceOf(WrittenCall(f)), catalog) == Some(One(table));
    hide IsStatement, WellKept, NamesKnown, FaithfulOn, Stops, StatementRuns, Answer, TablesOf, Aliased, IsName,
         PrintsAsNamed, Aggregate.FindByName, Aggregate.AggregateOf, Aggregate.AggregationOf;
    r := Run("SELECT " + f + "(a) FROM 'f'", catalog, hashJoinEnabled, h, size, WrittenCall(f), s, NOJOIN);
  }

  lemma CallRuns(s: Statement, table: Stored, hashJoinEnabled: bool, h: Hash, size: nat, i: nat)
    requires s.Aggregation? && s.column == "a" && WellKept(table.desc, table.contents)
    requires Aggregate.FindByName(table.desc.columns, "a") == Some(i) && table.desc.columns[i].dtype == DTYPE_LONG
    ensures StatementRuns(s, One(table), NOJOIN, hashJoinEnabled, h, size)
  {
    ListingOfTableRuns(Listing(OneColumn("", "a", Base, None)), table, NOJOIN, hashJoinEnabled, h, size);
    forall k | 0 <= k < |RowsIn(table.contents)| && RowsIn(table.contents)[k].kind == TPL_TDB
      ensures RowsIn(table.contents)[k].Offset(i) + 8 <= |RowsIn(table.contents)[k].data|
    {
      KeptRows(table.desc, table.contents, k, i);
    }
    hide WellKept, WellStored, RowsIn, Aggregate.FindByName;
    assert StatementReads(s, One(table), Described);
    assert TablesRun(One(table), NOJOIN, hashJoinEnabled, h, size, Described);
  }

  lemma CallKnown(f: string, base: ResultSet, i: nat)
    requires Aggregate.FindByName(base.columns, "a") == Some(i)
    ensures StatementKnown(Aggregation(f, "a", Base, None), base) <==> Aggregate.AggregationOf(f).Some?
  {
  }

  lemma CallAnswered(base: ResultSet, rows: seq<View>, i: nat)
    ensures var q := Select(Star, Base, None);
            NamesKnown(q, base) && FaithfulOn(q, base, rows) && !Stops(q, base, rows) && Answer(rows, q, base) == rows
  {
    Pipeline.NoCondition(Select(Star, Base, None), rows, base);
  }

  // ----- SELECT t.a FROM 'f' AS t -----

  function Under(alias: string, after: string): Option<Alias> {
    Some(Alias(" ", alias, after))
  }

  function AliasedFile(f: string, alias: string, after: string): Origin {
    FileNamed(f, " ", Under(alias, after))
  }

  /** A file, AS, and an alias. */
  lemma AliasSpelled(f: string, alias: string, after: string, k: string)
    ensures OriginText(AliasedFile(f, alias, after), k) == "'" + f + "' AS " + alias + after + k
  {
    assert OriginText(AliasedFile(f, alias, after), k) ==
           "'" + (f + ("'" + (" " + ("AS" + (" " + (alias + (after + k)))))));
    assert "'" + (f + ("'" + (" " + ("AS" + (" " + (alias + (after + k))))))) == "'" + f + "' AS " + alias + after + k;
    hide OriginText;
  }

  lemma AliasWell(f: string, alias: string, after: string, k: string)
    requires '\'' !in f && NUL !in f && |f| < MAXEXPRSIZE
    requires alias != "" && AllLetters(alias) && |alias| < MAXEXPRSIZE && AllWhite(after) && Follows(k)
    requires after == "" ==> !IsLetter(Head(k))
    ensures OriginStands(AliasedFile(f, alias, after), k)
  {
    assert AllWhite(" ");
  }

  function WrittenAlias(ref: string): WrittenQuery {
    QueryOfOne(ref, "a", " ", Single(AliasedFile("f", "t", "")), None)
  }

  lemma IsSelectOfAlias(ref: string)
    requires WellSpelled(Column(ref, "a"))
    ensures IsStatement("SELECT " + OperandText(Column(ref, "a")) + " FROM 'f' AS t", WrittenAlias(ref),
                        Listing(OneColumn(ref, "a", Base, None)), NOJOIN)
  {
    var x, place := WrittenAlias(ref), Single(AliasedFile("f", "t", ""));
    OneColumnText(ref, "a", place, None, "");
    AliasSpelled("f", "t", "", "");
    ColumnSpelled();
    AliasWell("f", "t", "", "");
    OneColumnWell(ref, "a", place, None);
    OneColumnWritten(ref, "a", place, None, None);
    NoNul(Column(ref, "a"));
    assert TextOfQuery(x, "") ==
           "SELECT " + OperandText(Column(ref, "a")) + " FROM " + OriginText(AliasedFile("f", "t", ""), "");
    hide TextOfQuery, WellQuery, WellSpelled, OperandText, QueryWrites, OriginText;
    AliasTail(OperandText(Column(ref, "a")));
  }

  lemma AliasTail(o: string)
    ensures "SELECT " + o + " FROM " + ("'" + "f" + "' AS " + "t" + "" + "") == "SELECT " + o + " FROM 'f' AS t"
    ensures NUL !in o ==> NUL !in "SELECT " + o + " FROM 'f' AS t"
  {
  }

  /** Under the alias of its table a column is found and printed; under another, or under none, it is not. */
  method SelectOfAlias(ref: string, catalog: Catalog, hashJoinEnabled: bool, h: Hash, size: nat, ghost i: nat)
    returns (r: Ran)
    requires WellSpelled(Column(ref, "a")) && HasNumber("f", catalog, "a", i)
    ensures ref == "t" ==> r == Rows(Kept(RowsAt("f", catalog), i, (t: View) => true))
    ensures ref != "t" ==> r == Refused
  {
    ghost var q, stored, o := OneColumn(ref, "a", Base, None), catalog[Path("f")], AliasedFile("f", "t", "");
    ghost var table, rows := Stored(Aliased(stored.desc, "t"), stored.contents), RowsAt("f", catalog);
    IsSelectOfAlias(ref);
    AliasedKept(stored, o);
    ListingOfTableRuns(Listing(q), table, NOJOIN, hashJoinEnabled, h, size);
    AliasedFinds(stored.desc.columns, stored.desc, "t", "a", ref);
    assert TablesOf(PlaceOf(WrittenAlias(ref)), catalog) == Some(One(table));
    if ref == "t" {
      AllAnswered(q, table.desc, rows, i);
    } else {
      NotShown(q, table.desc);
    }
    hide IsStatement, WellKept, NamesKnown, FaithfulOn, Stops, StatementRuns, Kept, TablesOf, Aliased, WellSpelled,
         Answer, ShownOf, SelectsSome, OperandText, ResultOf;
    r := Run("SELECT " + OperandText(Column(ref, "a")) + " FROM 'f' AS t", catalog, hashJoinEnabled, h, size,
             WrittenAlias(ref), Listing(q), NOJOIN);
  }

  /** A column of the base is listed, of all its rows. */
  lemma AllAnswered(q: Select, base: ResultSet, rows: seq<View>, i: nat)
    requires q.list.Columns? && |q.list.refs| == 1
    requires q == OneColumn(q.list.refs[0].tblref, q.list.refs[0].name, Base, None)
    requires FindColIdxInResDesc(base.columns, q.list.refs[0].name, q.list.refs[0].tblref) == Some(i)
    requires base.columns[i].dtype == DTYPE_LONG
    ensures NamesKnown(q, base) && SelectsSome(q, base) && FaithfulOn(q, base, rows)
    ensures ResultOf(q, base, rows) == Rows(Kept(rows, i, (t: View) => true))
  {
    OneColumnShown(q.list.refs[0].tblref, q.list.refs[0].name, Base, None, base, i);
    AnswerKept(q, base, rows, i, (t: View) => true);
    hide FindColIdxInResDesc, ShownRows, Kept, Answer, ShownOf, ListsKnown;
  }

  lemma NotShown(q: Select, base: ResultSet)
    requires q.list.Columns? && |q.list.refs| == 1 && q.from.Base?
    requires FindColIdxInResDesc(base.columns, q.list.refs[0].name, q.list.refs[0].tblref) == None
    ensures !NamesKnown(q, base)
  {
    assert q.list.refs == [q.list.refs[0]];
    ResolveOne(q.list.refs[0], base.columns);
    hide FindColIdxInResDesc, Resolve;
  }
}
