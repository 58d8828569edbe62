/** WHERE clauses written out, with their operators and connectors as they are spelled, and which tuples
    they keep. */
module ClauseTexts {
  import opened CText
  import opened Tuples
  import opened Filter
  import opened Comparison
  import opened ParseTree
  import opened WrittenText
  import opened FilterPlanner
  import opened WhereMeaning
  import opened Evaluator
  import opened Readings
  import opened Where

  // ----- what the spellings stand for -----

  predicate IsOperator(s: string) {
    s == "=" || s == "!=" || s == "<" || s == ">" || s == ">=" || s == "<="
  }

  predicate NumbersRelate(s: string, m: int, n: int) {
    if s == "=" then m == n
    else if s == "!=" then m != n
    else if s == "<" then m < n
    else if s == ">" then m > n
    else if s == ">=" then m >= n
    else m <= n
  }

  ghost predicate TextsCompare(s: string, a: string, b: string) {
    if s == "=" then a == b
    else if s == "!=" then a != b
    else if s == "<" then Precedes(a, b)
    else if s == ">" then Precedes(b, a)
    else if s == ">=" then a == b || Precedes(b, a)
    else a == b || Precedes(a, b)
  }

  /** The operator of that spelling. */
  function OperatorOf(s: string): Operator
    requires IsOperator(s)
  {
    if s == "=" then Equal
    else if s == "!=" then NotEqual
    else if s == "<" then Less
    else if s == ">" then Greater
    else if s == ">=" then GreaterOrEqual
    else LessOrEqual
  }

  lemma SpelledSo(s: string)
    requires IsOperator(s)
    ensures Spelling(OperatorOf(s)) == s
  {
  }

  // ----- one comparison -----

  /** `l s r`, with single blanks. */
  function ComparisonText(l: Operand, s: string, r: Operand): string {
    OperandText(l) + " " + s + " " + OperandText(r)
  }

  function WrittenComparison(l: Operand, s: string, r: Operand, w: string, tail: Tail): Written
    requires IsOperator(s)
  {
    Written(Opd(l), " ", Cmp(OperatorOf(s), " ", Written(Opd(r), w, tail)))
  }

  function ComparisonOf(l: Operand, s: string, r: Operand): Condition
    requires IsOperator(s)
  {
    Last(Plain(l, OperatorOf(s), r))
  }

  /** The clause with this one comparison. */
  lemma ComparisonClause(l: Operand, s: string, r: Operand)
    requires IsOperator(s) && WellSpelled(l) && WellSpelled(r)
    ensures NUL !in OperandText(l) && NUL !in OperandText(r)
    ensures TextOf(WrittenComparison(l, s, r, "", End)) == ComparisonText(l, s, r)
    ensures IsWhereClause("WHERE " + ComparisonText(l, s, r), ComparisonOf(l, s, r), " ",
                          WrittenComparison(l, s, r, "", End), "")
  {
    var x := WrittenComparison(l, s, r, "", End);
    NoNul(l);
    NoNul(r);
    ComparisonSpelled(l, s, r, "", End);
    assert TailText(End) == "";
    WritesComparison(l, s, r);
    assert NUL !in ComparisonText(l, s, r);
    assert ComparisonText(l, s, r) + ("" + "") == ComparisonText(l, s, r);
    assert "WHERE " + ComparisonText(l, s, r) == "WHERE" + (" " + (TextOf(x) + ""));
    hide OperandText, WellSpelled, ComparisonText, TextOf, Writes, Stands, GroupsFirst;
  }

  lemma WritesComparison(l: Operand, s: string, r: Operand)
    requires IsOperator(s) && WellSpelled(l) && WellSpelled(r)
    ensures var x, c := WrittenComparison(l, s, r, "", End), ComparisonOf(l, s, r);
            Stands(x, "") && Writes(x, c) && GroupsFirst(c)
  {
    var x, c, rest := WrittenComparison(l, s, r, "", End), ComparisonOf(l, s, r), Written(Opd(r), "", End);
    assert AllWhite("") && AllWhite(" ") && WellWrittenTail(End);
    assert WellWritten(rest);
    assert WellWrittenTail(x.tail) && WellWritten(x);
    assert TailWrites(End, c) && Writes(x, c);
    hide WellSpelled, OperatorOf;
  }

  lemma ComparisonSpelled(l: Operand, s: string, r: Operand, w: string, tail: Tail)
    requires IsOperator(s)
    ensures TextOf(WrittenComparison(l, s, r, w, tail)) == ComparisonText(l, s, r) + (w + TailText(tail))
  {
    var rest := Written(Opd(r), w, tail);
    SpelledSo(s);
    assert TextOf(rest) == OperandText(r) + (w + TailText(tail));
    assert TailText(Cmp(OperatorOf(s), " ", rest)) == s + (" " + TextOf(rest));
    assert TextOf(WrittenComparison(l, s, r, w, tail)) == OperandText(l) + (" " + (s + (" " + TextOf(rest))));
    hide OperandText, TailText, TextOf;
    Spaced(OperandText(l), s, OperandText(r), w + TailText(tail));
  }

  lemma Spaced(a: string, b: string, c: string, k: string)
    ensures a + (" " + (b + (" " + (c + k)))) == a + " " + b + " " + c + k
  {
  }

  lemma NoNul(o: Operand)
    requires WellSpelled(o)
    ensures NUL !in OperandText(o)
  {
  }

  /** Between numbers it holds as it reads. */
  lemma NumbersMean(l: Operand, s: string, r: Operand, desc: ResultSet, t: View, m: int, n: int)
    requires IsOperator(s) && Known(l, desc) && Known(r, desc)
    requires ValueOf(l, desc, t) == Number(m) && ValueOf(r, desc, t) == Number(n)
    ensures Resolves(ComparisonOf(l, s, r), desc)
    ensures Means(ComparisonOf(l, s, r), desc, t, t) <==> NumbersRelate(s, m, n)
  {
    hide *;
    MeansAlone(l, s, r, desc, t);
    CompareNumbers(s, m, n);
  }

  lemma CompareNumbers(s: string, m: int, n: int)
    requires IsOperator(s)
    ensures Compare(OperatorOf(s), Number(m), Number(n)) <==> NumbersRelate(s, m, n)
  {
  }

  lemma MeansAlone(l: Operand, s: string, r: Operand, desc: ResultSet, t: View)
    requires IsOperator(s) && Known(l, desc) && Known(r, desc)
    ensures Resolves(ComparisonOf(l, s, r), desc)
    ensures Means(ComparisonOf(l, s, r), desc, t, t) <==>
              Compare(OperatorOf(s), ValueOf(l, desc, t), ValueOf(r, desc, t))
  {
    var c := ComparisonOf(l, s, r);
    assert MeansItem(c.item, desc, t, t) == Compare(OperatorOf(s), ValueOf(l, desc, t), ValueOf(r, desc, t));
    assert MeansFrom(c, true, AND, desc, t, t) == MeansItem(c.item, desc, t, t);
    hide Compare, ValueOf, Known, OperatorOf;
  }

  /** And between texts, in the order of their bytes. */
  lemma TextsMean(l: Operand, s: string, r: Operand, desc: ResultSet, t: View, a: string, b: string)
    requires IsOperator(s) && Known(l, desc) && Known(r, desc)
    requires ValueOf(l, desc, t) == Text(a) && ValueOf(r, desc, t) == Text(b)
    ensures Resolves(ComparisonOf(l, s, r), desc)
    ensures Means(ComparisonOf(l, s, r), desc, t, t) <==> TextsCompare(s, a, b)
  {
    MeansAlone(l, s, r, desc, t);
    StrcmpOrders(a, b);
    hide Means, Strcmp, Precedes, ValueOf;
  }

  /** Longs that are less than 2^31 apart are compared as written. */
  predicate Near(m: int, n: int) { -0x8000_0000 <= m - n < 0x8000_0000 }

  lemma NumbersFaithful(l: Operand, s: string, r: Operand, desc: ResultSet, t: View, m: int, n: int)
    requires IsOperator(s) && Known(l, desc) && Known(r, desc)
    requires TypeOf(l, desc) == DTYPE_LONG == TypeOf(r, desc)
    requires ValueOf(l, desc, t) == Number(m) && ValueOf(r, desc, t) == Number(n) && Near(m, n)
    ensures var c := ComparisonOf(l, s, r);
            && Resolves(c, desc) && WellTyped(c, desc) && Typed(OpsOf(c, desc)) && AllFaithful(OpsOf(c, desc), t, t)
  {
    var c := ComparisonOf(l, s, r);
    OpsTyped(c, desc);
    var op := OpOf(c.item, AND, desc);
    assert OpsOf(c, desc) == [op] && [op][1..] == [];
    assert Order(LeftValue(op, t), RightValue(op, t)) == m - n;
    NearSurvives(op.boolOp, m - n);
    assert FaithfulOp(op, t, t);
    hide Faithful, DifferenceSurvives, Typed;
  }

  /** A column and a number: the tuple is kept exactly when they stand in that relation. */
  method ColumnAgainstNumber(a: string, s: string, k: string, desc: ResultSet, ref: TupleRef, ghost i: nat)
    returns (r: Option<bool>)
    requires IsOperator(s) && WellSpelled(Column("", a)) && WellSpelled(NumberConst(k))
    requires Numeral(k) < 0x8000_0000_0000_0000
    requires FindColIdxInResDesc(desc.columns, a, "") == Some(i) && desc.columns[i].dtype == DTYPE_LONG
    requires Ready(ref, DescribedReadings(desc)) && Near(ViewOf(ref).LongCol(i), Numeral(k))
    modifies ref.Repr()
    ensures Ready(ref, DescribedReadings(desc)) && ViewOf(ref) == old(ViewOf(ref))
    ensures r == Some(NumbersRelate(s, ViewOf(ref).LongCol(i), Numeral(k)))
  {
    ghost var t := ViewOf(ref);
    ghost var x, y := Column("", a), NumberConst(k);
    NumberIs(k);
    ColumnIs(a, desc, t, i);
    ConstantIs(k, desc, t);
    assert OperandText(x) == a && OperandText(y) == k;
    hide *;
    ComparisonClause(x, s, y);
    NumbersMean(x, s, y, desc, t, t.LongCol(i), Numeral(k));
    NumbersFaithful(x, s, y, desc, t, t.LongCol(i), Numeral(k));
    TextSpelled(x, s, y);
    r := EvaluateWhere("WHERE " + (a + " " + s + " " + k), desc, ref, ComparisonOf(x, s, y), " ",
                       WrittenComparison(x, s, y, "", End), "");
  }

  lemma TextSpelled(l: Operand, s: string, r: Operand)
    ensures ComparisonText(l, s, r) == OperandText(l) + " " + s + " " + OperandText(r)
  {
  }

  lemma NumberIs(k: string)
    requires WellSpelled(NumberConst(k)) && Numeral(k) < 0x8000_0000_0000_0000
    ensures Atol(k) == Numeral(k)
  {
    AtolOfNumeral(k);
  }

  lemma ColumnIs(a: string, desc: ResultSet, t: View, i: nat)
    requires FindColIdxInResDesc(desc.columns, a, "") == Some(i)
    ensures var o := Column("", a);
            && Known(o, desc) && TypeOf(o, desc) == desc.columns[i].dtype
            && (desc.columns[i].dtype == DTYPE_LONG ==> ValueOf(o, desc, t) == Number(t.LongCol(i)))
            && (desc.columns[i].dtype == DTYPE_STR ==> ValueOf(o, desc, t) == Text(t.StrCol(i)))
  {
  }

  lemma ConstantIs(k: string, desc: ResultSet, t: View)
    ensures var o := NumberConst(k);
            Known(o, desc) && TypeOf(o, desc) == DTYPE_LONG && ValueOf(o, desc, t) == Number(Atol(k))
  {
  }

  /** Two columns, of numbers or of texts. */
  method ColumnAgainstColumn(a: string, s: string, b: string, desc: ResultSet, ref: TupleRef,
                             ghost i: nat, ghost j: nat)
    returns (r: Option<bool>)
    requires IsOperator(s) && WellSpelled(Column("", a)) && WellSpelled(Column("", b))
    requires FindColIdxInResDesc(desc.columns, a, "") == Some(i) && FindColIdxInResDesc(desc.columns, b, "") == Some(j)
    requires desc.columns[i].dtype == desc.columns[j].dtype && desc.columns[i].dtype in {DTYPE_LONG, DTYPE_STR}
    requires Ready(ref, DescribedReadings(desc))
    requires desc.columns[i].dtype == DTYPE_LONG ==> Near(ViewOf(ref).LongCol(i), ViewOf(ref).LongCol(j))
    modifies ref.Repr()
    ensures Ready(ref, DescribedReadings(desc)) && ViewOf(ref) == old(ViewOf(ref))
    ensures desc.columns[i].dtype == DTYPE_LONG ==>
              r == Some(NumbersRelate(s, ViewOf(ref).LongCol(i), ViewOf(ref).LongCol(j)))
    ensures desc.columns[i].dtype == DTYPE_STR ==>
              r == Some(TextsCompare(s, ViewOf(ref).StrCol(i), ViewOf(ref).StrCol(j)))
  {
    ghost var t := ViewOf(ref);
    ghost var x, y := Column("", a), Column("", b);
    ColumnIs(a, desc, t, i);
    ColumnIs(b, desc, t, j);
    assert OperandText(x) == a && OperandText(y) == b;
    hide *;
    ComparisonClause(x, s, y);
    if desc.columns[i].dtype == DTYPE_LONG {
      NumbersMean(x, s, y, desc, t, t.LongCol(i), t.LongCol(j));
      NumbersFaithful(x, s, y, desc, t, t.LongCol(i), t.LongCol(j));
    } else {
      TextsMean(x, s, y, desc, t, t.StrCol(i), t.StrCol(j));
      TextsFaithful(x, s, y, desc, t);
    }
    TextSpelled(x, s, y);
    r := EvaluateWhere("WHERE " + (a + " " + s + " " + b), desc, ref, ComparisonOf(x, s, y), " ",
                       WrittenComparison(x, s, y, "", End), "");
  }

  lemma TextsFaithful(l: Operand, s: string, r: Operand, desc: ResultSet, t: View)
    requires IsOperator(s) && Known(l, desc) && Known(r, desc) && l.Column? && r.Column?
    requires TypeOf(l, desc) == DTYPE_STR == TypeOf(r, desc)
    ensures var c := ComparisonOf(l, s, r);
            && Resolves(c, desc) && WellTyped(c, desc) && Typed(OpsOf(c, desc)) && AllFaithful(OpsOf(c, desc), t, t)
  {
    var c := ComparisonOf(l, s, r);
    OpsTyped(c, desc);
    var op := OpOf(c.item, AND, desc);
    assert OpsOf(c, desc) == [op] && [op][1..] == [];
    assert FaithfulOp(op, t, t);
    hide Typed;
  }

  /** The six clauses with the column `a` and the number 5. */
  method AgainstFive(text: string, desc: ResultSet, ref: TupleRef, ghost i: nat) returns (r: Option<bool>)
    requires text in {"WHERE a = 5", "WHERE a != 5", "WHERE a < 5", "WHERE a > 5", "WHERE a >= 5", "WHERE a <= 5"}
    requires FindColIdxInResDesc(desc.columns, "a", "") == Some(i) && desc.columns[i].dtype == DTYPE_LONG
    requires Ready(ref, DescribedReadings(desc)) && Near(ViewOf(ref).LongCol(i), 5)
    modifies ref.Repr()
    ensures text == "WHERE a = 5" ==> r == Some(ViewOf(ref).LongCol(i) == 5)
    ensures text == "WHERE a != 5" ==> r == Some(ViewOf(ref).LongCol(i) != 5)
    ensures text == "WHERE a < 5" ==> r == Some(ViewOf(ref).LongCol(i) < 5)
    ensures text == "WHERE a > 5" ==> r == Some(ViewOf(ref).LongCol(i) > 5)
    ensures text == "WHERE a >= 5" ==> r == Some(ViewOf(ref).LongCol(i) >= 5)
    ensures text == "WHERE a <= 5" ==> r == Some(ViewOf(ref).LongCol(i) <= 5)
  {
    var s := OperatorIn(text);
    Five(text);
    RelatesToFive(text, ViewOf(ref).LongCol(i));
    hide *;
    r := ColumnAgainstNumber("a", s, "5", desc, ref, i);
  }

  function OperatorIn(text: string): string {
    if text == "WHERE a = 5" then "="
    else if text == "WHERE a != 5" then "!="
    else if text == "WHERE a < 5" then "<"
    else if text == "WHERE a > 5" then ">"
    else if text == "WHERE a >= 5" then ">="
    else "<="
  }

  lemma Five(text: string)
    ensures IsOperator(OperatorIn(text)) && WellSpelled(Column("", "a")) && WellSpelled(NumberConst("5"))
    ensures Numeral("5") == 5
  {
    assert "5"[..0] == "";
  }

  lemma RelatesToFive(text: string, n: int)
    requires text in {"WHERE a = 5", "WHERE a != 5", "WHERE a < 5", "WHERE a > 5", "WHERE a >= 5", "WHERE a <= 5"}
    ensures text == "WHERE " + ("a" + " " + OperatorIn(text) + " " + "5")
    ensures text == "WHERE a = 5" ==> (NumbersRelate(OperatorIn(text), n, 5) <==> n == 5)
    ensures text == "WHERE a != 5" ==> (NumbersRelate(OperatorIn(text), n, 5) <==> n != 5)
    ensures text == "WHERE a < 5" ==> (NumbersRelate(OperatorIn(text), n, 5) <==> n < 5)
    ensures text == "WHERE a > 5" ==> (NumbersRelate(OperatorIn(text), n, 5) <==> n > 5)
    ensures text == "WHERE a >= 5" ==> (NumbersRelate(OperatorIn(text), n, 5) <==> n >= 5)
    ensures text == "WHERE a <= 5" ==> (NumbersRelate(OperatorIn(text), n, 5) <==> n <= 5)
  {
  }

  // ----- two comparisons -----

  /** `AND` keeps what both keep, `OR` what one of them keeps. */
  lemma ConnectedMeans(l: Item, word: string, r: Item, desc: ResultSet, t: View)
    requires word in {"AND", "OR"} && ResolvesItem(l, desc) && ResolvesItem(r, desc)
    ensures var c := More(l, ConnectorOfWord(word), Last(r));
            && ConnectorText(c.conn) == word && Resolves(c, desc)
            && (Means(c, desc, t, t) <==>
                  if word == "AND" then MeansItem(l, desc, t, t) && MeansItem(r, desc, t, t)
                  else MeansItem(l, desc, t, t) || MeansItem(r, desc, t, t))
  {
    var conn := ConnectorOfWord(word);
    var c := More(l, conn, Last(r));
    assert MeansFrom(Last(r), MeansItem(l, desc, t, t), conn, desc, t, t) ==
           Combine(conn, MeansItem(r, desc, t, t), MeansItem(l, desc, t, t));
    assert MeansFrom(c, true, AND, desc, t, t) ==
           MeansFrom(Last(r), Combine(AND, MeansItem(l, desc, t, t), true), conn, desc, t, t);
    hide MeansItem;
  }

  function ConnectorOfWord(word: string): Connector {
    if word == "AND" then AND else OR
  }

  /** `l1 s1 r1 word l2 s2 r2`, with single blanks. */
  lemma ConnectedClause(l1: Operand, s1: string, r1: Operand, word: string, l2: Operand, s2: string, r2: Operand)
    requires IsOperator(s1) && IsOperator(s2) && word in {"AND", "OR"}
    requires WellSpelled(l1) && WellSpelled(r1) && WellSpelled(l2) && WellSpelled(r2)
    ensures var conn := ConnectorOfWord(word);
            var y, d := WrittenComparison(l2, s2, r2, "", End), ComparisonOf(l2, s2, r2);
            var x := WrittenComparison(l1, s1, r1, " ", Conn(conn, " ", y));
            var c := More(ComparisonOf(l1, s1, r1).item, conn, d);
            var text := ComparisonText(l1, s1, r1) + " " + word + " " + ComparisonText(l2, s2, r2);
            IsWhereClause("WHERE " + text, c, " ", x, "")
  {
    var conn := ConnectorOfWord(word);
    var y := WrittenComparison(l2, s2, r2, "", End);
    var tail := Conn(conn, " ", y);
    var x := WrittenComparison(l1, s1, r1, " ", tail);
    WritesComparison(l2, s2, r2);
    ComparisonSpelled(l1, s1, r1, " ", tail);
    ComparisonSpelled(l2, s2, r2, "", End);
    NoNul(l1);
    NoNul(r1);
    NoNul(l2);
    NoNul(r2);
    WritesConnected(l1, s1, r1, word, l2, s2, r2);
    var a, b := ComparisonText(l1, s1, r1), ComparisonText(l2, s2, r2);
    assert NUL !in a && NUL !in b && NUL !in word;
    assert TailText(End) == "" && TailText(tail) == word + (" " + TextOf(y));
    hide *;
    Connects(a, word, b);
    assert TextOf(y) == b by {
      assert b + ("" + "") == b;
    }
  }

  lemma WritesConnected(l1: Operand, s1: string, r1: Operand, word: string, l2: Operand, s2: string, r2: Operand)
    requires IsOperator(s1) && IsOperator(s2)
    requires WellSpelled(l1) && WellSpelled(r1) && WellSpelled(l2) && WellSpelled(r2)
    ensures var conn := ConnectorOfWord(word);
            var y, d := WrittenComparison(l2, s2, r2, "", End), ComparisonOf(l2, s2, r2);
            var x := WrittenComparison(l1, s1, r1, " ", Conn(conn, " ", y));
            var c := More(ComparisonOf(l1, s1, r1).item, conn, d);
            Stands(x, "") && Writes(x, c) && GroupsFirst(c)
  {
    var conn := ConnectorOfWord(word);
    var y, d := WrittenComparison(l2, s2, r2, "", End), ComparisonOf(l2, s2, r2);
    var tail := Conn(conn, " ", y);
    var x, c := WrittenComparison(l1, s1, r1, " ", tail), More(ComparisonOf(l1, s1, r1).item, conn, d);
    WritesComparison(l2, s2, r2);
    assert AllWhite(" ") && WellWrittenTail(tail);
    assert WellWritten(Written(Opd(r1), " ", tail));
    assert WellWrittenTail(x.tail) && WellWritten(x);
    assert TailWrites(tail, c) && Writes(x, c);
    hide WellSpelled, OperatorOf;
  }

  lemma Connects(a: string, word: string, b: string)
    ensures "WHERE " + (a + " " + word + " " + b) == "WHERE" + (" " + (a + (" " + (word + (" " + b))) + ""))
  {
  }
}
