/** What a cast leaves behind in a tuple that is kept: the offset of its column has become a slot, so
    its text is read there, and past the width of a line, where nothing resets it, its number too. And
    when a join can be aggregated all the same. */
module KeptCasts {
  import opened CText
  import opened Tuples
  import opened Filter
  import opened FilterPlanner
  import opened WhereMeaning
  import opened Evaluator
  import opened Readings
  import opened Scan
  import opened JoinTuples
  import opened JoinPlanner
  import opened JoinQuery
  import opened SelectPlanner
  import opened Pipeline
  import opened Bottom

  // ----- lines that tell -----

  /** `w` in the first of `n` columns, and nothing in the others. */
  function HeadColumns(w: string, n: nat): (cols: seq<string>)
    ensures |cols| == n
  {
    seq(n, i => if i == 0 then w else "")
  }

  function Delimiters(n: nat): (s: string)
    ensures |s| == n && forall i :: 0 <= i < n ==> s[i] == DELIMITER
  {
    seq(n, i => DELIMITER)
  }

  lemma {:induction false} HeadLine(w: string, n: nat)
    requires n > 0
    ensures JoinColumns(HeadColumns(w, n)) == w + Delimiters(n - 1)
    decreases n
  {
    if n > 1 {
      HeadLine("", n - 1);
      assert HeadColumns(w, n)[1..] == HeadColumns("", n - 1);
      assert [DELIMITER] + ("" + Delimiters(n - 2)) == Delimiters(n - 1);
    }
  }

  /** Such a line, as a row: at a slot inside the first column its rest is read, and behind it nothing. */
  lemma HeadLineReads(w: string, n: nat, c: nat, s: nat)
    requires 0 < n <= MAXCOLS && c < n && NUL !in w && DELIMITER !in w && |w| + n <= LINEBUFF
    requires s <= |w| + n - 1
    ensures var line := JoinColumns(HeadColumns(w, n));
            && IsLine(line, n) && LineRow(line).StrCol(c) == (if c == 0 then w else "")
            && Terminated(LineRow(line).data, s)
            && CString(LineRow(line).data, s) == if s < |w| then w[s..] else ""
  {
    var cols := HeadColumns(w, n);
    var line := JoinColumns(cols);
    HeadLine(w, n);
    SplitsJoined(cols, c);
    RowReadsColumns(line, c);
    CutHead(w, n, s);
    hide ColumnCount, Column, JoinColumns, HeadColumns, Cut;
  }

  lemma CutHead(w: string, n: nat, s: nat)
    requires n > 0 && NUL !in w && DELIMITER !in w && s <= |w| + n - 1
    ensures var m := Cut(w + Delimiters(n - 1)); Terminated(m, s) && CString(m, s) == if s < |w| then w[s..] else ""
  {
    var m := Cut(w + Delimiters(n - 1));
    assert m[|w| + n - 1] == NUL;
    assert forall k :: |w| <= k < |m| ==> m[k] == NUL;
    if s < |w| {
      assert forall k :: 0 <= k < |w| ==> m[k] == w[k];
      assert m[s..s + |w[s..]|] == w[s..];
      CStringReads(m, s, w[s..]);
    }
  }

  function Ones(k: nat): (w: string)
    ensures |w| == k && forall i :: 0 <= i < k ==> w[i] == '1'
  {
    seq(k, i => '1')
  }

  // ----- what is read at a slot -----

  /** After a column of a kept line was cast its text is read at its slot. That is still its text, in
      every line of the table, exactly when it is the first column and the first that was cast. */
  lemma SlotReadsTextIff(n: nat, c: nat, slot: nat)
    requires c < n <= MAXCOLS && slot < n
    ensures (forall line | IsLine(line, n) && Terminated(LineRow(line).data, slot) ::
               CString(LineRow(line).data, slot) == LineRow(line).StrCol(c))
            <==> c == 0 && slot == 0
  {
    if slot > 0 {
      var w := Ones(slot + 1);
      HeadLineReads(w, n, c, slot);
      var line := JoinColumns(HeadColumns(w, n));
      assert |CString(LineRow(line).data, slot)| == 1;
    } else if c > 0 {
      var bits := Bits(c, true, false);
      BitLineReads(n, bits, c);
      BitLineReads(n, bits, 0);
      FirstColumn(BitLine(n, bits));
      RowReadsColumns(BitLine(n, bits), 0);
      assert CString(LineRow(BitLine(n, bits)).data, 0) == "";
    } else {
      FirstColumns(n);
    }
    hide LineRow, Column, ColumnCount, JoinColumns;
  }

  lemma FirstColumns(n: nat)
    requires n > 0
    ensures forall line | IsLine(line, n) :: CString(LineRow(line).data, 0) == LineRow(line).StrCol(0)
  {
    forall line | IsLine(line, n)
      ensures CString(LineRow(line).data, 0) == LineRow(line).StrCol(0)
    {
      FirstColumn(line);
    }
  }

  /** A number past the width of a left line is read at the slot that its cast was given in an earlier
      line. That is the number at the start of the line, in every line of the table, exactly when it
      was given the first slot. */
  lemma SlotReadsNumberIff(n: nat, slot: nat)
    requires 0 < n <= MAXCOLS && slot <= n
    ensures (forall line | IsLine(line, n) && Terminated(LineRow(line).data, slot) ::
               Atol(CString(LineRow(line).data, slot)) == LineRow(line).LongCol(n))
            <==> slot == 0
  {
    if slot > 0 {
      HeadLineReads("1", n, 0, slot);
      var line := JoinColumns(HeadColumns("1", n));
      PastColumn(line, n);
      FirstColumns(n);
      AtolBit(true);
      AtolBit(false);
    } else {
      forall line | IsLine(line, n)
        ensures Atol(CString(LineRow(line).data, 0)) == LineRow(line).LongCol(n)
      {
        PastColumn(line, n);
      }
    }
    hide LineRow, Column, ColumnCount, JoinColumns, Atol;
  }

  lemma PastColumn(line: string, n: nat)
    requires IsLine(line, n)
    ensures LineRow(line).LongCol(n) == Atol(CString(LineRow(line).data, 0))
  {
  }

  // ----- when a join can be aggregated -----

  lemma NumberReadings(desc: ResultSet, contents: Contents, first: nat, c: nat)
    ensures TableReadings(desc, contents, first, Number(c)) ==
            var rds := TableReadings(desc, contents, first, Described);
            if first <= c < first + |desc.columns| then rds[c - first := AsLong] else rds
  {
  }

  /** The lists of readings of a join, however it is read: what is past the widths stays the same. */
  lemma SidesOf(left: ResultSet, right: ResultSet, ops: seq<FilterOp>, lefts: Contents, rights: Contents, way: Way)
    ensures var n, m := |left.columns|, |right.columns|;
            var ls := LeftReadings(left, right, ops, lefts, Described);
            var rs := RightReadings(left, right, ops, rights, Described);
            var ls2, rs2 := LeftReadings(left, right, ops, lefts, way), RightReadings(left, right, ops, rights, way);
            && |ls2| == |ls| >= n && |rs2| == |rs| >= m && ls2[n..] == ls[n..] && rs2[m..] == rs[m..]
            && ls2[..n] == TableReadings(left, lefts, 0, way) && rs2[..m] == TableReadings(right, rights, n, way)
  {
    hide TableReadings;
  }

  /** So of what a join needs only the columns of the two tables are in question. */
  lemma FitsAlike(left: ResultSet, right: ResultSet, ops: seq<FilterOp>, lefts: Contents, rights: Contents, way: Way)
    requires WayFits(left, right, ops, lefts, rights, Described)
    ensures var ls, rs := LeftReadings(left, right, ops, lefts, way), RightReadings(left, right, ops, rights, way);
            WayFits(left, right, ops, lefts, rights, way) <==>
              ReadsAs(ops, ls, rs) && RowsRead(RowsIn(lefts), ls) && RowsRead(RowsIn(rights), rs)
  {
    var ls, rs := LeftReadings(left, right, ops, lefts, Described), RightReadings(left, right, ops, rights, Described);
    var ls2, rs2 := LeftReadings(left, right, ops, lefts, way), RightReadings(left, right, ops, rights, way);
    SidesOf(left, right, ops, lefts, rights, way);
    assert JoinFits(lefts, rights, ops, |left.columns|, |right.columns|, ls, rs);
    hide LeftReadings, RightReadings, JoinFits;
    JoinFitsAlike(lefts, rights, ops, |left.columns|, |right.columns|, ls, rs, ls2, rs2);
  }

  lemma JoinFitsAlike(lefts: Contents, rights: Contents, ops: seq<FilterOp>, n: nat, m: nat,
                      ls: seq<Reading>, rs: seq<Reading>, ls2: seq<Reading>, rs2: seq<Reading>)
    requires JoinFits(lefts, rights, ops, n, m, ls, rs) && |ls2| == |ls| && |rs2| == |rs|
    requires n <= |ls| && m <= |rs| && ls2[n..] == ls[n..] && rs2[m..] == rs[m..]
    ensures JoinFits(lefts, rights, ops, n, m, ls2, rs2) <==>
              ReadsAs(ops, ls2, rs2) && RowsRead(RowsIn(lefts), ls2) && RowsRead(RowsIn(rights), rs2)
  {
    assert forall i :: n <= i < |ls| ==> ls2[i] == ls2[n..][i - n] == ls[i];
    assert forall i :: m <= i < |rs| ==> rs2[i] == rs2[m..][i - m] == rs[i];
    hide ReadsAs, RowsRead, AllHaveWidth, Typed, RowsIn, FirstLeft;
  }

  lemma SameHalves<T>(s: seq<T>, t: seq<T>, k: nat)
    requires k <= |s| && k <= |t| && s[..k] == t[..k] && s[k..] == t[k..]
    ensures s == t
  {
    assert s == s[..k] + s[k..] && t == t[..k] + t[k..];
  }

  /** A column of a join can be aggregated as a number that is only read as one, as far as ON goes,
      exactly when ON does not read it as a text, and a record holds it whole. */
  lemma NumberLeftFitsIff(left: ResultSet, right: ResultSet, ops: seq<FilterOp>, lefts: Contents, rights: Contents,
                          c: nat)
    requires WayFits(left, right, ops, lefts, rights, Described) && c < |left.columns|
    ensures WayFits(left, right, ops, lefts, rights, Number(c)) <==>
              !LeftReadsText(ops, c) && Countable(RowsIn(lefts), c)
  {
    hide *;
    var n := |left.columns|;
    var ls, rs := LeftReadings(left, right, ops, lefts, Described), RightReadings(left, right, ops, rights, Described);
    FitsAlike(left, right, ops, lefts, rights, Number(c));
    DescribedNotBoth(left, right, ops, lefts, rights);
    NumberReadings(left, lefts, 0, c);
    NumberReadings(right, rights, n, c);
    SidesOf(left, right, ops, lefts, rights, Number(c));
    SidesOf(left, right, ops, lefts, rights, Described);
    SameHalves(LeftReadings(left, right, ops, lefts, Number(c)), ls[c := AsLong], n);
    SameHalves(RightReadings(left, right, ops, rights, Number(c)), rs, |right.columns|);
    RereadLeftIff(ops, ls, rs, c);
    RowsRereadIff(RowsIn(lefts), ls, c);
  }

  lemma NumberRightFitsIff(left: ResultSet, right: ResultSet, ops: seq<FilterOp>, lefts: Contents, rights: Contents,
                           k: nat)
    requires WayFits(left, right, ops, lefts, rights, Described)
    requires |left.columns| <= k < |left.columns| + |right.columns|
    ensures WayFits(left, right, ops, lefts, rights, Number(k)) <==>
              !RightReadsText(ops, k - |left.columns|) && Countable(RowsIn(rights), k - |left.columns|)
  {
    hide *;
    var n := |left.columns|;
    var c := k - n;
    var ls, rs := LeftReadings(left, right, ops, lefts, Described), RightReadings(left, right, ops, rights, Described);
    FitsAlike(left, right, ops, lefts, rights, Number(k));
    DescribedNotBoth(left, right, ops, lefts, rights);
    NumberReadings(left, lefts, 0, k);
    NumberReadings(right, rights, n, k);
    SidesOf(left, right, ops, lefts, rights, Number(k));
    SidesOf(left, right, ops, lefts, rights, Described);
    SameHalves(LeftReadings(left, right, ops, lefts, Number(k)), ls, n);
    SameHalves(RightReadings(left, right, ops, rights, Number(k)), rs[c := AsLong], |right.columns|);
    RereadRightIff(ops, ls, rs, c);
    RowsRereadIff(RowsIn(rights), rs, c);
  }

  /** As the types say, no column is read as both. */
  lemma DescribedNotBoth(left: ResultSet, right: ResultSet, ops: seq<FilterOp>, lefts: Contents, rights: Contents)
    requires WayFits(left, right, ops, lefts, rights, Described)
    ensures var ls := LeftReadings(left, right, ops, lefts, Described);
            var rs := RightReadings(left, right, ops, rights, Described);
            && |left.columns| <= |ls| <= MAXCOLS && |right.columns| <= |rs| <= MAXCOLS && Typed(ops)
            && ReadsAs(ops, ls, rs) && RowsRead(RowsIn(lefts), ls) && RowsRead(RowsIn(rights), rs)
            && AllHaveWidth(RowsIn(lefts), |left.columns|) && AllHaveWidth(RowsIn(rights), |right.columns|)
            && (forall i :: 0 <= i < |ls| ==> !ls[i].AsBoth?) && (forall i :: 0 <= i < |rs| ==> !rs[i].AsBoth?)
  {
    hide ReadsAs, RowsRead, AllHaveWidth, Typed, RowsIn, FirstLeft, ReadsLeft, ReadsRight;
  }

  /** Rows can be read with one more number exactly when it is whole in every record. */
  lemma RowsRereadIff(rows: seq<Row>, rds: seq<Reading>, c: nat)
    requires RowsRead(rows, rds) && c < |rds| && forall i :: 0 <= i < |rds| ==> !rds[i].AsBoth?
    ensures RowsRead(rows, rds[c := AsLong]) <==> Countable(rows, c)
  {
    var more := rds[c := AsLong];
    if RowsRead(rows, more) {
      forall k | 0 <= k < |rows| && rows[k].kind == TPL_TDB
        ensures rows[k].Offset(c) + 8 <= |rows[k].data|
      {
        assert RowReads(rows[k], more) && more[c].Long();
      }
    }
    if Countable(rows, c) {
      forall k | 0 <= k < |rows|
        ensures RowReads(rows[k], more)
      {
        assert RowReads(rows[k], rds);
      }
    }
  }

  /** A text column of a line starts its block exactly when it is the first. */
  lemma StartsBlockIff(contents: Contents, width: nat, k: nat, c: nat)
    requires contents.Lines? && AllHaveWidth(RowsIn(contents), width) && k < |RowsIn(contents)| && c < width
    ensures RowsIn(contents)[k].Offset(c) == 0 <==> c == 0
  {
    var line := contents.lines[k];
    assert HasWidth(RowsIn(contents)[k], width) && RowsIn(contents)[k] == LineRow(line);
    if c > 0 {
      NextColumn(line, c - 1);
    }
  }

  lemma {:induction false} PastIsNumber(ops: seq<FilterOp>, rds: seq<Reading>, rds2: seq<Reading>, i: nat)
    requires Typed(ops) && ReadsAs(ops, rds, rds2) && i < |rds| && rds[i] == AsLong
    ensures ReadsLeft(ops, i) ==> LeftReadsNumber(ops)
  {
    if ops != [] {
      PastIsNumber(ops[1..], rds, rds2, i);
    }
  }

  lemma {:induction false} RightPastIsNumber(ops: seq<FilterOp>, rds1: seq<Reading>, rds: seq<Reading>, i: nat)
    requires Typed(ops) && ReadsAs(ops, rds1, rds) && i < |rds| && rds[i] == AsLong
    ensures ReadsRight(ops, i) ==> RightReadsNumber(ops)
  {
    if ops != [] {
      RightPastIsNumber(ops[1..], rds1, rds, i);
    }
  }

  /** Rows of a line can be read when the text of one column is cast as well exactly when it is the first
      column, and no other number is read. */
  lemma MixedRowsIff(contents: Contents, width: nat, rds: seq<Reading>, c: nat)
    requires contents.Lines? && AllHaveWidth(RowsIn(contents), width) && RowsIn(contents) != []
    requires WellStored(contents) && c < width <= |rds| <= MAXCOLS
    requires forall i :: 0 <= i < |rds| ==> (rds[i].AsBoth? <==> i == c)
    ensures RowsRead(RowsIn(contents), rds) <==> c == 0 && Compatible(rds)
  {
    var rows := RowsIn(contents);
    StartsBlockIff(contents, width, 0, c);
    if RowsRead(rows, rds) {
      assert RowReads(rows[0], rds) && rows[0].kind == TPL_DELIMITED;
    }
    if c == 0 && Compatible(rds) {
      forall k | 0 <= k < |rows|
        ensures RowReads(rows[k], rds)
      {
        StartsBlockIff(contents, width, k, c);
        LineReads(contents.lines[k]);
      }
    }
    hide LineRow;
  }

  lemma MixedTexts(desc: ResultSet, contents: Contents, first: nat, c: nat)
    requires contents.Lines? && first <= c < first + |desc.columns| && desc.columns[c - first].dtype != DTYPE_LONG
    ensures OnlyTexts(TableReadings(desc, contents, first, Described), TableReadings(desc, contents, first, Mixed(c)))
    ensures forall i :: 0 <= i < |desc.columns| ==>
              (TableReadings(desc, contents, first, Mixed(c))[i].AsBoth? <==> i == c - first)
              && (i != c - first ==> !TableReadings(desc, contents, first, Mixed(c))[i].Long())
  {
  }

  lemma TextsAlike(rds: seq<Reading>, texts: seq<Reading>, width: nat, c: nat)
    requires c < width <= |rds| == |texts| && rds[width..] == texts[width..] && OnlyTexts(rds[..width], texts[..width])
    requires forall i :: 0 <= i < width ==>
               (texts[..width][i].AsBoth? <==> i == c) && (i != c ==> !texts[..width][i].Long())
    requires forall i :: 0 <= i < |rds| ==> !rds[i].AsBoth?
    ensures forall i :: 0 <= i < |rds| ==> (texts[i].AsBoth? <==> i == c)
    ensures (forall i :: width <= i < |rds| ==> !rds[i].Long()) ==> OnlyTexts(rds, texts) && Compatible(texts)
    ensures (exists i :: width <= i < |rds| && rds[i].Long()) ==> !Compatible(texts)
  {
    assert forall i :: 0 <= i < width ==> rds[i] == rds[..width][i] && texts[i] == texts[..width][i];
    assert forall i :: width <= i < |rds| ==>
             rds[i] == rds[width..][i - width] == texts[width..][i - width] == texts[i];
    assert texts[c].AsBoth?;
    if i :| width <= i < |rds| && rds[i].Long() {
      assert texts[i].Long() && !Compatible(texts);
    } else {
      forall i | 0 <= i < |rds|
        ensures texts[i].Text() == rds[i].Text() && (rds[i].Long() ==> !texts[i].Long())
        ensures i != c ==> !texts[i].Long()
      {
        if i < width {
          assert rds[..width][i] == rds[i] && texts[..width][i] == texts[i];
        }
      }
    }
  }

  /** A number is read past the left width, or the right one. */
  lemma PastLongs(left: ResultSet, right: ResultSet, ops: seq<FilterOp>, lefts: Contents, rights: Contents)
    ensures var n, m := |left.columns|, |right.columns|;
            var ls := LeftReadings(left, right, ops, lefts, Described);
            var rs := RightReadings(left, right, ops, rights, Described);
            && (if ReadsLeft(ops, n) && PastReading(right) == [AsLong] then n < |ls| && ls[n] == AsLong && ls[n].Long()
                else forall i :: n <= i < |ls| ==> !ls[i].Long())
            && (if n >= m && ReadsRight(ops, n) && PastReading(right) == [AsLong]
                then n < |rs| && rs[n] == AsLong && rs[n].Long()
                else forall i :: m <= i < |rs| ==> !rs[i].Long())
  {
    hide TableReadings, ReadsLeft, ReadsRight;
  }

  /** A text column of lines that ON reads as well can be aggregated over a join, as far as ON goes,
      exactly when it is the first of its table and ON reads no number of that table. */
  lemma MixedLeftFitsIff(left: ResultSet, right: ResultSet, ops: seq<FilterOp>, lefts: Contents, rights: Contents,
                         c: nat)
    requires WellStored(lefts) && lefts.Lines? && RowsIn(lefts) != []
    requires WayFits(left, right, ops, lefts, rights, Described)
    requires c < |left.columns| && left.columns[c].dtype != DTYPE_LONG
    ensures WayFits(left, right, ops, lefts, rights, Mixed(c)) <==> c == 0 && !LeftReadsNumber(ops)
  {
    hide *;
    var n := |left.columns|;
    var ls, rs := LeftReadings(left, right, ops, lefts, Described), RightReadings(left, right, ops, rights, Described);
    var texts := LeftReadings(left, right, ops, lefts, Mixed(c));
    FitsAlike(left, right, ops, lefts, rights, Mixed(c));
    DescribedNotBoth(left, right, ops, lefts, rights);
    SameTable(right, rights, n, c);
    PastLongs(left, right, ops, lefts, rights);
    SidesOf(left, right, ops, lefts, rights, Described);
    SidesOf(left, right, ops, lefts, rights, Mixed(c));
    MixedTexts(left, lefts, 0, c);
    SameHalves(RightReadings(left, right, ops, rights, Mixed(c)), rs, |right.columns|);
    TextsAlike(ls, texts, n, c);
    MixedRowsIff(lefts, n, texts, c);
    if ReadsLeft(ops, n) && PastReading(right) == [AsLong] {
      PastIsNumber(ops, ls, rs, n);
    } else {
      LeftTextsIff(ops, ls, texts, rs);
    }
  }

  lemma MixedRightFitsIff(left: ResultSet, right: ResultSet, ops: seq<FilterOp>, lefts: Contents, rights: Contents,
                          k: nat)
    requires WellStored(rights) && rights.Lines? && RowsIn(rights) != []
    requires WayFits(left, right, ops, lefts, rights, Described)
    requires |left.columns| <= k < |left.columns| + |right.columns|
    requires right.columns[k - |left.columns|].dtype != DTYPE_LONG
    ensures WayFits(left, right, ops, lefts, rights, Mixed(k)) <==> k == |left.columns| && !RightReadsNumber(ops)
  {
    hide *;
    var n, m := |left.columns|, |right.columns|;
    var c := k - n;
    var ls, rs := LeftReadings(left, right, ops, lefts, Described), RightReadings(left, right, ops, rights, Described);
    var texts := RightReadings(left, right, ops, rights, Mixed(k));
    FitsAlike(left, right, ops, lefts, rights, Mixed(k));
    DescribedNotBoth(left, right, ops, lefts, rights);
    SameTable(left, lefts, 0, k);
    PastLongs(left, right, ops, lefts, rights);
    SidesOf(left, right, ops, lefts, rights, Described);
    SidesOf(left, right, ops, lefts, rights, Mixed(k));
    MixedTexts(right, rights, n, k);
    SameHalves(LeftReadings(left, right, ops, lefts, Mixed(k)), ls, n);
    TextsAlike(rs, texts, m, c);
    MixedRowsIff(rights, m, texts, c);
    if n >= m && ReadsRight(ops, n) && PastReading(right) == [AsLong] {
      RightPastIsNumber(ops, ls, rs, n);
    } else {
      RightTextsIff(ops, ls, rs, texts);
    }
  }

  lemma StoredReadings(desc: ResultSet, contents: Contents, first: nat, c: nat)
    requires contents.Records?
    ensures TableReadings(desc, contents, first, Mixed(c)) ==
            var rds := TableReadings(desc, contents, first, Described);
            if first <= c < first + |desc.columns| then rds[c - first := AsBoth] else rds
  {
  }

  /** Nothing is cast in the tuples of a stored table, so there every column that its record holds can
      be aggregated. */
  lemma StoredLeftFitsIff(left: ResultSet, right: ResultSet, ops: seq<FilterOp>, lefts: Contents, rights: Contents,
                          c: nat)
    requires WayFits(left, right, ops, lefts, rights, Described) && lefts.Records? && c < |left.columns|
    ensures WayFits(left, right, ops, lefts, rights, Mixed(c)) <==> Countable(RowsIn(lefts), c)
  {
    hide *;
    var n := |left.columns|;
    var ls, rs := LeftReadings(left, right, ops, lefts, Described), RightReadings(left, right, ops, rights, Described);
    FitsAlike(left, right, ops, lefts, rights, Mixed(c));
    DescribedNotBoth(left, right, ops, lefts, rights);
    StoredReadings(left, lefts, 0, c);
    SameTable(right, rights, n, c);
    SidesOf(left, right, ops, lefts, rights, Mixed(c));
    SidesOf(left, right, ops, lefts, rights, Described);
    SameHalves(LeftReadings(left, right, ops, lefts, Mixed(c)), ls[c := AsBoth], n);
    SameHalves(RightReadings(left, right, ops, rights, Mixed(c)), rs, |right.columns|);
    MoreIsRead(ls, c);
    MoreReadsAs(ops, ls, rs, ls[c := AsBoth], rs);
    StoredRowsIff(lefts, ls, c);
  }

  lemma StoredRightFitsIff(left: ResultSet, right: ResultSet, ops: seq<FilterOp>, lefts: Contents, rights: Contents,
                           k: nat)
    requires WayFits(left, right, ops, lefts, rights, Described) && rights.Records?
    requires |left.columns| <= k < |left.columns| + |right.columns|
    ensures WayFits(left, right, ops, lefts, rights, Mixed(k)) <==> Countable(RowsIn(rights), k - |left.columns|)
  {
    hide *;
    var n := |left.columns|;
    var c := k - n;
    var ls, rs := LeftReadings(left, right, ops, lefts, Described), RightReadings(left, right, ops, rights, Described);
    FitsAlike(left, right, ops, lefts, rights, Mixed(k));
    DescribedNotBoth(left, right, ops, lefts, rights);
    SameTable(left, lefts, 0, k);
    StoredReadings(right, rights, n, k);
    SidesOf(left, right, ops, lefts, rights, Mixed(k));
    SidesOf(left, right, ops, lefts, rights, Described);
    SameHalves(LeftReadings(left, right, ops, lefts, Mixed(k)), ls, n);
    SameHalves(RightReadings(left, right, ops, rights, Mixed(k)), rs[c := AsBoth], |right.columns|);
    MoreIsRead(rs, c);
    MoreReadsAs(ops, ls, rs, ls, rs[c := AsBoth]);
    StoredRowsIff(rights, rs, c);
  }

  lemma MoreIsRead(rds: seq<Reading>, c: nat)
    requires c < |rds|
    ensures More(rds, rds[c := AsBoth])
    ensures forall s: seq<Reading> :: More(s, s)
  {
  }

  lemma StoredRowsIff(contents: Contents, rds: seq<Reading>, c: nat)
    requires contents.Records? && RowsRead(RowsIn(contents), rds) && c < |rds| <= MAXCOLS
    ensures RowsRead(RowsIn(contents), rds[c := AsBoth]) <==> Countable(RowsIn(contents), c)
  {
    var rows, more := RowsIn(contents), rds[c := AsBoth];
    if RowsRead(rows, more) {
      forall k | 0 <= k < |rows| && rows[k].kind == TPL_TDB
        ensures rows[k].Offset(c) + 8 <= |rows[k].data|
      {
        assert RowReads(rows[k], more) && more[c].Long();
      }
    }
    if Countable(rows, c) {
      forall k | 0 <= k < |rows|
        ensures RowReads(rows[k], more)
      {
        assert RowReads(rows[k], rds) && rows[k].kind == TPL_TDB;
      }
    }
  }

  lemma SameTable(desc: ResultSet, contents: Contents, first: nat, c: nat)
    requires !(first <= c < first + |desc.columns|)
    ensures TableReadings(desc, contents, first, Mixed(c)) == TableReadings(desc, contents, first, Described)
  {
  }

  /** The conditions of all levels. */
  predicate QueryReadsText(q: Select, base: ResultSet, c: nat)
    requires ConditionsKnown(q, base)
  {
    || (q.where.Some? && LeftReadsText(OpsOf(q.where.value, Seen(q.from, base)), c))
    || (q.where.Some? && RightReadsText(OpsOf(q.where.value, Seen(q.from, base)), c))
    || (q.from.Sub? && QueryReadsText(q.from.query, base, c))
  }

  /** And as far as WHERE goes, exactly when no level reads it as a text. */
  lemma {:induction false} NumberReadsIff(q: Select, base: ResultSet, c: nat)
    requires ConditionsKnown(q, base) && c < |base.columns|
    ensures QueryReads(q, base, DescribedReadings(base)[c := AsLong]) <==> !QueryReadsText(q, base, c)
  {
    var rds := DescribedReadings(base);
    DescribedReads(q, base);
    if q.where.Some? {
      RereadIff(OpsOf(q.where.value, Seen(q.from, base)), rds, c);
    }
    if q.from.Sub? {
      NumberReadsIff(q.from.query, base, c);
    }
    hide ReadsAs, LeftReadsText, RightReadsText, OpsOf, Resolves, DescribedReadings, Seen;
  }

  predicate QueryReadsNumberIn(q: Select, base: ResultSet, lo: nat, hi: nat)
    requires ConditionsKnown(q, base)
  {
    || (q.where.Some? && ReadsNumberIn(OpsOf(q.where.value, Seen(q.from, base)), lo, hi))
    || (q.from.Sub? && QueryReadsNumberIn(q.from.query, base, lo, hi))
  }

  /** The numbers of one table are left alone exactly when no level reads one of them. */
  lemma {:induction false} WithoutNumbersIff(q: Select, base: ResultSet, some: seq<Reading>, lo: nat, hi: nat)
    requires ConditionsKnown(q, base) && Without(DescribedReadings(base), some, lo, hi)
    ensures QueryReads(q, base, some) <==> !QueryReadsNumberIn(q, base, lo, hi)
  {
    DescribedReads(q, base);
    if q.where.Some? {
      WithoutIff(OpsOf(q.where.value, Seen(q.from, base)), DescribedReadings(base), some, lo, hi);
    }
    if q.from.Sub? {
      WithoutNumbersIff(q.from.query, base, some, lo, hi);
    }
    hide ReadsAs, ReadsNumberIn, OpsOf, Resolves, DescribedReadings, Seen, Without;
  }
}
