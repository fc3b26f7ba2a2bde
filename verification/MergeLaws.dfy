/** What merging CSV bodies promises: through printing and parsing again it is a union of row sets. */
module MergeLaws {
  import opened Text
  import opened CsvMerge
  import T = Rfc3339

  // ---------- what parsing returns ----------

  ghost predicate AllMeta(lines: seq<string>) {
    forall i :: 0 <= i < |lines| ==> IsMeta(lines[i]) && '\n' !in lines[i]
  }

  ghost predicate AllData(lines: seq<string>) {
    forall i :: 0 <= i < |lines| ==> IsData(lines[i]) && '\n' !in lines[i]
  }

  // ---------- the time of a row ----------

  /**
    The time of a row: under a header with the cells cols, a row with the given cells has the
    time that the cell below the first column named _time reads as, and the Unix epoch when
    there is no such column, the row is too short, or the cell does not read.
  */
  lemma RowTime(read: TimeReader, body: string, i: nat, cols: seq<string>, cells: seq<string>, k: nat)
    requires var p := Parse(read, body); i < |p.rows| && Cells(p.header, cols) && Cells(p.rows[i].raw, cells)
    ensures k < |cols| && Trim(cols[k]) == "_time" && (forall j :: 0 <= j < k ==> Trim(cols[j]) != "_time") ==>
              Parse(read, body).rows[i].time ==
                if k < |cells| && read(Trim(cells[k])).Some? then read(Trim(cells[k])).value else 719_162 * 86_400_000_000_000
    ensures (forall j :: 0 <= j < |cols| ==> Trim(cols[j]) != "_time") ==>
              Parse(read, body).rows[i].time == 719_162 * 86_400_000_000_000
  {
    hide Parse, Trim, SplitOn, Cells, TimeColumn, Raws, AllData, AllMeta;
    var p := Parse(read, body);
    ParseShape(read, body);
    RowTimed(read, p.header, p.rows, i);
    CellsAreSplit(p.header, cols);
    CellsAreSplit(p.rows[i].raw, cells);
    TimeColumnIsFirst(cols, if k < |cols| then k else 0);
  }

  lemma RowTimed(read: TimeReader, header: string, rows: seq<Row>, i: nat)
    requires rows == RowsOf(read, header, Raws(rows)) && i < |rows|
    ensures rows[i].time == TimeAt(read, TimeColumn(SplitOn(header, ',')), rows[i].raw)
  {
    hide TimeAt, TimeColumn, SplitOn;
    assert rows[i] == RowsOf(read, header, Raws(rows))[i];
  }

  // ---------- which lines are which ----------

  /** Positions below n, each once and in order. */
  ghost predicate Ordered(a: seq<nat>, n: nat) {
    (forall j :: 0 <= j < |a| ==> a[j] < n) && forall j, k :: 0 <= j < k < |a| ==> a[j] < a[k]
  }

  /** at are the positions of the non-empty lines that begin with # (if hash) or do not (otherwise), and sel are those lines. */
  ghost predicate Positions(lines: seq<string>, hash: bool, at: seq<nat>, sel: seq<string>) {
    && Ordered(at, |lines|) && |sel| == |at|
    && (forall j :: 0 <= j < |at| ==> at[j] < |lines| && sel[j] == lines[at[j]])
    && (forall i :: 0 <= i < |lines| ==> (i in at <==> lines[i] != "" && (lines[i][0] == '#' <==> hash)))
  }

  lemma PositionsOneMore(lines: seq<string>, hash: bool, at: seq<nat>, sel: seq<string>, l: string, at': seq<nat>)
    requires Positions(lines, hash, at, sel) && at' == if l != "" && (l[0] == '#' <==> hash) then at + [|lines|] else at
    ensures Positions(lines + [l], hash, at', if l != "" && (l[0] == '#' <==> hash) then sel + [l] else sel)
  {
    var s := lines + [l];
    forall i | 0 <= i < |s| ensures i in at' <==> s[i] != "" && (s[i][0] == '#' <==> hash) {
      if i == |lines| {
        assert i in at' <==> at' != at;
      }
    }
  }

  lemma {:induction false} LinePositions(lines: seq<string>) returns (m: seq<nat>, d: seq<nat>)
    ensures Positions(lines, true, m, MetaLines(lines)) && Positions(lines, false, d, DataLines(lines))
  {
    hide Positions, MetaLines, DataLines;
    NoLines();
    m, d := [], [];
    if lines == [] {
      assert Positions([], true, [], []) && Positions([], false, [], []) by {
        NoPositions();
      }
    } else {
      var n := |lines| - 1;
      var p, l := lines[..n], lines[n];
      m, d := LinePositions(p);
      assert lines == p + [l];
      LinesSnoc(p, l);
      var m', d' := if IsMeta(l) then m + [n] else m, if IsData(l) then d + [n] else d;
      PositionsOneMore(p, true, m, MetaLines(p), l, m');
      PositionsOneMore(p, false, d, DataLines(p), l, d');
      assert forall s: seq<string> :: s + [] == s;
      m, d := m', d';
    }
  }

  lemma NoPositions()
    ensures Positions([], true, [], []) && Positions([], false, [], [])
  {
  }

  /**
    Which lines are which: of the lines between the line ends of the trimmed body, those that
    begin with # are the annotations, the first other non-empty one is the header, and the
    rest of those are the rows, in their order.
  */
  lemma ParsedLines(read: TimeReader, body: string, lines: seq<string>) returns (m: seq<nat>, d: seq<nat>)
    requires lines != [] && Trim(body) == JoinWith(lines, '\n') && forall i :: 0 <= i < |lines| ==> '\n' !in lines[i]
    ensures Ordered(m, |lines|) && Ordered(d, |lines|)
    ensures forall i :: 0 <= i < |lines| ==> (i in m <==> lines[i] != "" && lines[i][0] == '#')
    ensures forall i :: 0 <= i < |lines| ==> (i in d <==> lines[i] != "" && lines[i][0] != '#')
    ensures var p := Parse(read, body);
      && |p.meta| == |m| && (forall j :: 0 <= j < |m| ==> p.meta[j] == lines[m[j]])
      && p.header == (if d == [] then "" else lines[d[0]])
      && |p.rows| == (if d == [] then 0 else |d| - 1) && (forall j :: 0 <= j < |p.rows| ==> p.rows[j].raw == lines[d[j + 1]])
  {
    hide Trim, SplitOn, JoinWith, MetaLines, DataLines, RowOf;
    SplitOfJoin(lines, '\n');
    m, d := LinePositions(lines);
    var data := DataLines(lines);
    if data != [] {
      RowTexts(read, data[0], data[1..]);
    }
  }

  lemma RowTexts(read: TimeReader, header: string, lines: seq<string>)
    ensures var r := RowsOf(read, header, lines); |r| == |lines| && forall j :: 0 <= j < |r| ==> r[j].raw == lines[j]
  {
    hide TimeAt, TimeColumn, SplitOn;
  }

  /** Annotations, header and rows are non-empty single lines; every row carries the time its header gives it. */
  lemma ParseShape(read: TimeReader, body: string)
    ensures var p := Parse(read, body);
      && AllMeta(p.meta)
      && (if p.header == "" then p.rows == [] else AllData([p.header]))
      && AllData(Raws(p.rows))
      && p.rows == RowsOf(read, p.header, Raws(p.rows))
      && Timed(read, p)
  {
    hide SplitOn, Trim, RowOf, MetaLines, DataLines, Timed;
    var lines := SplitOn(Trim(body), '\n');
    var d := DataLines(lines);
    if d != [] {
      RawsOfRows(read, d[0], d[1..]);
      RowsTimed(read, d[0], d[1..], MetaLines(lines));
    } else {
      NothingTimed(read, Parse(read, body));
    }
  }

  lemma RawsOfRows(read: TimeReader, header: string, lines: seq<string>)
    ensures Raws(RowsOf(read, header, lines)) == lines
  {
    hide TimeAt, TimeColumn, SplitOn;
  }

  // ---------- printing and parsing ----------

  lemma {:induction false} LinesConcat(a: seq<string>, b: seq<string>)
    ensures MetaLines(a + b) == MetaLines(a) + MetaLines(b)
    ensures DataLines(a + b) == DataLines(a) + DataLines(b)
    decreases |b|
  {
    hide MetaLines, DataLines;
    NoLines();
    if b == [] {
      assert a + b == a;
    } else {
      var n := |b| - 1;
      LinesConcat(a, b[..n]);
      LinesSnoc(b[..n], b[n]);
      LinesSnoc(a + b[..n], b[n]);
      assert b == b[..n] + [b[n]] && a + b == a + b[..n] + [b[n]];
    }
  }

  lemma LinesSnoc(s: seq<string>, l: string)
    ensures MetaLines(s + [l]) == MetaLines(s) + (if IsMeta(l) then [l] else [])
    ensures DataLines(s + [l]) == DataLines(s) + (if IsData(l) then [l] else [])
  {
    assert (s + [l])[..|s|] == s;
  }

  lemma {:induction false} OnlyMeta(m: seq<string>)
    requires AllMeta(m)
    ensures MetaLines(m) == m && DataLines(m) == []
  {
    hide MetaLines, DataLines;
    NoLines();
    if m != [] {
      var s, l := m[..|m| - 1], m[|m| - 1];
      OnlyMeta(s);
      LinesSnoc(s, l);
      assert m == s + [l];
    }
  }

  lemma {:induction false} OnlyData(d: seq<string>)
    requires AllData(d)
    ensures MetaLines(d) == [] && DataLines(d) == d
  {
    hide MetaLines, DataLines;
    NoLines();
    if d != [] {
      var s, l := d[..|d| - 1], d[|d| - 1];
      OnlyData(s);
      LinesSnoc(s, l);
      assert d == s + [l];
    }
  }

  /** The lines of a printed table sort themselves out again. */
  lemma LinesOfTable(meta: seq<string>, data: seq<string>)
    requires AllMeta(meta) && AllData(data)
    ensures MetaLines(meta + data) == meta && DataLines(meta + data) == data
  {
    hide MetaLines, DataLines, AllMeta, AllData;
    LinesConcat(meta, data);
    OnlyMeta(meta);
    OnlyData(data);
  }

  predicate StartsVisibly(line: string) { line != "" && !IsSpace(line[0]) }

  predicate EndsVisibly(line: string) { line != "" && !IsSpace(line[|line| - 1]) }

  /** The outer edges of a table: where TrimSpace would eat into it. */
  predicate TightTable(lines: seq<string>)
    requires lines != []
  {
    StartsVisibly(lines[0]) && EndsVisibly(lines[|lines| - 1])
  }

  lemma TableIsLines(meta: seq<string>, data: seq<string>)
    requires AllMeta(meta) && AllData(data)
    ensures forall i :: 0 <= i < |meta + data| ==> (meta + data)[i] != "" && '\n' !in (meta + data)[i]
  {
  }

  lemma TrimOfTable(lines: seq<string>)
    requires lines != [] && forall i :: 0 <= i < |lines| ==> lines[i] != ""
    ensures var t := JoinWith(lines, '\n');
            if TightTable(lines) then Trim(t + "\n") == t else |Trim(t + "\n")| < |t|
  {
    hide Trim, IsSpace, JoinWith;
    var t := JoinWith(lines, '\n');
    JoinEdges(lines, '\n');
    if TightTable(lines) {
      TrimOfTightLine(t);
    } else {
      TrimShortens(t);
    }
  }

  lemma TrimShortens(t: string)
    requires t != "" && (IsSpace(t[0]) || IsSpace(t[|t| - 1]))
    ensures |Trim(t + "\n")| < |t|
  {
    var s := t + "\n";
    assert IsSpace('\n');
    hide IsSpace;
    assert s[0] == t[0] && s[|s| - 1] == '\n';
    if IsSpace(t[0]) {
      assert |TrimLeft(s)| <= |t|;
      LastIsSpace(s);
    } else {
      assert TrimLeft(s) == s;
      assert s[..|s| - 1] == t;
      assert TrimRight(s) == TrimRight(t);
      assert |TrimRight(t[..|t| - 1])| <= |t| - 1;
    }
  }

  /** A text that ends in a blank loses it. */
  lemma LastIsSpace(s: string)
    requires s != "" && IsSpace(s[|s| - 1])
    ensures |Trim(s)| < |s|
    ensures IsSpace(s[0]) ==> |Trim(s)| < |s| - 1 || |s| == 1
  {
    hide IsSpace;
    var l := TrimLeft(s);
    if IsSpace(s[0]) {
      assert l == TrimLeft(s[1..]);
      assert |l| <= |s| - 1;
    }
    if l != "" {
      assert l[|l| - 1] == s[|s| - 1];
      assert TrimRight(l) == TrimRight(l[..|l| - 1]);
    }
  }

  /** The characters a table needs: its non-empty lines and a line end for each. */
  function Weight(lines: seq<string>): nat {
    if lines == [] then 0
    else Weight(lines[..|lines| - 1]) + (if lines[|lines| - 1] == "" then 0 else |lines[|lines| - 1]| + 1)
  }

  lemma {:induction false} WeightSplits(lines: seq<string>)
    ensures Weight(lines) == Weight(MetaLines(lines)) + Weight(DataLines(lines))
  {
    if lines != [] {
      var l := lines[|lines| - 1];
      WeightSplits(lines[..|lines| - 1]);
      WeightSnoc(MetaLines(lines[..|lines| - 1]), l);
      WeightSnoc(DataLines(lines[..|lines| - 1]), l);
      assert forall s: seq<string> :: s + [] == s;
    }
  }

  lemma WeightSnoc(s: seq<string>, l: string)
    ensures Weight(s + [l]) == Weight(s) + (if l == "" then 0 else |l| + 1)
  {
    assert (s + [l])[..|s|] == s;
  }

  lemma {:induction false} WeightConcat(a: seq<string>, b: seq<string>)
    ensures Weight(a + b) == Weight(a) + Weight(b)
    decreases |b|
  {
    if b == [] {
      assert a + b == a;
    } else {
      var n := |b| - 1;
      WeightConcat(a, b[..n]);
      assert (a + b)[..|a + b| - 1] == a + b[..n];
    }
  }

  /** A joined text has a line end for every line but one; empty lines only add. */
  lemma {:induction false} JoinWeight(lines: seq<string>)
    requires lines != []
    ensures |JoinWith(lines, '\n')| + 1 >= Weight(lines)
    ensures (forall i :: 0 <= i < |lines| ==> lines[i] != "") ==> |JoinWith(lines, '\n')| + 1 == Weight(lines)
  {
    var f, r := lines[..1], lines[1..];
    assert lines == f + r;
    WeightConcat(f, r);
    assert Weight(f) == if lines[0] == "" then 0 else |lines[0]| + 1 by {
      WeightSnoc([], lines[0]);
      assert [] + [lines[0]] == f;
    }
    if r != [] {
      JoinWeight(r);
    } else {
      assert Weight(r) == 0;
    }
  }

  /** The text that parsing splits into lines is at least as long as the table it returns. */
  lemma ParsedFits(body: string)
    ensures var lines := SplitOn(Trim(body), '\n');
            |Trim(body)| + 1 >= Weight(MetaLines(lines) + DataLines(lines))
  {
    hide Trim, SplitOn, JoinWith, Weight, MetaLines, DataLines;
    var lines := SplitOn(Trim(body), '\n');
    JoinOfSplit(Trim(body), '\n');
    JoinWeight(lines);
    WeightSplits(lines);
    WeightConcat(MetaLines(lines), DataLines(lines));
  }

  lemma LinesReread(meta: seq<string>, data: seq<string>)
    requires AllMeta(meta) && AllData(data) && data != []
    ensures var lines := SplitOn(Trim(JoinWith(meta + data, '\n') + "\n"), '\n');
            MetaLines(lines) == meta && DataLines(lines) == data <==> TightTable(meta + data)
  {
    hide Trim, SplitOn, JoinWith, Weight, MetaLines, DataLines, AllMeta, AllData, TightTable;
    var all := meta + data;
    var t := JoinWith(all, '\n');
    TableIsLines(meta, data);
    TrimOfTable(all);
    if TightTable(all) {
      SplitOfJoin(all, '\n');
      LinesOfTable(meta, data);
    } else {
      ParsedFits(t + "\n");
      JoinWeight(all);
    }
  }

  lemma ParseLinesTo(read: TimeReader, lines: seq<string>, meta: seq<string>, header: string, raws: seq<string>)
    requires header != ""
    ensures ParseLines(read, lines) == Parsed(meta, header, RowsOf(read, header, raws)) <==>
            MetaLines(lines) == meta && DataLines(lines) == [header] + raws
  {
    hide RowOf, MetaLines, DataLines;
    var d := DataLines(lines);
    if d != [] {
      assert d == [d[0]] + d[1..];
      RawsOfRows(read, d[0], d[1..]);
      RawsOfRows(read, header, raws);
    }
  }

  lemma RegroupLines(meta: seq<string>, header: string, raws: seq<string>)
    ensures meta + [header] + raws == meta + ([header] + raws)
  {
  }

  /**
    A printed table parses back to the same annotations, header and rows in the same order
    exactly when it neither starts nor ends with white space. A carriage return counts: with
    CRLF line ends the last line comes back different.
  */
  lemma ParseOfRender(read: TimeReader, meta: seq<string>, header: string, raws: seq<string>)
    requires AllMeta(meta) && AllData([header] + raws)
    ensures Parse(read, Render(meta, header, raws)) == Parsed(meta, header, RowsOf(read, header, raws)) <==>
            TightTable(meta + [header] + raws)
  {
    hide AllMeta, AllData, TightTable, ParseLines, Trim, SplitOn, JoinWith;
    assert header != "" by {
      FirstIsData(header, raws);
    }
    RegroupLines(meta, header, raws);
    LinesReread(meta, [header] + raws);
    ParseLinesTo(read, SplitOn(Trim(Render(meta, header, raws)), '\n'), meta, header, raws);
  }

  lemma FirstIsData(header: string, raws: seq<string>)
    requires AllData([header] + raws)
    ensures IsData(header) && header != "" && AllData(raws)
  {
    assert ([header] + raws)[0] == header;
    forall i | 0 <= i < |raws| ensures IsData(raws[i]) && '\n' !in raws[i] {
      assert ([header] + raws)[i + 1] == raws[i];
    }
  }

  // ---------- merging ----------

  predicate TightLine(line: string) { StartsVisibly(line) && EndsVisibly(line) }

  /** Neither the header nor a row has white space at its ends. */
  ghost predicate Clean(p: Parsed) {
    (p.header != "" ==> TightLine(p.header)) && forall i :: 0 <= i < |p.rows| ==> TightLine(p.rows[i].raw)
  }

  /** The two bodies have the same header, as far as they have one. */
  predicate SameHeader(c: Parsed, l: Parsed) {
    c.header == "" || l.header == "" || c.header == l.header
  }

  function RowSet(read: TimeReader, body: string): set<string> { RawSet(Parse(read, body).rows) }

  lemma RawSetConcat(a: seq<Row>, b: seq<Row>)
    ensures RawSet(a + b) == RawSet(a) + RawSet(b)
  {
    var s := a + b;
    forall x | x in RawSet(a) ensures x in RawSet(s) {
      var j :| 0 <= j < |a| && a[j].raw == x;
      assert s[j].raw == x;
    }
    forall x | x in RawSet(b) ensures x in RawSet(s) {
      var j :| 0 <= j < |b| && b[j].raw == x;
      assert s[|a| + j].raw == x;
    }
  }

  lemma RawsKeep(p: seq<Row>, q: seq<Row>)
    requires Raws(p) == Raws(q)
    ensures |p| == |q| && forall i :: 0 <= i < |p| ==> p[i].raw == q[i].raw
    ensures RawSet(p) == RawSet(q) && (NoRepeats(p) <==> NoRepeats(q))
  {
    assert |Raws(p)| == |p| && |Raws(q)| == |q|;
    forall i | 0 <= i < |p| ensures p[i].raw == q[i].raw {
      assert Raws(p)[i] == Raws(q)[i];
    }
  }

  lemma DataRow(rows: seq<Row>, i: nat)
    requires AllData(Raws(rows)) && i < |rows|
    ensures IsData(rows[i].raw) && '\n' !in rows[i].raw
  {
    assert Raws(rows)[i] == rows[i].raw;
  }

  /** Every merged row is a row of one of the bodies, and a data line. */
  lemma MergedFrom(read: TimeReader, c: Parsed, l: Parsed, rows: seq<Row>)
    requires AllData(Raws(c.rows)) && AllData(Raws(l.rows)) && Clean(c) && Clean(l) && MergedRows(c.rows + l.rows, rows)
    ensures AllData(Raws(rows)) && forall i :: 0 <= i < |rows| ==> TightLine(rows[i].raw)
  {
    hide AllData, TightLine, RawSet, NoRepeats, SortedByTime, IsData;
    forall i | 0 <= i < |rows| ensures IsData(rows[i].raw) && '\n' !in rows[i].raw && TightLine(rows[i].raw) {
      var k := SomeSource(c, l, rows[i]);
      if k < |c.rows| {
        DataRow(c.rows, k);
      } else {
        DataRow(l.rows, k - |c.rows|);
      }
    }
    RawsAreData(rows);
  }

  lemma SomeSource(c: Parsed, l: Parsed, r: Row) returns (k: nat)
    requires FirstOf(c.rows + l.rows, r)
    ensures k < |c.rows| + |l.rows| && r == if k < |c.rows| then c.rows[k] else l.rows[k - |c.rows|]
  {
    var i :| 0 <= i < |c.rows + l.rows| && (c.rows + l.rows)[i] == r && forall j :: 0 <= j < i ==> (c.rows + l.rows)[j].raw != r.raw;
    k := i;
  }

  lemma RawsAreData(rows: seq<Row>)
    requires forall i :: 0 <= i < |rows| ==> IsData(rows[i].raw) && '\n' !in rows[i].raw
    ensures AllData(Raws(rows))
  {
  }

  lemma TableIsTight(meta: seq<string>, header: string, raws: seq<string>)
    requires AllMeta(meta) && TightLine(header) && forall i :: 0 <= i < |raws| ==> TightLine(raws[i])
    ensures TightTable(meta + [header] + raws)
  {
    var t := meta + [header] + raws;
    assert t[0] == if meta == [] then header else meta[0];
    assert t[|t| - 1] == if raws == [] then header else raws[|raws| - 1];
  }

  lemma HeaderAndRows(header: string, raws: seq<string>)
    requires AllData([header]) && AllData(raws)
    ensures AllData([header] + raws) && IsData(header)
  {
    assert [header][0] == header;
  }

  /** With one header for both bodies, every row has the time that header gives it. */
  lemma TimesAgree(read: TimeReader, c: Parsed, l: Parsed, rows: seq<Row>)
    requires c.rows == RowsOf(read, c.header, Raws(c.rows)) && l.rows == RowsOf(read, l.header, Raws(l.rows))
    requires (c.header == "" ==> c.rows == []) && (l.header == "" ==> l.rows == []) && SameHeader(c, l)
    requires MergedRows(c.rows + l.rows, rows)
    ensures rows == RowsOf(read, ChosenHeader(c, l), Raws(rows))
  {
    hide RowOf, NoRepeats, SortedByTime, RawSet;
    var h := ChosenHeader(c, l);
    forall i | 0 <= i < |rows| ensures rows[i] == RowOf(read, h, rows[i].raw) {
      var k := SomeSource(c, l, rows[i]);
    }
  }

  /**
    Reading a merged body back, for bodies whose header and rows have no white space at their
    ends: the chosen header, the annotations of the cached body, and the rows of both bodies,
    each once; under a common header they are also in order of time. The result is as clean as
    its parts, so merges can be chained.
  */
  lemma MergeReread(read: TimeReader, a: string, b: string, out: string)
    requires IsMerge(read, a, b, out) && Clean(Parse(read, a)) && Clean(Parse(read, b))
    ensures var c, l, p := Parse(read, a), Parse(read, b), Parse(read, out);
      && Clean(p)
      && p.header == ChosenHeader(c, l)
      && RawSet(p.rows) == RawSet(c.rows) + RawSet(l.rows)
      && NoRepeats(p.rows)
      && (p.header != "" ==> p.meta == c.meta && out == Render(p.meta, p.header, Raws(p.rows)))
      && (SameHeader(c, l) ==> MergedRows(c.rows + l.rows, p.rows))
  {
    hide Parse, Render, MergedRows, AllData, AllMeta, TightLine, RawSet, NoRepeats, RowsOf;
    var c, l := Parse(read, a), Parse(read, b);
    var h := ChosenHeader(c, l);
    ParseShape(read, a);
    ParseShape(read, b);
    RawSetConcat(c.rows, l.rows);
    if h == "" {
      NothingToMerge();
    } else {
      var rows :| MergedRows(c.rows + l.rows, rows) && out == Render(c.meta, h, Raws(rows));
      RereadRows(read, c, l, rows, out);
    }
  }

  lemma NothingToMerge()
    ensures RawSet([]) == {} && NoRepeats([]) && MergedRows([] + [], [])
  {
  }

  lemma RereadRows(read: TimeReader, c: Parsed, l: Parsed, rows: seq<Row>, out: string)
    requires AllMeta(c.meta) && AllData(Raws(c.rows)) && AllData(Raws(l.rows)) && Clean(c) && Clean(l)
    requires if c.header == "" then c.rows == [] else AllData([c.header])
    requires if l.header == "" then l.rows == [] else AllData([l.header])
    requires c.rows == RowsOf(read, c.header, Raws(c.rows)) && l.rows == RowsOf(read, l.header, Raws(l.rows))
    requires MergedRows(c.rows + l.rows, rows) && ChosenHeader(c, l) != "" && out == Render(c.meta, ChosenHeader(c, l), Raws(rows))
    ensures var p := Parse(read, out);
      && p.meta == c.meta && p.header == ChosenHeader(c, l) && Raws(p.rows) == Raws(rows)
      && Clean(p) && RawSet(p.rows) == RawSet(c.rows) + RawSet(l.rows) && NoRepeats(p.rows)
      && (SameHeader(c, l) ==> p.rows == rows)
  {
    hide Parse, Render, MergedRows, AllData, AllMeta, TightLine, RawSet, NoRepeats, RowsOf, TightTable;
    var h := ChosenHeader(c, l);
    MergedFrom(read, c, l, rows);
    HeaderAndRows(h, Raws(rows));
    TableIsTight(c.meta, h, Raws(rows));
    ParseOfRender(read, c.meta, h, Raws(rows));
    RawsOfRows(read, h, Raws(rows));
    var p := Parse(read, out);
    RawsKeep(p.rows, rows);
    MergedSet(c.rows, l.rows, rows);
    if SameHeader(c, l) {
      TimesAgree(read, c, l, rows);
    }
  }

  lemma MergedSet(a: seq<Row>, b: seq<Row>, rows: seq<Row>)
    requires MergedRows(a + b, rows)
    ensures RawSet(rows) == RawSet(a) + RawSet(b) && NoRepeats(rows)
  {
    RawSetConcat(a, b);
  }

  /** The row sets of clean bodies merge by union, whatever their headers. */
  lemma MergeIsUnion(read: TimeReader, a: string, b: string, out: string)
    requires IsMerge(read, a, b, out) && Clean(Parse(read, a)) && Clean(Parse(read, b))
    ensures RowSet(read, out) == RowSet(read, a) + RowSet(read, b) && Clean(Parse(read, out))
  {
    hide IsMerge, Clean, Parse, RawSet, MergedRows, SameHeader;
    MergeReread(read, a, b, out);
  }

  /** Merging in either order gives the same rows. */
  lemma MergeCommutes(read: TimeReader, a: string, b: string, ab: string, ba: string)
    requires IsMerge(read, a, b, ab) && IsMerge(read, b, a, ba) && Clean(Parse(read, a)) && Clean(Parse(read, b))
    ensures RowSet(read, ab) == RowSet(read, ba)
    ensures SameHeader(Parse(read, a), Parse(read, b)) ==> Parse(read, ab).header == Parse(read, ba).header
  {
    hide IsMerge, Clean, Parse, RawSet, MergedRows;
    MergeReread(read, a, b, ab);
    MergeReread(read, b, a, ba);
  }

  /** Three bodies can be merged in any grouping. */
  lemma MergeAssociates(read: TimeReader, a: string, b: string, c: string, ab: string, bc: string, left: string, right: string)
    requires Clean(Parse(read, a)) && Clean(Parse(read, b)) && Clean(Parse(read, c))
    requires IsMerge(read, a, b, ab) && IsMerge(read, ab, c, left) && IsMerge(read, b, c, bc) && IsMerge(read, a, bc, right)
    ensures RowSet(read, left) == RowSet(read, right)
    ensures Parse(read, left).header == Parse(read, right).header
  {
    hide IsMerge, Clean, Parse, RawSet, MergedRows, SameHeader;
    MergeReread(read, a, b, ab);
    MergeReread(read, ab, c, left);
    MergeReread(read, b, c, bc);
    MergeReread(read, a, bc, right);
  }

  /** Merging a merged body with a part of it again: the body itself is a result, and every result has the same rows. */
  lemma RemergeAddsNothing(read: TimeReader, a: string, b: string, out: string, part: string, again: string)
    requires IsMerge(read, a, b, out) && Clean(Parse(read, a)) && Clean(Parse(read, b))
    requires SameHeader(Parse(read, a), Parse(read, b)) && Parse(read, out).header != ""
    requires part == a || part == b || part == out
    requires IsMerge(read, out, part, again)
    ensures IsMerge(read, out, part, out) && RowSet(read, again) == RowSet(read, out)
  {
    hide IsMerge, Clean, Parse, RawSet, MergedRows;
    MergeReread(read, a, b, out);
    MergeReread(read, out, part, again);
    var p, x := Parse(read, out), Parse(read, part);
    RawSetConcat(p.rows, x.rows);
    AlreadyMerged(Parse(read, a).rows + Parse(read, b).rows, p.rows, x.rows);
    MergeBy(read, out, part, p.rows);
  }

  lemma MergeBy(read: TimeReader, a: string, b: string, rows: seq<Row>)
    requires var c, l := Parse(read, a), Parse(read, b);
             ChosenHeader(c, l) != "" && MergedRows(c.rows + l.rows, rows)
    ensures var c, l := Parse(read, a), Parse(read, b);
            IsMerge(read, a, b, Render(c.meta, ChosenHeader(c, l), Raws(rows)))
  {
    hide Parse, Render, MergedRows;
  }

  lemma AlreadyMerged(all: seq<Row>, rows: seq<Row>, part: seq<Row>)
    requires MergedRows(all, rows) && RawSet(part) <= RawSet(rows)
    ensures MergedRows(rows + part, rows)
  {
    hide FirstOf;
    RawSetConcat(rows, part);
    forall i | 0 <= i < |rows| ensures FirstOf(rows + part, rows[i]) {
      FirstInFront(rows, part, i);
    }
  }

  lemma FirstInFront(rows: seq<Row>, part: seq<Row>, i: nat)
    requires NoRepeats(rows) && i < |rows|
    ensures FirstOf(rows + part, rows[i])
  {
    assert (rows + part)[i] == rows[i];
  }

  // ---------- the merged text ----------

  /**
    The merged text itself. Without any header it is the live body. Otherwise it is the cached
    annotations, the cached header (the live one if there is none), and every row of the two
    bodies once, each on a line with its line end, in order of the times of the rows: kc and kl
    are the time columns of the two headers, and a row of both bodies is read under the cached one.
  */
  lemma MergedText(read: TimeReader, cached: string, live: string, out: string, kc: int, kl: int)
    returns (raws: seq<string>, times: seq<T.Instant>)
    requires IsMerge(read, cached, live, out)
    requires TimeAtColumn(Parse(read, cached).header, kc) && TimeAtColumn(Parse(read, live).header, kl)
    ensures var c, l := Parse(read, cached), Parse(read, live);
      if c.header == "" && l.header == "" then out == live
      else
        && out == JoinWith(c.meta + [if c.header != "" then c.header else l.header] + raws, '\n') + "\n"
        && (forall i, j :: 0 <= i < j < |raws| ==> raws[i] != raws[j])
        && (forall x :: x in raws <==> (exists i :: 0 <= i < |c.rows| && c.rows[i].raw == x) || (exists i :: 0 <= i < |l.rows| && l.rows[i].raw == x))
        && |times| == |raws| && (forall i, j :: 0 <= i < j < |raws| ==> times[i] <= times[j])
        && (forall i :: 0 <= i < |raws| ==> ReadsAs(read, if raws[i] in RawSet(c.rows) then kc else kl, raws[i], times[i]))
  {
    hide Parse, MergedRows, ReadsAs, TimeAtColumn, RowsOf, AllData, AllMeta, RawSet, Raws;
    var c, l := Parse(read, cached), Parse(read, live);
    raws, times := [], [];
    if ChosenHeader(c, l) != "" {
      var rows: seq<Row> :| MergedRows(c.rows + l.rows, rows) && out == Render(c.meta, ChosenHeader(c, l), Raws(rows));
      raws := Raws(rows);
      ParseShape(read, cached);
      ParseShape(read, live);
      MergedRaws(c.rows, l.rows, rows);
      times := MergedTimes(read, c, l, rows, kc, kl);
    }
  }

  lemma MergedTimes(read: TimeReader, c: Parsed, l: Parsed, rows: seq<Row>, kc: int, kl: int) returns (times: seq<T.Instant>)
    requires MergedRows(c.rows + l.rows, rows)
    requires c.rows == RowsOf(read, c.header, Raws(c.rows)) && TimeAtColumn(c.header, kc)
    requires l.rows == RowsOf(read, l.header, Raws(l.rows)) && TimeAtColumn(l.header, kl)
    ensures var raws := Raws(rows);
      && |times| == |raws| && (forall i, j :: 0 <= i < j < |raws| ==> times[i] <= times[j])
      && (forall i :: 0 <= i < |raws| ==> ReadsAs(read, if raws[i] in RawSet(c.rows) then kc else kl, raws[i], times[i]))
  {
    hide MergedRows, ReadsAs, TimeAtColumn, RowsOf, RawSet, Raws, TimeAt, TimeColumn, SplitOn, FirstOf, NoRepeats;
    ColumnFound(c.header, kc);
    ColumnFound(l.header, kl);
    MergedRaws(c.rows, l.rows, rows);
    var raws := Raws(rows);
    times := seq(|rows|, i requires 0 <= i < |rows| => rows[i].time);
    forall i | 0 <= i < |raws| ensures ReadsAs(read, if raws[i] in RawSet(c.rows) then kc else kl, raws[i], times[i]) {
      MergedTime(read, c, l, rows, i, kc, kl);
      CellRead(read, if raws[i] in RawSet(c.rows) then kc else kl, raws[i], times[i]);
    }
  }

  /** The texts of merged rows. */
  lemma MergedRaws(a: seq<Row>, b: seq<Row>, rows: seq<Row>)
    requires MergedRows(a + b, rows)
    ensures var raws := Raws(rows);
      && |raws| == |rows| && (forall i :: 0 <= i < |raws| ==> raws[i] == rows[i].raw)
      && (forall i, j :: 0 <= i < j < |raws| ==> raws[i] != raws[j])
      && (forall x :: x in raws <==> (exists i :: 0 <= i < |a| && a[i].raw == x) || (exists i :: 0 <= i < |b| && b[i].raw == x))
      && SortedByTime(rows)
  {
    hide FirstOf;
    var raws := Raws(rows);
    RawSetConcat(a, b);
    forall x ensures x in raws <==> x in RawSet(rows) {
      if x in raws {
        var i :| 0 <= i < |raws| && raws[i] == x;
      }
      if x in RawSet(rows) {
        var i :| 0 <= i < |rows| && rows[i].raw == x;
        assert raws[i] == x;
      }
    }
  }

  /** A merged row has the time of the cached row with its text, or else of the live one. */
  lemma MergedTime(read: TimeReader, c: Parsed, l: Parsed, rows: seq<Row>, i: nat, kc: int, kl: int)
    requires MergedRows(c.rows + l.rows, rows) && i < |rows|
    requires c.rows == RowsOf(read, c.header, Raws(c.rows)) && TimeColumn(SplitOn(c.header, ',')) == kc
    requires l.rows == RowsOf(read, l.header, Raws(l.rows)) && TimeColumn(SplitOn(l.header, ',')) == kl
    ensures rows[i].time == TimeAt(read, if rows[i].raw in RawSet(c.rows) then kc else kl, rows[i].raw)
  {
    hide RowsOf, Raws, TimeAt, TimeColumn, SplitOn, NoRepeats, SortedByTime;
    var all := c.rows + l.rows;
    var k :| 0 <= k < |all| && all[k] == rows[i] && forall j :: 0 <= j < k ==> all[j].raw != rows[i].raw;
    if k < |c.rows| {
      assert c.rows[k] == rows[i];
      RowTimed(read, c.header, c.rows, k);
      assert rows[i].raw in RawSet(c.rows);
    } else {
      assert l.rows[k - |c.rows|] == rows[i];
      RowTimed(read, l.header, l.rows, k - |c.rows|);
      forall n | 0 <= n < |c.rows| ensures c.rows[n].raw != rows[i].raw {
        assert all[n] == c.rows[n];
      }
    }
  }

  // ---------- the one freedom ----------

  ghost predicate DistinctTimes(rows: seq<Row>) {
    forall i, j :: 0 <= i < |rows| && 0 <= j < |rows| && rows[i].time == rows[j].time ==> rows[i].raw == rows[j].raw
  }

  /** The unstable sort is the only freedom: when rows of equal time are equal, the merged text is determined. */
  lemma MergeDetermined(read: TimeReader, a: string, b: string, x: string, y: string)
    requires IsMerge(read, a, b, x) && IsMerge(read, a, b, y)
    requires DistinctTimes(Parse(read, a).rows + Parse(read, b).rows)
    ensures x == y
  {
    hide Parse, Render, MergedRows, DistinctTimes;
    var c, l := Parse(read, a), Parse(read, b);
    if ChosenHeader(c, l) != "" {
      var r :| MergedRows(c.rows + l.rows, r) && x == Render(c.meta, ChosenHeader(c, l), Raws(r));
      var t :| MergedRows(c.rows + l.rows, t) && y == Render(c.meta, ChosenHeader(c, l), Raws(t));
      MergedRowsDetermined(c.rows + l.rows, r, t);
    }
  }

  lemma MergedRowsDetermined(all: seq<Row>, r: seq<Row>, t: seq<Row>)
    requires MergedRows(all, r) && MergedRows(all, t) && DistinctTimes(all)
    ensures r == t
  {
    SameMembers(all, r, t);
    SameMembers(all, t, r);
    Increasing(all, r);
    Increasing(all, t);
    SameSorted(r, t);
  }

  lemma SameMembers(all: seq<Row>, r: seq<Row>, t: seq<Row>)
    requires MergedRows(all, r) && MergedRows(all, t)
    ensures forall i :: 0 <= i < |r| ==> r[i] in t
  {
    hide NoRepeats, SortedByTime;
    forall i | 0 <= i < |r| ensures r[i] in t {
      assert r[i].raw in RawSet(t);
      var j :| 0 <= j < |t| && t[j].raw == r[i].raw;
      SameFirst(all, r[i], t[j]);
    }
  }

  lemma SameFirst(all: seq<Row>, x: Row, y: Row)
    requires FirstOf(all, x) && FirstOf(all, y) && x.raw == y.raw
    ensures x == y
  {
    var i :| 0 <= i < |all| && all[i] == x && forall j :: 0 <= j < i ==> all[j].raw != x.raw;
    var k :| 0 <= k < |all| && all[k] == y && forall j :: 0 <= j < k ==> all[j].raw != y.raw;
  }

  ghost predicate StrictlyIncreasing(rows: seq<Row>) {
    forall i, j :: 0 <= i < j < |rows| ==> rows[i].time < rows[j].time
  }

  lemma Increasing(all: seq<Row>, rows: seq<Row>)
    requires MergedRows(all, rows) && DistinctTimes(all)
    ensures StrictlyIncreasing(rows)
  {
    forall i, j | 0 <= i < j < |rows| ensures rows[i].time < rows[j].time {
      assert FirstOf(all, rows[i]) && FirstOf(all, rows[j]);
      var x :| 0 <= x < |all| && all[x] == rows[i];
      var y :| 0 <= y < |all| && all[y] == rows[j];
      assert all[x].raw != all[y].raw;
    }
  }

  ghost predicate Within(r: seq<Row>, t: seq<Row>) {
    forall i :: 0 <= i < |r| ==> r[i] in t
  }

  lemma LastIsLargest(t: seq<Row>, x: Row)
    requires StrictlyIncreasing(t) && x in t
    ensures x == t[|t| - 1] || x.time < t[|t| - 1].time
  {
    var i :| 0 <= i < |t| && t[i] == x;
  }

  lemma DropLast(r: seq<Row>, t: seq<Row>)
    requires r != [] && t != [] && Within(r, t) && StrictlyIncreasing(r) && r[|r| - 1] == t[|t| - 1]
    ensures Within(r[..|r| - 1], t[..|t| - 1]) && StrictlyIncreasing(r[..|r| - 1])
  {
    forall i | 0 <= i < |r| - 1 ensures r[i] in t[..|t| - 1] {
      assert r[i] in t && r[i].time < r[|r| - 1].time;
      var j :| 0 <= j < |t| && t[j] == r[i];
      assert t[..|t| - 1][j] == r[i];
    }
  }

  lemma NothingWithin(r: seq<Row>)
    ensures Within(r, []) <==> r == []
  {
    assert r != [] ==> r[0] !in [];
  }

  /** A strictly increasing sequence is determined by its members. */
  lemma {:induction false} SameSorted(r: seq<Row>, t: seq<Row>)
    requires StrictlyIncreasing(r) && StrictlyIncreasing(t) && Within(r, t) && Within(t, r)
    ensures r == t
  {
    hide StrictlyIncreasing;
    NothingWithin(r);
    NothingWithin(t);
    if r != [] && t != [] {
      var m, n := |r| - 1, |t| - 1;
      LastIsLargest(t, r[m]);
      LastIsLargest(r, t[n]);
      DropLast(r, t);
      DropLast(t, r);
      SameSorted(r[..m], t[..n]);
      assert r == r[..m] + [r[m]] && t == t[..n] + [t[n]];
    }
  }
}
