/**
  parseCSVResponse and MergeCSV of internal/flux/merge.go. Times are read by any function from
  cell text to instants: the laws of merging do not depend on the time format.
*/
module CsvMerge {
  import opened Text
  import T = Rfc3339

  /** time.Parse(time.RFC3339Nano, cell). */
  type TimeReader = string -> Option<T.Instant>

  datatype Row = Row(time: T.Instant, raw: string)

  datatype Parsed = Parsed(meta: seq<string>, header: string, rows: seq<Row>)

  // ---------- what parsing means ----------

  predicate IsMeta(line: string) { line != "" && line[0] == '#' }

  predicate IsData(line: string) { line != "" && line[0] != '#' }

  function MetaLines(lines: seq<string>): (r: seq<string>)
    ensures forall i :: 0 <= i < |r| ==> IsMeta(r[i]) && r[i] in lines
  {
    if lines == [] then []
    else MetaLines(lines[..|lines| - 1]) + (if IsMeta(lines[|lines| - 1]) then [lines[|lines| - 1]] else [])
  }

  function DataLines(lines: seq<string>): (r: seq<string>)
    ensures forall i :: 0 <= i < |r| ==> IsData(r[i]) && r[i] in lines
  {
    if lines == [] then []
    else DataLines(lines[..|lines| - 1]) + (if IsData(lines[|lines| - 1]) then [lines[|lines| - 1]] else [])
  }

  predicate NamesTime(col: string) { Trim(col) == "_time" }

  /** The first column from i on that is named _time, or -1. */
  function TimeColumnFrom(cols: seq<string>, i: nat): (k: int)
    requires i <= |cols|
    ensures -1 <= k < |cols|
    decreases |cols| - i
  {
    if i == |cols| then -1 else if NamesTime(cols[i]) then i else TimeColumnFrom(cols, i + 1)
  }

  function TimeColumn(cols: seq<string>): int { TimeColumnFrom(cols, 0) }

  /** The time of a data line under the time column: the cell, or the Unix epoch when there is none or it does not parse. */
  function TimeAt(read: TimeReader, col: int, line: string): T.Instant {
    var parts := SplitOn(line, ',');
    if 0 <= col < |parts| && read(Trim(parts[col])).Some? then read(Trim(parts[col])).value else T.UNIX_EPOCH
  }

  function RowOf(read: TimeReader, header: string, line: string): Row {
    Row(TimeAt(read, TimeColumn(SplitOn(header, ',')), line), line)
  }

  function RowsOf(read: TimeReader, header: string, lines: seq<string>): seq<Row> {
    seq(|lines|, i requires 0 <= i < |lines| => RowOf(read, header, lines[i]))
  }

  function ParseLines(read: TimeReader, lines: seq<string>): Parsed {
    var d := DataLines(lines);
    if d == [] then Parsed(MetaLines(lines), "", [])
    else Parsed(MetaLines(lines), d[0], RowsOf(read, d[0], d[1..]))
  }

  /** The annotation lines, the first other line as header, and the remaining lines as rows. */
  function Parse(read: TimeReader, body: string): Parsed {
    ParseLines(read, SplitOn(Trim(body), '\n'))
  }

  // ---------- the same on the text ----------

  /** The column whose cell is the time is the first one named _time; without one there is no time column. */
  lemma TimeColumnIsFirst(cols: seq<string>, k: nat)
    requires k < |cols|
    ensures TimeColumn(cols) == k <==> Trim(cols[k]) == "_time" && forall i :: 0 <= i < k ==> Trim(cols[i]) != "_time"
    ensures TimeColumn(cols) == -1 <==> forall i :: 0 <= i < |cols| ==> Trim(cols[i]) != "_time"
  {
    hide Trim;
    FirstFrom(cols, 0);
  }

  lemma {:induction false} FirstFrom(cols: seq<string>, i: nat)
    requires i <= |cols|
    ensures var k := TimeColumnFrom(cols, i);
            if k == -1 then forall j :: i <= j < |cols| ==> !NamesTime(cols[j])
            else i <= k && NamesTime(cols[k]) && forall j :: i <= j < k ==> !NamesTime(cols[j])
    decreases |cols| - i
  {
    hide NamesTime;
    if i < |cols| {
      FirstFrom(cols, i + 1);
    }
  }

  /** The cells of a line are the texts between its commas. */
  ghost predicate Cells(line: string, cells: seq<string>) {
    cells != [] && line == JoinWith(cells, ',') && forall i :: 0 <= i < |cells| ==> ',' !in cells[i]
  }

  /** k is the position of the first cell of the header that is _time between white space, or -1 if none is. */
  ghost predicate TimeAtColumn(header: string, k: int) {
    exists cols :: Cells(header, cols) && -1 <= k < |cols| &&
      (k >= 0 ==> Trim(cols[k]) == "_time") && forall i :: 0 <= i < (if k < 0 then |cols| else k) ==> Trim(cols[i]) != "_time"
  }

  /** t is what cell k of the line reads as, or the Unix epoch when there is no such cell or it does not read. */
  ghost predicate ReadsAs(read: TimeReader, k: int, line: string, t: T.Instant) {
    exists cells :: Cells(line, cells) &&
      t == if 0 <= k < |cells| && read(Trim(cells[k])).Some? then read(Trim(cells[k])).value else 719_162 * 86_400_000_000_000
  }

  lemma CellsAreSplit(line: string, cells: seq<string>)
    ensures Cells(line, cells) <==> cells == SplitOn(line, ',')
  {
    hide SplitOn, JoinWith;
    JoinOfSplit(line, ',');
    if Cells(line, cells) {
      SplitOfJoin(cells, ',');
    }
  }

  lemma ColumnFound(header: string, k: int)
    ensures TimeAtColumn(header, k) <==> TimeColumn(SplitOn(header, ',')) == k
  {
    hide Trim, SplitOn, Cells, TimeColumn;
    var cols := SplitOn(header, ',');
    CellsAreSplit(header, cols);
    forall c | Cells(header, c) ensures c == cols {
      CellsAreSplit(header, c);
    }
    ColumnBound(cols);
    TimeColumnIsFirst(cols, if 0 <= k < |cols| then k else 0);
  }

  lemma ColumnBound(cols: seq<string>)
    ensures -1 <= TimeColumn(cols) < |cols|
  {
  }

  lemma CellRead(read: TimeReader, k: int, line: string, t: T.Instant)
    ensures ReadsAs(read, k, line, t) <==> TimeAt(read, k, line) == t
  {
    hide Trim, SplitOn, Cells;
    CellsAreSplit(line, SplitOn(line, ','));
    forall c | Cells(line, c) ensures c == SplitOn(line, ',') {
      CellsAreSplit(line, c);
    }
  }

  /** Every row has the time its cell in the time column of the header reads as. */
  ghost predicate Timed(read: TimeReader, p: Parsed) {
    forall k, i :: TimeAtColumn(p.header, k) && 0 <= i < |p.rows| ==> ReadsAs(read, k, p.rows[i].raw, p.rows[i].time)
  }

  lemma NothingTimed(read: TimeReader, p: Parsed)
    requires p.rows == []
    ensures Timed(read, p)
  {
  }

  lemma RowsTimed(read: TimeReader, header: string, lines: seq<string>, meta: seq<string>)
    ensures Timed(read, Parsed(meta, header, RowsOf(read, header, lines)))
  {
    hide TimeAtColumn, ReadsAs, TimeAt, TimeColumn, SplitOn;
    var rows := RowsOf(read, header, lines);
    forall k, i | TimeAtColumn(header, k) && 0 <= i < |rows| ensures ReadsAs(read, k, rows[i].raw, rows[i].time) {
      ColumnFound(header, k);
      CellRead(read, k, rows[i].raw, rows[i].time);
    }
  }

  // ---------- parsing as the source does it ----------

  method FindTimeColumn(header: string) returns (col: int)
    ensures col == TimeColumn(SplitOn(header, ','))
  {
    hide NamesTime, SplitOn;
    var cols := SplitOn(header, ',');
    col := -1;
    var i := 0;
    while i < |cols|
      invariant 0 <= i <= |cols|
      invariant col == -1 && TimeColumn(cols) == TimeColumnFrom(cols, i)
    {
      if NamesTime(cols[i]) {
        return i;
      }
      i := i + 1;
    }
  }

  lemma LinesOneMore(lines: seq<string>, i: nat)
    requires i < |lines|
    ensures var l := lines[i];
      && MetaLines(lines[..i + 1]) == MetaLines(lines[..i]) + (if IsMeta(l) then [l] else [])
      && DataLines(lines[..i + 1]) == DataLines(lines[..i]) + (if IsData(l) then [l] else [])
  {
    assert lines[..i + 1][..i] == lines[..i];
  }

  method ParseCsvResponse(read: TimeReader, body: string) returns (p: Parsed)
    ensures p == Parse(read, body) && Timed(read, p)
  {
    hide Trim, SplitOn, TimeAt, TimeColumn, MetaLines, DataLines, Timed;
    var lines := SplitOn(Trim(body), '\n');
    var meta: seq<string>, header: string, rows: seq<Row> := [], "", [];
    var timeCol := -1;
    NoLines();
    var i := 0;
    while i < |lines|
      invariant 0 <= i <= |lines|
      invariant meta == MetaLines(lines[..i])
      invariant var d := DataLines(lines[..i]);
                if d == [] then header == "" && rows == []
                else header == d[0] && header != "" && timeCol == TimeColumn(SplitOn(header, ',')) && rows == RowsOf(read, header, d[1..])
    {
      var line := lines[i];
      LinesOneMore(lines, i);
      if line == "" {
      } else if line[0] == '#' {
        meta := meta + [line];
      } else if header == "" {
        header := line;
        timeCol := FindTimeColumn(line);
      } else {
        RowsOneMore(read, header, DataLines(lines[..i])[1..], line);
        DropFirst(DataLines(lines[..i]), line);
        rows := rows + [Row(TimeAt(read, timeCol, line), line)];
      }
      i := i + 1;
    }
    assert lines[..i] == lines;
    p := Parsed(meta, header, rows);
    if rows == [] {
      NothingTimed(read, p);
    } else {
      RowsTimed(read, header, DataLines(lines)[1..], meta);
    }
  }

  lemma NoLines()
    ensures MetaLines([]) == [] && DataLines([]) == []
  {
  }

  lemma DropFirst(d: seq<string>, l: string)
    requires d != []
    ensures (d + [l])[1..] == d[1..] + [l] && (d + [l])[0] == d[0]
  {
  }

  lemma RowsOneMore(read: TimeReader, header: string, lines: seq<string>, l: string)
    ensures RowsOf(read, header, lines + [l]) == RowsOf(read, header, lines) + [RowOf(read, header, l)]
  {
    hide RowOf;
  }

  // ---------- merging ----------

  function Raws(rows: seq<Row>): seq<string> {
    seq(|rows|, i requires 0 <= i < |rows| => rows[i].raw)
  }

  function RawSet(rows: seq<Row>): set<string> {
    set i | 0 <= i < |rows| :: rows[i].raw
  }

  ghost predicate NoRepeats(rows: seq<Row>) {
    forall i, j :: 0 <= i < j < |rows| ==> rows[i].raw != rows[j].raw
  }

  ghost predicate SortedByTime(rows: seq<Row>) {
    forall i, j :: 0 <= i < j < |rows| ==> rows[i].time <= rows[j].time
  }

  /** r is the first row of all with its text. */
  ghost predicate FirstOf(all: seq<Row>, r: Row) {
    exists i :: 0 <= i < |all| && all[i] == r && forall j :: 0 <= j < i ==> all[j].raw != r.raw
  }

  /** Every text of all once, as it first appears, in order of time; rows of equal time may come in any order. */
  ghost predicate MergedRows(all: seq<Row>, rows: seq<Row>) {
    && NoRepeats(rows)
    && RawSet(rows) == RawSet(all)
    && (forall i :: 0 <= i < |rows| ==> FirstOf(all, rows[i]))
    && SortedByTime(rows)
  }

  function Render(meta: seq<string>, header: string, raws: seq<string>): string {
    JoinWith(meta + [header] + raws, '\n') + "\n"
  }

  function ChosenHeader(c: Parsed, l: Parsed): string {
    if c.header == "" then l.header else c.header
  }

  /** out is a possible result of merging the two bodies. */
  ghost predicate IsMerge(read: TimeReader, cached: string, live: string, out: string) {
    var c, l := Parse(read, cached), Parse(read, live);
    if ChosenHeader(c, l) == "" then out == live
    else exists rows :: MergedRows(c.rows + l.rows, rows) && out == Render(c.meta, ChosenHeader(c, l), Raws(rows))
  }

  /** The loop over the seen texts. */
  method Deduplicate(all: seq<Row>) returns (rows: seq<Row>)
    ensures NoRepeats(rows) && RawSet(rows) == RawSet(all)
    ensures forall i :: 0 <= i < |rows| ==> FirstOf(all, rows[i])
  {
    rows := [];
    var seen: set<string> := {};
    var i := 0;
    while i < |all|
      invariant 0 <= i <= |all|
      invariant NoRepeats(rows) && seen == RawSet(rows) == RawSet(all[..i])
      invariant forall k :: 0 <= k < |rows| ==> FirstOf(all, rows[k])
    {
      RawSetOneMore(all, i);
      if all[i].raw !in seen {
        NewRow(all, i, rows);
        seen := seen + {all[i].raw};
        rows := rows + [all[i]];
      }
      i := i + 1;
    }
    assert all[..i] == all;
  }

  lemma RawSetOneMore(all: seq<Row>, i: nat)
    requires i < |all|
    ensures RawSet(all[..i + 1]) == RawSet(all[..i]) + {all[i].raw}
  {
    var a, b := all[..i], all[..i + 1];
    assert b == a + [all[i]];
    RawSetSnoc(a, all[i]);
  }

  lemma RawSetSnoc(a: seq<Row>, r: Row)
    ensures RawSet(a + [r]) == RawSet(a) + {r.raw}
  {
    var b := a + [r];
    assert b[|a|] == r;
    forall x | x in RawSet(a) ensures x in RawSet(b) {
      var j :| 0 <= j < |a| && a[j].raw == x;
      assert b[j].raw == x;
    }
  }

  lemma NewRow(all: seq<Row>, i: nat, rows: seq<Row>)
    requires i < |all| && RawSet(rows) == RawSet(all[..i]) && all[i].raw !in RawSet(rows) && NoRepeats(rows)
    ensures NoRepeats(rows + [all[i]]) && FirstOf(all, all[i]) && RawSet(rows + [all[i]]) == RawSet(rows) + {all[i].raw}
  {
    RawSetSnoc(rows, all[i]);
    forall j | 0 <= j < i ensures all[j].raw != all[i].raw {
      assert all[..i][j].raw in RawSet(all[..i]);
    }
    forall j | 0 <= j < |rows| ensures rows[j].raw != all[i].raw {
      assert rows[j].raw in RawSet(rows);
    }
  }

  /** sort.Slice by time; nothing is promised about rows of equal time. */
  method SortRows(rows: seq<Row>) returns (out: seq<Row>)
    ensures multiset(out) == multiset(rows) && SortedByTime(out)
  {
    hide SortedByTime, InsertAt;
    assert SortedByTime([]) by {
      NothingToSort();
    }
    out := [];
    var i := 0;
    while i < |rows|
      invariant 0 <= i <= |rows|
      invariant multiset(out) == multiset(rows[..i]) && SortedByTime(out)
    {
      var k := |out|;
      while k > 0 && rows[i].time < out[k - 1].time
        invariant 0 <= k <= |out|
        invariant forall j :: k <= j < |out| ==> rows[i].time < out[j].time
      {
        k := k - 1;
      }
      InsertSorted(out, k, rows[i]);
      assert rows[..i + 1] == rows[..i] + [rows[i]];
      out := InsertAt(out, k, rows[i]);
      i := i + 1;
    }
    assert rows[..i] == rows;
  }

  function InsertAt(s: seq<Row>, k: nat, r: Row): seq<Row>
    requires k <= |s|
  {
    s[..k] + [r] + s[k..]
  }

  lemma NothingToSort()
    ensures SortedByTime([])
  {
  }

  lemma InsertSorted(s: seq<Row>, k: nat, r: Row)
    requires SortedByTime(s) && k <= |s|
    requires k > 0 ==> s[k - 1].time <= r.time
    requires forall j :: k <= j < |s| ==> r.time < s[j].time
    ensures SortedByTime(InsertAt(s, k, r))
    ensures multiset(InsertAt(s, k, r)) == multiset(s) + multiset{r}
  {
    assert forall i :: 0 <= i < k ==> s[i].time <= r.time;
    SortedConcat(s[..k], [r]);
    SortedConcat(s[..k] + [r], s[k..]);
    InsertKeeps(s, k, r);
  }

  lemma SortedConcat(a: seq<Row>, b: seq<Row>)
    requires SortedByTime(a) && SortedByTime(b)
    requires forall i, j :: 0 <= i < |a| && 0 <= j < |b| ==> a[i].time <= b[j].time
    ensures SortedByTime(a + b)
  {
  }

  lemma InsertKeeps(s: seq<Row>, k: nat, r: Row)
    requires k <= |s|
    ensures multiset(InsertAt(s, k, r)) == multiset(s) + multiset{r}
  {
    assert s == s[..k] + s[k..];
  }

  /** A permutation keeps texts, first appearances and the absence of repeats. */
  lemma PermutedRows(a: seq<Row>, b: seq<Row>, all: seq<Row>)
    requires multiset(a) == multiset(b) && NoRepeats(a) && forall i :: 0 <= i < |a| ==> FirstOf(all, a[i])
    ensures NoRepeats(b) && RawSet(b) == RawSet(a) && forall i :: 0 <= i < |b| ==> FirstOf(all, b[i])
  {
    hide FirstOf;
    forall i | 0 <= i < |b| ensures FirstOf(all, b[i]) && b[i].raw in RawSet(a) {
      assert b[i] in multiset(b);
      assert b[i] in multiset(a);
      var j :| 0 <= j < |a| && a[j] == b[i];
    }
    forall i | 0 <= i < |a| ensures a[i].raw in RawSet(b) {
      assert a[i] in multiset(a);
      assert a[i] in multiset(b);
      var j :| 0 <= j < |b| && b[j] == a[i];
    }
    forall i, j | 0 <= i < j < |b| ensures b[i].raw != b[j].raw {
      if b[i].raw == b[j].raw {
        RepeatInPermutation(a, b, i, j);
      }
    }
  }

  lemma RepeatInPermutation(a: seq<Row>, b: seq<Row>, i: nat, j: nat)
    requires multiset(a) == multiset(b) && NoRepeats(a) && i < j < |b|
    ensures b[i].raw != b[j].raw
  {
    assert b[i] in multiset(b) && b[j] in multiset(b);
    var x :| 0 <= x < |a| && a[x] == b[i];
    var y :| 0 <= y < |a| && a[y] == b[j];
    OnlyOnce(a, x);
    if x == y {
      TwiceIn(b, i, j);
    }
  }

  lemma TwiceIn(b: seq<Row>, i: nat, j: nat)
    requires i < j < |b| && b[i] == b[j]
    ensures multiset(b)[b[i]] >= 2
  {
    assert b == b[..j] + b[j..];
    assert b[..j][i] == b[i] && b[j..][0] == b[i];
    assert b[i] in multiset(b[..j]) && b[i] in multiset(b[j..]);
  }

  lemma OnlyOnce(a: seq<Row>, x: nat)
    requires x < |a| && NoRepeats(a)
    ensures multiset(a)[a[x]] == 1
  {
    assert a == a[..x] + [a[x]] + a[x + 1..];
    assert a[x] !in a[..x] && a[x] !in a[x + 1..];
  }

  /** MergeCSV. */
  method MergeCsv(read: TimeReader, cached: string, live: string) returns (out: string)
    ensures IsMerge(read, cached, live, out)
  {
    hide Parse, MergedRows, Render;
    var c := ParseCsvResponse(read, cached);
    var l := ParseCsvResponse(read, live);
    var header := if c.header == "" then l.header else c.header;
    if header == "" {
      return live;
    }
    var rows := MergeRows(c.rows + l.rows);
    out := Render(c.meta, header, Raws(rows));
  }

  method MergeRows(all: seq<Row>) returns (rows: seq<Row>)
    ensures MergedRows(all, rows)
  {
    hide FirstOf, NoRepeats, SortedByTime, RawSet;
    var d := Deduplicate(all);
    rows := SortRows(d);
    PermutedRows(d, rows, all);
  }
}
