/**
  Two small worlds in which everything that the end-to-end theorems assume is the case: a query
  over the last hour, and one over an absolute hour, with three points around the cutoff. One
  request fills the cache, a later one is served from it, and its answer holds a row in excess.
*/
module Example {
  import opened Text
  import opened Wire
  import opened CacheKey
  import opened CacheFill
  import opened CacheSafety
  import opened CacheHits
  import opened CacheLimits
  import opened Patterns
  import opened RangeCall
  import opened FluxSplit
  import opened SplitLaws
  import opened StampTexts
  import opened CallTexts
  import opened CsvMerge
  import opened MergeLaws
  import opened Meaning
  import opened EndToEnd
  import opened HandleQuery
  import Modular
  import R = Retry
  import T = Rfc3339
  import U = Upstream

  const HOUR: nat := 3_600_000_000_000
  const START: string := "-1h"
  const STOP: string := "now()"

  /** A range in a query and the start of its cached range, with the cutoff k and the time of the earliest point. */
  datatype Scene = Scene(start: string, stop: string, cachedStart: string, k: T.Instant, early: T.Instant)
  {
    function Original(): string { RangeText(start, stop) }

    function Cached(): string { RangeText(cachedStart, CutoffExpr(k)) }

    function Live(): string { RangeText(CutoffExpr(k), stop) }

    function Points(): set<Point> { {Point(early, "x"), Point(k - 1, "a"), Point(k, "b")} }

    /** The cached query is answered at k + 1, the others at k + 2. */
    function Answers(body: string): Option<(T.Instant, string)> {
      if body == Cached() then Some((k + 1, Table(["x", "a"])))
      else if body == Live() then Some((k + 2, Table(["b"])))
      else if body == Original() then Some((k + 2, Table(["a", "b"])))
      else None
    }

    function Targets(): Upstream {
      Upstream(e => Points(), Bound, (a: Ask, e, p) => Answers(a.body) == Some((e, p)))
    }

    function Asked(org: string): Incoming { Incoming(org, Original(), Original(), Same(), CSV) }

    /** One target, asked at k + 2. */
    function Ahead(): R.Route {
      R.Route(U.Config([U.Target("t", "", "", 1)], 1, 0), U.Fleet(0, map[]),
           i => R.Moment([], k + 2, (name, ask: Ask) => ReplyTo(ask), k + 2, [], k + 2), 0)
    }

    function ReplyTo(ask: Ask): Reply {
      var a := Answers(ask.body);
      if a.Some? && a.value.0 == k + 2 then Answer(200, a.value.1) else Answer(404, "")
    }
  }

  /** A table with one column h. */
  function Table(rows: seq<string>): string { Render([], "h", rows) }

  function Bound(x: string, e: T.Instant): Option<T.Instant> {
    if x == STOP then Some(e) else if x == START then Some(e - HOUR) else ParseTime(Gateway(), x)
  }

  function Same(): string -> Option<string> { (x: string) => Some(x) }

  function Data(): Pipeline { (p: Point) => Some(p.data) }

  // ---------- what a scene has to be ----------

  /** A range text is a call in one way only. */
  ghost predicate OnlyCall(start: string, stop: string) {
    forall form, s, e :: IsCall(form, RangeText(start, stop), s, e) ==> s == start && e == stop
  }

  /** Which of the three lines. */
  datatype Mask = Mask(x: bool, a: bool, b: bool)
  {
    function Lines(): set<string> { (if x then {"x"} else {}) + (if a then {"a"} else {}) + (if b then {"b"} else {}) }
  }

  const OLD: Mask := Mask(true, true, false)
  const TAIL: Mask := Mask(false, false, true)
  const ASKED: Mask := Mask(false, true, true)
  const ALL: Mask := Mask(true, true, true)

  /** Which of the three points lie in a range. */
  ghost predicate Sees(sc: Scene, start: string, stop: string, e: T.Instant, m: Mask) {
    var a, b := Bound(start, e), Bound(stop, e);
    && a.Some? && b.Some?
    && m == Mask(a.value <= sc.early < b.value, a.value <= sc.k - 1 < b.value, a.value <= sc.k < b.value)
  }

  ghost predicate CallsFit(sc: Scene) {
    OnlyCall(sc.cachedStart, CutoffExpr(sc.k)) && OnlyCall(CutoffExpr(sc.k), sc.stop) && OnlyCall(sc.start, sc.stop)
  }

  ghost predicate RangesFit(sc: Scene) {
    && Sees(sc, sc.cachedStart, CutoffExpr(sc.k), sc.k + 1, OLD)
    && Sees(sc, CutoffExpr(sc.k), sc.stop, sc.k + 2, TAIL)
    && Sees(sc, sc.start, sc.stop, sc.k + 2, ASKED)
  }

  predicate TextsFit(sc: Scene) {
    sc.Original() != sc.Cached() && sc.Original() != sc.Live() && sc.Live() != sc.Cached()
  }

  predicate SplitFits(sc: Scene) {
    && SplitNowQuery(Gateway(), sc.Original(), sc.k) == Some((sc.Cached(), sc.Live()))
    && Recognise(Gateway(), sc.Original()).Some?
    && Recognise(Gateway(), sc.Original()).value.1 == "" && Recognise(Gateway(), sc.Original()).value.2.rest == ""
  }

  ghost predicate Fits(sc: Scene) {
    T.Representable(sc.k) && CallsFit(sc) && RangesFit(sc) && TextsFit(sc) && SplitFits(sc)
  }

  // ---------- times and texts ----------

  lemma {:induction false} QuotesShorten(s: string)
    ensures |TrimQuotes(s)| <= |s|
    decreases |s|
  {
    if s != "" && s[0] == '"' {
      QuotesShorten(s[1..]);
    } else if s != "" && s[|s| - 1] == '"' {
      QuotesShorten(s[..|s| - 1]);
    }
  }

  lemma ShortIsNoTime(x: string)
    requires 0 < |x| < 11 && Tight(x) && x[0] != 't'
    ensures ParseTime(Gateway(), x).None?
  {
    hide Gateway, Eat, Sound, EatRun, Trim, TrimQuotes, T.ReadDate, T.Clock;
    TrimOfTight(x);
    GatewaySound();
    NotTime(Gateway(), x);
    QuotesShorten(x);
  }

  lemma TimesAreRead(sc: Scene)
    ensures ReadsTimes(sc.Targets())
  {
    hide ParseTime, Gateway;
    ShortIsNoTime(STOP);
    ShortIsNoTime(START);
  }

  lemma WithoutRest(s: string)
    ensures s + "" == s && "" + s + "" == s
  {
  }

  /** A text that only one pattern matches is a call in one way. */
  lemma OneForm(form: Form, start: string, stop: string)
    requires IsCall(form, RangeText(start, stop), start, stop)
    requires forall f: Form :: f != form ==> MatchCall(Gateway(), f, RangeText(start, stop)).None?
    ensures OnlyCall(start, stop)
  {
    hide MatchCall, Gateway, Trim, RangeText;
  }

  /** The range text that ends in now() is a call of that form only. */
  lemma NowOnly(start: string)
    requires ',' !in start && Tight(start)
    ensures OnlyCall(start, STOP)
  {
    hide MatchCall, MatchStop, Gateway, Trim, RangeText, IsCall, OnlyCall;
    EmittedNow(start, "");
    FromEmitted(NowStop, start, STOP);
    WithoutRest(RangeText(start, STOP));
    var y := STOP + ")" + "";
    OtherStop(y);
    NotAbsolute(y);
    EmittedCall(VarStop, start, STOP, "");
    EmittedCall(AbsStop, start, STOP, "");
    OneForm(NowStop, start, STOP);
  }

  lemma NotAbsolute(y: string)
    requires y != "" && !In(Space, y[0]) && y[0] != 't' && !In(Digits, y[0]) && !In(Quote, y[0])
    ensures MatchStop(Gateway(), AbsStop, ", stop: " + y).None?
  {
    hide Eat, Gateway, Spells;
    GatewaySound();
    HeadSpelled();
    AfterHead(Gateway(), ", stop: ", y);
    NotTime(Gateway(), y);
    if Eat(Gateway().bare, y).Some? {
      var m := EatSound(Gateway().bare, y, Eat(Gateway().bare, y).value);
    }
  }

  /** The range text that ends in an emitted time is an absolute call only. */
  lemma AbsOnly(start: string, k: T.Instant)
    requires ',' !in start && Tight(start)
    ensures OnlyCall(start, CutoffExpr(k))
  {
    hide MatchCall, MatchStop, Gateway, Trim, CutoffExpr, AbsText, RangeText, IsCall, OnlyCall;
    CutoffIsAbs(k);
    CutoffExprTight(k);
    EmittedAbs(start, CutoffExpr(k), "");
    FromEmitted(AbsStop, start, CutoffExpr(k));
    WithoutRest(RangeText(start, CutoffExpr(k)));
    OneForm(AbsStop, start, CutoffExpr(k));
  }

  lemma CutoffIsNoWord(k: T.Instant)
    ensures CutoffExpr(k) != START && CutoffExpr(k) != STOP
  {
    hide T.Format;
    assert CutoffExpr(k)[0] == 't';
  }

  lemma BoundOfCutoff(k: T.Instant, e: T.Instant)
    requires T.Representable(k)
    ensures Bound(CutoffExpr(k), e) == Some(k)
  {
    hide CutoffExpr, ParseTime, Gateway, T.Representable;
    CutoffIsNoWord(k);
    ParseOfCutoff(k);
  }

  /** Different ranges, different texts. */
  lemma TextsDiffer(a: string, b: string, c: string, d: string)
    requires ',' !in a && ',' !in c && (a != c || b != d)
    ensures RangeText(a, b) != RangeText(c, d)
  {
    hide RangeText;
    if RangeText(a, b) == RangeText(c, d) {
      RangeTextInjective(a, b, c, d);
    }
  }

  // ---------- answers ----------

  lemma TableRows(read: TimeReader, rows: seq<string>)
    requires AllData(rows) && forall i :: 0 <= i < |rows| ==> TightLine(rows[i])
    ensures Parse(read, Table(rows)) == Parsed([], "h", RowsOf(read, "h", rows))
    ensures Clean(Parse(read, Table(rows))) && Raws(Parse(read, Table(rows)).rows) == rows
  {
    hide Parse, Render;
    HeaderAndRows("h", rows);
    TableIsTight([], "h", rows);
    ParseOfRender(read, [], "h", rows);
    RawsOfRows(read, "h", rows);
  }

  lemma SetOfRows(rows: seq<Row>)
    ensures RawSet(rows) == set l | l in Raws(rows)
  {
    assert |Raws(rows)| == |rows| && forall i :: 0 <= i < |rows| ==> Raws(rows)[i] == rows[i].raw;
    forall x | x in RawSet(rows) ensures x in Raws(rows) {
      var i :| 0 <= i < |rows| && rows[i].raw == x;
      assert Raws(rows)[i] == x;
    }
  }

  lemma TableSet(read: TimeReader, rows: seq<string>)
    requires AllData(rows) && forall i :: 0 <= i < |rows| ==> TightLine(rows[i])
    ensures Clean(Parse(read, Table(rows))) && RowSet(read, Table(rows)) == set l | l in rows
  {
    hide Parse, Table, Clean, RawSet;
    TableRows(read, rows);
    SetOfRows(Parse(read, Table(rows)).rows);
  }

  lemma Payloads(read: TimeReader)
    ensures Clean(Parse(read, Table(["x", "a"]))) && RowSet(read, Table(["x", "a"])) == OLD.Lines()
    ensures Clean(Parse(read, Table(["b"]))) && RowSet(read, Table(["b"])) == TAIL.Lines()
    ensures Clean(Parse(read, Table(["a", "b"]))) && RowSet(read, Table(["a", "b"])) == ASKED.Lines()
    ensures RowSet(read, Table(["x", "a", "b"])) == ALL.Lines()
  {
    hide Parse, Table, Clean, RowSet, Mask.Lines;
    MaskTable(read, ["x", "a"], OLD);
    MaskTable(read, ["b"], TAIL);
    MaskTable(read, ["a", "b"], ASKED);
    MaskTable(read, ["x", "a", "b"], ALL);
  }

  /** The table of some of the three lines. */
  lemma MaskTable(read: TimeReader, rows: seq<string>, m: Mask)
    requires forall i :: 0 <= i < |rows| ==> rows[i] == "x" || rows[i] == "a" || rows[i] == "b"
    requires m == Mask("x" in rows, "a" in rows, "b" in rows)
    ensures Clean(Parse(read, Table(rows))) && RowSet(read, Table(rows)) == m.Lines()
  {
    hide Parse, Table, Clean, RowSet, IsSpace;
    OneLetter();
    TableSet(read, rows);
    assert (set l | l in rows) == m.Lines();
  }

  lemma OneLetter()
    ensures forall c :: c == 'x' || c == 'a' || c == 'b' ==> !IsSpace(c)
  {
  }

  lemma LinesOfScene(sc: Scene, start: string, stop: string, e: T.Instant, m: Mask)
    requires Sees(sc, start, stop, e, m)
    ensures Lines(sc.Points(), Data(), Bound(start, e).value, Bound(stop, e).value) == m.Lines()
  {
    hide Bound;
    var a, b := Bound(start, e).value, Bound(stop, e).value;
    var ps, l := sc.Points(), Lines(sc.Points(), Data(), a, b);
    assert Point(sc.early, "x") in ps && Point(sc.k - 1, "a") in ps && Point(sc.k, "b") in ps;
    assert forall p :: Data()(p) == Some(p.data);
    assert ("x" in l <==> a <= sc.early < b) && ("a" in l <==> a <= sc.k - 1 < b) && ("b" in l <==> a <= sc.k < b);
    assert l <= {"x", "a", "b"};
  }

  /** Each answer is the table of its range. */
  lemma AnswersAreTables(sc: Scene, start: string, stop: string, e: T.Instant, m: Mask, payload: string, read: TimeReader)
    requires Sees(sc, start, stop, e, m) && Clean(Parse(read, payload)) && RowSet(read, payload) == m.Lines()
    ensures TableFor(sc.Targets(), RowByRow(Data()), read, start, stop, e, payload)
  {
    hide Bound, Parse, Clean, RowSet, Lines, Mask.Lines;
    LinesOfScene(sc, start, stop, e, m);
  }

  lemma FrameText(org: string, call: string, a: Ask)
    requires AskFor(Frame(org, CSV, Same(), "", ""), call) == Some(a)
    ensures a == Ask(org, call, CSV)
  {
    WithoutRest(call);
    assert Same()(call) == Some(call);
  }

  /** The targets run the pipeline that prints every point. */
  lemma PipelineRuns(sc: Scene, org: string, read: TimeReader)
    requires Fits(sc)
    ensures Runs(sc.Targets(), Frame(org, CSV, Same(), "", ""), RowByRow(Data()), read)
  {
    hide IsCall, RangeText, CutoffExpr, Table, TableFor, Gateway, T.Representable, Sees, Same, Recognise, SplitNowQuery, AskFor, RowByRow, Data;
    var u, f := sc.Targets(), Frame(org, CSV, Same(), "", "");
    forall form, call, start, stop, e, payload | IsCall(form, call, start, stop) && Gives(u, f, call, e, payload)
      ensures TableFor(u, RowByRow(Data()), read, start, stop, e, payload)
    {
      FrameText(org, call, AskFor(f, call).value);
      CallAnswered(sc, form, call, start, stop, e, payload, read);
    }
  }

  lemma CallAnswered(sc: Scene, form: Form, call: string, start: string, stop: string, e: T.Instant, payload: string, read: TimeReader)
    requires Fits(sc) && IsCall(form, call, start, stop) && sc.Answers(call) == Some((e, payload))
    ensures TableFor(sc.Targets(), RowByRow(Data()), read, start, stop, e, payload)
  {
    hide IsCall, RangeText, CutoffExpr, Table, TableFor, Gateway, T.Representable, Sees, Recognise, SplitNowQuery, RowByRow, Data, Scene.Targets, Clean, RowSet, Parse, Mask.Lines;
    Payloads(read);
    if call == sc.Cached() {
      AnswersAreTables(sc, sc.cachedStart, CutoffExpr(sc.k), sc.k + 1, OLD, payload, read);
    } else if call == sc.Live() {
      AnswersAreTables(sc, CutoffExpr(sc.k), sc.stop, sc.k + 2, TAIL, payload, read);
    } else {
      AnswersAreTables(sc, sc.start, sc.stop, sc.k + 2, ASKED, payload, read);
    }
  }

  // ---------- the merged body ----------

  lemma NoTimeColumn()
    ensures TimeColumn(SplitOn("h", ',')) == -1
  {
    hide SplitOn, NamesTime;
    SplitOfPiece("h", ',');
    NotNamedTime();
  }

  lemma NotNamedTime()
    ensures !NamesTime("h")
  {
    hide Trim;
    TrimOfTight("h");
    assert |"h"| != |"_time"|;
  }

  lemma MergedBody(read: TimeReader)
    ensures IsMerge(read, Table(["x", "a"]), Table(["b"]), Table(["x", "a", "b"]))
  {
    hide Parse, Render, TimeColumn, SplitOn, MergedRows;
    TableRows(read, ["x", "a"]);
    TableRows(read, ["b"]);
    NoTimeColumn();
    var c, l := Parse(read, Table(["x", "a"])), Parse(read, Table(["b"]));
    var rows := [Row(T.UNIX_EPOCH, "x"), Row(T.UNIX_EPOCH, "a"), Row(T.UNIX_EPOCH, "b")];
    assert c.rows + l.rows == rows;
    InOrder(rows);
    MergeBy(read, Table(["x", "a"]), Table(["b"]), rows);
    assert Raws(rows) == ["x", "a", "b"];
  }

  lemma InOrder(rows: seq<Row>)
    requires NoRepeats(rows) && SortedByTime(rows)
    ensures MergedRows(rows, rows)
  {
    hide FirstOf, NoRepeats, SortedByTime;
    forall i | 0 <= i < |rows| ensures FirstOf(rows, rows[i]) {
      FirstInFront(rows, [], i);
      assert rows + [] == rows;
    }
  }

  // ---------- the cache and the live forward ----------

  /** Request 2 has been served from the entry that request 0 stored an instant before. */
  function ServedState(c: Config, sc: Scene, org: string): State {
    var s := OneFilled(c, sc.k + 1, org, sc.Cached(), CSV, Table(["x", "a"]));
    s.(now := sc.k + 2, reqs := s.reqs[2 := Request(org, sc.Cached(), CSV, Done(Served(Hit, 200, Table(["x", "a"]))))])
  }

  lemma ReachServed(c: Config, sc: Scene, org: string) returns (steps: seq<Step>)
    requires Digests(c.hash) && c.lockTtl >= 0 && JitteredTtl(c, 0) != 1
    ensures Run(c, sc.k + 1, steps) && After(c, sc.k + 1, steps) == ServedState(c, sc, org)
  {
    hide Run, After, Key, LockKey, JitteredTtl, Digests, Begins, Table, RangeText, CutoffExpr;
    var t0, body, p := sc.k + 1, sc.Cached(), Table(["x", "a"]);
    steps := ReachOneFilled(c, t0, org, body, CSV, p);
    var s := OneFilled(c, t0, org, body, CSV, p);
    var x, y, z := Tick(1), Begin(2, org, body, CSV), Get(2, true);
    ReachNext(c, t0, steps, s, x);
    var s1 := Next(c, s, x);
    ReachNext(c, t0, steps + [x], s1, y);
    var s2 := Next(c, s1, y);
    ReachNext(c, t0, steps + [x] + [y], s2, z);
    steps := steps + [x] + [y] + [z];
    assert Next(c, s2, z) == ServedState(c, sc, org);
  }

  lemma StateIsFine(c: Config, sc: Scene, org: string)
    ensures var s := ServedState(c, sc, org);
      && Truthful(sc.Targets(), s.log) && OneFormat(s, s.reqs[2]) && NoCollisions(c, s)
  {
    hide Key, Table, RangeText, CutoffExpr, Bound, JitteredTtl, Scene.Cached;
    assert sc.Answers(sc.Cached()) == Some((sc.k + 1, Table(["x", "a"])));
    TargetsAnswer(sc, Ask(org, sc.Cached(), CSV), sc.k + 1, Table(["x", "a"]));
  }

  lemma TargetsAnswer(sc: Scene, a: Ask, e: T.Instant, p: string)
    ensures sc.Targets().ok(a, e, p) <==> sc.Answers(a.body) == Some((e, p))
  {
    hide Scene.Answers, Bound;
  }

  lemma TailIsTruthful(sc: Scene)
    ensures TruthfulTail(sc.Targets(), sc.Ahead().env, sc.k + 2)
  {
    hide Scene.Answers, Scene.Targets;
    forall i: nat, name, ask: Ask
      ensures var r := sc.Ahead().env(i).reply(name, ask);
              r.Answer? && Is2xx(r.status) ==> sc.Targets().ok(ask, sc.k + 2, r.payload)
    {
      if sc.Answers(ask.body).Some? {
        TargetsAnswer(sc, ask, sc.k + 2, sc.Answers(ask.body).value.1);
      }
    }
  }

  /** The only target answers at once. */
  lemma OneAttempt(sc: Scene, ask: Ask, p: string)
    requires sc.Answers(ask.body) == Some((sc.k + 2, p))
    ensures sc.Ahead().Outcome(ask) == R.Answered("t", 200, p) && sc.Ahead().Instant(ask) == sc.k + 2
  {
    hide U.Pick, Scene.Answers, R.Attempts;
    var tail := sc.Ahead();
    var m := tail.env(0);
    var f1 := R.ApplyAll(tail.cfg, tail.fleet, m.before);
    U.PickSpec(tail.cfg, f1, {}, m.now);
    assert "t" in U.Untried(tail.cfg, {}) by {
      assert tail.cfg.targets[0].name == "t";
    }
    var (t, f2) := U.Pick(tail.cfg, f1, {}, m.now).value;
    var a := R.AttemptOf(f1, {}, m, ask, t);
    R.OneMore(tail.cfg, tail.fleet, tail.env, ask, 0, 1, {}, f1, f2, a);
  }

  lemma LiveAnswered(sc: Scene, org: string)
    requires Fits(sc)
    ensures LiveAsk(sc.Asked(org), sc.k) == Ask(org, sc.Live(), CSV)
    ensures sc.Ahead().Outcome(Ask(org, sc.Live(), CSV)) == R.Answered("t", 200, Table(["b"]))
    ensures sc.Ahead().Instant(Ask(org, sc.Live(), CSV)) == sc.k + 2
  {
    hide *;
    FitsParts(sc);
    BodiesSo(sc, org);
    AnswersInOrder(sc);
    OneAttempt(sc, Ask(org, sc.Live(), CSV), Table(["b"]));
  }

  lemma FitsParts(sc: Scene)
    requires Fits(sc)
    ensures T.Representable(sc.k) && CallsFit(sc) && RangesFit(sc) && TextsFit(sc) && SplitFits(sc)
  {
    hide T.Representable, CallsFit, RangesFit, TextsFit, SplitFits;
  }

  lemma AnswersInOrder(sc: Scene)
    requires TextsFit(sc)
    ensures sc.Answers(sc.Cached()) == Some((sc.k + 1, Table(["x", "a"])))
    ensures sc.Answers(sc.Live()) == Some((sc.k + 2, Table(["b"])))
    ensures sc.Answers(sc.Original()) == Some((sc.k + 2, Table(["a", "b"])))
  {
    hide Table, Scene.Original, Scene.Cached, Scene.Live;
  }

  lemma BodiesSo(sc: Scene, org: string)
    requires SplitFits(sc)
    ensures Bodies(sc.Asked(org), sc.k) == Some((Some(sc.Cached()), Some(sc.Live())))
    ensures LiveAsk(sc.Asked(org), sc.k) == Ask(org, sc.Live(), CSV)
  {
    hide Gateway, SplitNowQuery, Contains, Lower, Scene.Cached, Scene.Live, Scene.Original, Recognise;
    assert Same()(sc.Live()) == Some(sc.Live()) && Same()(sc.Cached()) == Some(sc.Cached());
  }

  // ---------- the assumptions ----------

  lemma HandledSo(c: Config, sc: Scene, org: string, read: TimeReader)
    requires Fits(sc) && org != ""
    ensures Handled(sc.Asked(org), sc.k, read, ServedState(c, sc, org), 2, sc.Ahead(), Joined(Hit, Table(["x", "a", "b"])))
  {
    hide *;
    FitsParts(sc);
    BodiesSo(sc, org);
    var res := Served(Hit, 200, Table(["x", "a"]));
    FetchedSo(c, sc, org);
    JoinedSo(sc, org, read);
    HandledByJoining(sc.Asked(org), sc.k, read, ServedState(c, sc, org), 2, sc.Ahead(), Joined(Hit, Table(["x", "a", "b"])), sc.Cached(), sc.Live(), res);
  }

  lemma FetchedSo(c: Config, sc: Scene, org: string)
    ensures Fetched(ServedState(c, sc, org), 2, sc.Asked(org), sc.Cached(), Served(Hit, 200, Table(["x", "a"])))
    ensures sc.Asked(org).org == org && sc.Asked(org).headers == CSV
  {
    hide Key, JitteredTtl, Table, Scene.Cached, Scene.Original;
  }

  lemma JoinedSo(sc: Scene, org: string, read: TimeReader)
    requires Fits(sc)
    ensures JoinedBy(read, Served(Hit, 200, Table(["x", "a"])), sc.Ahead(), Ask(org, sc.Live(), CSV), Joined(Hit, Table(["x", "a", "b"])))
  {
    hide Table, Scene.Ahead, Scene.Live, R.Route.Outcome, R.Route.Instant, IsMerge, LiveAsk, Fits;
    LiveAnswered(sc, org);
    MergedBody(read);
  }

  /** A response that joins the segments is a way to handle the request. */
  lemma HandledByJoining(q: Incoming, cutoff: T.Instant, read: TimeReader, s: State, id: Id, tail: R.Route, resp: Response,
                         cached: string, live: string, res: Result)
    requires q.org != "" && Bodies(q, cutoff) == Some((Some(cached), Some(live)))
    requires Fetched(s, id, q, cached, res) && JoinedBy(read, res, tail, Ask(q.org, live, q.headers), resp)
    ensures Handled(q, cutoff, read, s, id, tail, resp)
  {
    hide Bodies, Fetched, JoinedBy;
  }

  lemma BenignSo(c: Config, sc: Scene, org: string, read: TimeReader)
    requires Fits(sc)
    ensures Benign(sc.Targets(), QueryOf(sc.Asked(org), sc.k), Data(), read, ServedState(c, sc, org), 2, sc.Ahead())
  {
    hide Gateway, SplitNowQuery, RangeText, CutoffExpr, Table, OnlyCall, Sees, T.Representable, Runs, ReadsTimes, Truthful, TruthfulTail,
         OneFormat, Scene.Targets, Recognise, Key, JitteredTtl, NoCollisions, Same, Data, RowByRow;
    TimesAreRead(sc);
    PipelineRuns(sc, org, read);
    StateIsFine(c, sc, org);
    TailIsTruthful(sc);
  }

  lemma DirectSo(sc: Scene, org: string)
    requires Fits(sc)
    ensures sc.Asked(org).build(sc.Original()) == Some(sc.Original())
    ensures sc.Targets().ok(Ask(org, sc.Original(), CSV), sc.k + 2, Table(["a", "b"]))
  {
    hide Table, Scene.Original, Scene.Targets, Scene.Answers, CallsFit, RangesFit, TextsFit, SplitFits, T.Representable;
    assert Same()(sc.Original()) == Some(sc.Original());
    AnswersInOrder(sc);
    TargetsAnswer(sc, Ask(org, sc.Original(), CSV), sc.k + 2, Table(["a", "b"]));
  }

  lemma CutoffIs(k: T.Instant, window: int)
    requires window > 2 && k % window == 0
    ensures SplitCutoff(k + 2, window) == k
  {
    Modular.SameMultiple(k, SplitCutoff(k + 2, window), window);
  }

  // ---------- the last hour ----------

  function LastHour(k: T.Instant): Scene { Scene(START, STOP, START, k, k + 1 - HOUR) }

  lemma LastHourRecognised()
    ensures Recognise(Gateway(), RangeText(START, STOP)) == Some((NowStop, "", Call(" " + START, STOP, "")))
  {
    hide MatchCall, Gateway, RangeText;
    EmittedNow(START, "");
    WithoutRest(RangeText(START, STOP));
  }

  /** The documented rewrite: range(start: -1h, stop: now()) is cut at the cutoff. */
  lemma SplitOfLastHour(k: T.Instant)
    ensures SplitNowQuery(Gateway(), RangeText(START, STOP), k) ==
            Some((RangeText(START, CutoffExpr(k)), RangeText(CutoffExpr(k), STOP)))
  {
    hide Gateway, Recognise, CutoffExpr, SplitNowQuery, Sound, Trim, RangeText, ParseTime, Matched, Tight, CachedStart;
    LastHourRecognised();
    GatewaySound();
    StartIsTight();
    TrimOfBlank(START);
    SplitByStart(Gateway(), RangeText(START, STOP), k);
    WithoutRest(RangeText(START, CutoffExpr(k)));
    WithoutRest(RangeText(CutoffExpr(k), STOP));
  }

  /**
    The last hour up to an absolute stop, as range(start: -1h, stop: 2024-06-01T12:00:00Z): it is
    split exactly when the stop lies after the cutoff, and the cached query keeps its start.
  */
  lemma SplitToBareStop(ds: string, f: string, k: T.Instant, t: T.Instant)
    requires |ds| == 14 && AllDigits(ds) && IsFraction(f) && (f != "" ==> f[0] == '.')
    requires T.Parse(StampText(ds, f, "Z")) == Some(t)
    ensures var x := StampText(ds, f, "Z");
            SplitNowQuery(Gateway(), "range(start: -1h, stop: " + x + ")", k) ==
            if k < t then Some(("range(start: -1h, stop: " + CutoffExpr(k) + ")", "range(start: " + CutoffExpr(k) + ", stop: " + x + ")")) else None
  {
    hide Gateway, RangeText, CutoffExpr, SplitNowQuery, AbsText, StampText, T.Parse, IsFraction, Tight, ParseTime;
    var x := StampText(ds, f, "Z");
    BareIsStop(ds, f);
    HourUpTo(x, t, k);
    HourTexts(x, CutoffExpr(k));
  }

  lemma HourTexts(x: string, k: string)
    ensures RangeText(START, x) == "range(start: -1h, stop: " + x + ")"
    ensures RangeText(START, k) == "range(start: -1h, stop: " + k + ")"
    ensures RangeText(k, x) == "range(start: " + k + ", stop: " + x + ")"
  {
    assert "range(start: " + START + ", stop: " == "range(start: -1h, stop: ";
  }

  lemma HourUpTo(x: string, t: T.Instant, k: T.Instant)
    requires AbsText(Gateway(), x + ")") && x != "" && Tight(x) && 'r' !in x && ParseTime(Gateway(), x) == Some(t)
    ensures SplitNowQuery(Gateway(), RangeText(START, x), k) ==
            if k < t then Some((RangeText(START, CutoffExpr(k)), RangeText(CutoffExpr(k), x))) else None
  {
    hide Gateway, Recognise, RangeText, CutoffExpr, SplitNowQuery, Sound, Trim, ParseTime, Matched, Tight, AbsText;
    StartIsTight();
    AbsRecognised(START, x);
    TrimOfBlank(START);
    ShortIsNoTime(START);
    GatewaySound();
    SplitByStart(Gateway(), RangeText(START, x), k);
    WithoutRest(RangeText(START, CutoffExpr(k)));
    WithoutRest(RangeText(CutoffExpr(k), x));
  }

  lemma BareIsStop(ds: string, f: string)
    requires |ds| == 14 && AllDigits(ds) && IsFraction(f) && (f != "" ==> f[0] == '.')
    ensures var x := StampText(ds, f, "Z");
      && AbsText(Gateway(), x + ")") && x != "" && Tight(x) && 'r' !in x && ParseTime(Gateway(), x) == T.Parse(x)
  {
    hide AbsText, Gateway, ParseTime, T.Parse, StampText, StopWritten, IsClock;
    var x := StampText(ds, f, "Z");
    BareStamp(ds, f, "", "");
    WithoutRest(x);
    StopEnds(x);
    AbsSpell(x, "");
    assert "" + ")" == ")";
    StampShape(ds, f);
    assert !IsClock('r') by {
      NoClockLetter();
    }
    forall i | 0 <= i < |x| ensures x[i] != 'r' {
      assert i < 11 || i == |x| - 1 || IsClock(x[i]);
    }
  }

  lemma NoClockLetter()
    ensures !IsClock('r')
  {
  }

  lemma SeesRange(sc: Scene, start: string, stop: string, e: T.Instant, a: T.Instant, b: T.Instant, m: Mask)
    requires Bound(start, e) == Some(a) && Bound(stop, e) == Some(b)
    requires m == Mask(a <= sc.early < b, a <= sc.k - 1 < b, a <= sc.k < b)
    ensures Sees(sc, start, stop, e, m)
  {
    hide Bound;
  }

  lemma LastHourSees(k: T.Instant)
    requires T.Representable(k)
    ensures RangesFit(LastHour(k))
  {
    hide CutoffExpr, T.Representable, Sees, Bound;
    BoundOfCutoff(k, k + 1);
    BoundOfCutoff(k, k + 2);
    BoundOfWords(k + 1);
    BoundOfWords(k + 2);
    var sc := LastHour(k);
    SeesRange(sc, sc.cachedStart, CutoffExpr(sc.k), sc.k + 1, k + 1 - HOUR, k, OLD);
    SeesRange(sc, CutoffExpr(sc.k), sc.stop, sc.k + 2, k, k + 2, TAIL);
    SeesRange(sc, sc.start, sc.stop, sc.k + 2, k + 2 - HOUR, k + 2, ASKED);
  }

  lemma BoundOfWords(e: T.Instant)
    ensures Bound(START, e) == Some(e - HOUR) && Bound(STOP, e) == Some(e)
  {
    hide ParseTime, Gateway;
  }

  lemma LastHourCalls(k: T.Instant)
    ensures CallsFit(LastHour(k))
  {
    hide CutoffExpr, OnlyCall, Tight;
    CutoffExprTight(k);
    assert Tight(START) by {
      StartIsTight();
    }
    AbsOnly(START, k);
    NowOnly(START);
    NowOnly(CutoffExpr(k));
  }

  lemma StartIsTight()
    ensures Tight(START)
  {
  }

  lemma LastHourTexts(k: T.Instant)
    ensures TextsFit(LastHour(k))
  {
    hide CutoffExpr, RangeText, Tight;
    CutoffExprTight(k);
    CutoffIsNoWord(k);
    TextsDiffer(START, STOP, START, CutoffExpr(k));
    TextsDiffer(START, STOP, CutoffExpr(k), STOP);
    TextsDiffer(CutoffExpr(k), STOP, START, CutoffExpr(k));
  }

  lemma LastHourSplits(k: T.Instant)
    ensures SplitFits(LastHour(k))
  {
    hide Gateway, CutoffExpr, RangeText, SplitNowQuery, Recognise;
    SplitOfLastHour(k);
    LastHourRecognised();
  }

  lemma LastHourFits(k: T.Instant)
    requires T.Representable(k)
    ensures Fits(LastHour(k))
  {
    hide T.Representable, CallsFit, RangesFit, TextsFit, SplitFits;
    LastHourSees(k);
    LastHourCalls(k);
    LastHourTexts(k);
    LastHourSplits(k);
  }

  /** The instant the live segment is evaluated at. */
  function LiveInstant(sc: Scene, org: string, window: int): T.Instant {
    sc.Ahead().Instant(LiveAsk(sc.Asked(org), SplitCutoff(sc.k + 2, window)))
  }

  /** What both theorems assume, in every scene that fits. */
  lemma AssumptionsMet(c: Config, sc: Scene, org: string, window: int, read: TimeReader) returns (steps: seq<Step>)
    requires Digests(c.hash) && c.lockTtl >= 0 && JitteredTtl(c, 0) != 1 && Fits(sc)
    requires org != "" && window > 2 && sc.k % window == 0
    ensures Run(c, sc.k + 1, steps) && After(c, sc.k + 1, steps) == ServedState(c, sc, org)
    ensures NoCollisions(c, After(c, sc.k + 1, steps)) && sc.k + 2 <= After(c, sc.k + 1, steps).now
    ensures T.Representable(SplitCutoff(sc.k + 2, window))
    ensures Handled(sc.Asked(org), SplitCutoff(sc.k + 2, window), read, After(c, sc.k + 1, steps), 2, sc.Ahead(), Joined(Hit, Table(["x", "a", "b"])))
    ensures Recognise(Gateway(), sc.Asked(org).query).Some?
    ensures Benign(sc.Targets(), QueryOf(sc.Asked(org), SplitCutoff(sc.k + 2, window)), Data(), read, After(c, sc.k + 1, steps), 2, sc.Ahead())
    ensures sc.Asked(org).build(sc.Asked(org).query).Some?
    ensures sc.Targets().ok(Ask(sc.Asked(org).org, sc.Asked(org).build(sc.Asked(org).query).value, sc.Asked(org).headers), LiveInstant(sc, org, window), Table(["a", "b"]))
    ensures SplitCutoff(sc.k + 2, window) == sc.k && LiveInstant(sc, org, window) == sc.k + 2
    ensures LiveInstant(sc, org, window) == sc.Ahead().Instant(LiveAsk(sc.Asked(org), SplitCutoff(sc.k + 2, window)))
  {
    hide *;
    steps := ReachServed(c, sc, org);
    ServedNow(c, sc, org);
    CutoffIs(sc.k, window);
    WorldMet(c, sc, org, read);
    InstantIs(sc, org, window);
  }

  lemma InstantIs(sc: Scene, org: string, window: int)
    requires Fits(sc) && SplitCutoff(sc.k + 2, window) == sc.k
    ensures LiveInstant(sc, org, window) == sc.k + 2
    ensures LiveInstant(sc, org, window) == sc.Ahead().Instant(LiveAsk(sc.Asked(org), SplitCutoff(sc.k + 2, window)))
  {
    hide R.Route.Instant, R.Route.Outcome, LiveAsk, Scene.Ahead, Scene.Live, Scene.Asked, SplitCutoff, Fits;
    LiveAnswered(sc, org);
  }

  lemma WorldMet(c: Config, sc: Scene, org: string, read: TimeReader)
    requires Fits(sc) && org != ""
    ensures T.Representable(sc.k) && Recognise(Gateway(), sc.Asked(org).query).Some?
    ensures Handled(sc.Asked(org), sc.k, read, ServedState(c, sc, org), 2, sc.Ahead(), Joined(Hit, Table(["x", "a", "b"])))
    ensures Benign(sc.Targets(), QueryOf(sc.Asked(org), sc.k), Data(), read, ServedState(c, sc, org), 2, sc.Ahead())
    ensures sc.Asked(org).build(sc.Asked(org).query).Some?
    ensures sc.Targets().ok(Ask(sc.Asked(org).org, sc.Asked(org).build(sc.Asked(org).query).value, sc.Asked(org).headers), sc.k + 2, Table(["a", "b"]))
  {
    hide Handled, Benign, Table, Gateway, Recognise, T.Representable, Data, ServedState, Scene.Answers, Scene.Ahead, CallsFit, RangesFit, TextsFit,
         SplitNowQuery, Scene.Targets, Scene.Original, Scene.Live, Scene.Cached, QueryOf;
    HandledSo(c, sc, org, read);
    BenignSo(c, sc, org, read);
    DirectSo(sc, org);
  }

  lemma ServedNow(c: Config, sc: Scene, org: string)
    ensures ServedState(c, sc, org).now == sc.k + 2 && NoCollisions(c, ServedState(c, sc, org))
  {
    hide Key, Table, JitteredTtl, RangeText, CutoffExpr;
    StateIsFine(c, sc, org);
  }

  lemma TargetsOf(sc: Scene)
    ensures forall x :: sc.Targets().bound(START, x) == Some(x - HOUR)
    ensures forall e :: sc.Targets().db(e) == sc.Points()
    ensures forall k, e0, e :: Settled(sc.Targets(), k, e0, e)
  {
    hide ParseTime, Gateway, Scene.Answers, Scene.Points;
  }

  /** The query asked in the first scene, as the rewrite sees it. */
  lemma LastHourQuery(sc: Scene, org: string, cutoff: T.Instant)
    requires sc == LastHour(sc.k)
    ensures var q := sc.Asked(org);
      && Recognise(Gateway(), q.query).Some? && Recognise(Gateway(), q.query).value.0.NowStop?
      && Trim(QueryOf(q, cutoff).call.start) == START
  {
    hide Gateway, Recognise, Trim, RangeText;
    LastHourRecognised();
    TrimOfBlank(START);
  }

  /** The only forward of the run was evaluated at k + 1. */
  lemma TheForward(c: Config, sc: Scene, org: string, f: Forward)
    requires ServedOk(ServedState(c, sc, org), 2) && SourceOf(ServedState(c, sc, org), 2, f)
    ensures f in ServedState(c, sc, org).log && f.at == sc.k + 1
  {
    hide Key, JitteredTtl, Table, Scene.Cached;
  }

  /**
    The relative theorem applied: request 2 is served from the entry that request 0 stored, so
    its cached segment comes from a forward evaluated one instant before the live one. Its
    response holds the rows since an hour before that forward, one of which, x, is in excess.
  */
  lemma RelativeApplies(c: Config, sc: Scene, org: string, window: int, read: TimeReader) returns (steps: seq<Step>, f: Forward)
    requires Digests(c.hash) && c.lockTtl >= 0 && JitteredTtl(c, 0) != 1
    requires org != "" && window > 2 && sc.k % window == 0 && T.Representable(sc.k) && sc == LastHour(sc.k)
    ensures Run(c, sc.k + 1, steps) && f in After(c, sc.k + 1, steps).log && f.at == sc.k + 1
    ensures Handled(sc.Asked(org), SplitCutoff(sc.k + 2, window), read, After(c, sc.k + 1, steps), 2, sc.Ahead(), Joined(Hit, Table(["x", "a", "b"])))
    ensures RelativeRows(sc.Targets(), Data(), read, sc.k, f.at, sc.k + 2, HOUR, Table(["x", "a", "b"]), Table(["a", "b"]))
    ensures RowSet(read, Table(["x", "a", "b"])) == ALL.Lines() && RowSet(read, Table(["a", "b"])) == ASKED.Lines()
  {
    hide *;
    LastHourFits(sc.k);
    LastHourQuery(sc, org, SplitCutoff(sc.k + 2, window));
    Payloads(read);
    TargetsOf(sc);
    steps := AssumptionsMet(c, sc, org, window, read);
    var e;
    f, e := GatewayAnswersRelative(sc.Targets(), Data(), read, c, sc.k + 1, steps, 2, sc.Asked(org), window, sc.k + 2, sc.Ahead(),
                                   Joined(Hit, Table(["x", "a", "b"])), Table(["a", "b"]), HOUR);
    TheForward(c, sc, org, f);
  }

  // ---------- an absolute hour ----------

  /** The hour up to k + 1. */
  function AbsoluteHour(k: T.Instant): Scene {
    Scene(CutoffExpr(k + 1 - HOUR), CutoffExpr(k + 1), CutoffExpr(k - HOUR), k, k - HOUR)
  }

  ghost predicate InRange(k: T.Instant) {
    T.Representable(k) && T.Representable(k + 1) && T.Representable(k - HOUR) && T.Representable(k + 1 - HOUR)
  }

  lemma AbsoluteHourIsRange(k: T.Instant)
    requires InRange(k)
    ensures AbsoluteRange(AbsoluteHour(k).Original(), "", "", k + 1 - HOUR, k + 1)
  {
    hide MatchCall, Gateway, RangeText, CutoffExpr, AbsText, T.Representable, ParseTime, Find, Trim;
    var start, stop := CutoffExpr(k + 1 - HOUR), CutoffExpr(k + 1);
    CutoffExprTight(k + 1 - HOUR);
    CutoffExprTight(k + 1);
    CutoffIsAbs(k + 1);
    EmittedAbs(start, stop, "");
    WithoutRest(RangeText(start, stop));
    AbsRecognised(start, stop);
    TrimOfBlank(start);
    ParseOfCutoff(k + 1 - HOUR);
    ParseOfCutoff(k + 1);
  }

  lemma AbsRecognised(start: string, stop: string)
    requires ',' !in start && AbsText(Gateway(), stop + ")") && stop != "" && Tight(stop) && 'r' !in start && 'r' !in stop
    ensures Recognise(Gateway(), RangeText(start, stop)) == Some((AbsStop, "", Call(" " + start, stop, "")))
  {
    hide MatchCall, Gateway, AbsText, Recognise, Find, OnlyOpening, RangeText;
    var q := RangeText(start, stop);
    EmittedAbs(start, stop, "");
    WithoutRest(q);
    OpensOnce(start, stop);
    assert "" + q == q;
    FoundThere(NowStop, "", q);
    FoundThere(VarStop, "", q);
    FoundThere(AbsStop, "", q);
    RecogniseByForms(q);
  }

  lemma OpensOnce(start: string, stop: string)
    requires 'r' !in start && 'r' !in stop
    ensures OnlyOpening(RangeText(start, stop), 0)
  {
    hide RangeText, NoOpening, OpensWith;
    NoLetterNoOpening(start);
    NoLetterNoOpening(stop);
    NoLetterNoOpening("");
    WithoutRest(RangeText(start, stop));
    forall k: nat, m | OpensWith(RangeText(start, stop), k, m) ensures k == 0 {
      RangeTextOnce(start, stop, "", k, m);
    }
  }

  lemma AbsoluteHourSees(k: T.Instant)
    requires InRange(k)
    ensures RangesFit(AbsoluteHour(k))
  {
    hide CutoffExpr, T.Representable, Sees, Bound;
    BoundOfCutoff(k, k + 1);
    BoundOfCutoff(k, k + 2);
    BoundOfCutoff(k + 1, k + 2);
    BoundOfCutoff(k - HOUR, k + 1);
    BoundOfCutoff(k + 1 - HOUR, k + 2);
    var sc := AbsoluteHour(k);
    SeesRange(sc, sc.cachedStart, CutoffExpr(sc.k), sc.k + 1, k - HOUR, k, OLD);
    SeesRange(sc, CutoffExpr(sc.k), sc.stop, sc.k + 2, k, k + 1, TAIL);
    SeesRange(sc, sc.start, sc.stop, sc.k + 2, k + 1 - HOUR, k + 1, ASKED);
  }

  lemma CutoffsDiffer(t: T.Instant, t': T.Instant)
    requires T.Representable(t) && T.Representable(t') && t != t'
    ensures CutoffExpr(t) != CutoffExpr(t')
  {
    hide CutoffExpr, T.Representable;
    if CutoffExpr(t) == CutoffExpr(t') {
      CutoffExprInjective(t, t');
    }
  }

  lemma SplitOfAbsoluteHour(k: T.Instant)
    requires InRange(k)
    ensures SplitFits(AbsoluteHour(k)) && Recognise(Gateway(), AbsoluteHour(k).Original()).Some?
  {
    hide Gateway, CutoffExpr, SplitNowQuery, RangeText, T.Representable, Recognise, ParseTime, AbsText, Sound, Matched, StartFor, Splits, Sub;
    var sc := AbsoluteHour(k);
    AbsoluteHourIsRange(k);
    CachedQueryOfRange(sc.Original(), "", "", k + 1 - HOUR, k + 1, k);
    CutoffExprTight(k + 1 - HOUR);
    CutoffExprTight(k + 1);
    CutoffIsAbs(k + 1);
    AbsRecognised(sc.start, sc.stop);
    GatewaySound();
    SplitByStart(Gateway(), sc.Original(), k);
    WithoutRest(sc.Cached());
    WithoutRest(sc.Live());
    HourFits(k + 1);
  }

  lemma HourFits(t: T.Instant)
    ensures Sub(t, t - HOUR) == HOUR
  {
  }

  lemma AbsoluteTextsDiffer(k: T.Instant)
    requires InRange(k)
    ensures TextsFit(AbsoluteHour(k))
  {
    hide CutoffExpr, RangeText, T.Representable;
    var sc := AbsoluteHour(k);
    CutoffExprTight(k);
    CutoffExprTight(k - HOUR);
    CutoffExprTight(k + 1 - HOUR);
    CutoffsDiffer(k, k + 1);
    CutoffsDiffer(k, k + 1 - HOUR);
    TextsDiffer(sc.start, sc.stop, sc.cachedStart, CutoffExpr(k));
    TextsDiffer(sc.start, sc.stop, CutoffExpr(k), sc.stop);
    TextsDiffer(CutoffExpr(k), sc.stop, sc.cachedStart, CutoffExpr(k));
  }

  lemma AbsoluteCalls(k: T.Instant)
    ensures CallsFit(AbsoluteHour(k))
  {
    hide CutoffExpr, OnlyCall, Tight;
    CutoffExprTight(k);
    CutoffExprTight(k - HOUR);
    CutoffExprTight(k + 1 - HOUR);
    AbsOnly(CutoffExpr(k - HOUR), k);
    AbsOnly(CutoffExpr(k), k + 1);
    AbsOnly(CutoffExpr(k + 1 - HOUR), k + 1);
  }

  lemma AbsoluteHourFits(k: T.Instant)
    requires InRange(k)
    ensures Fits(AbsoluteHour(k))
  {
    hide T.Representable, CallsFit, RangesFit, TextsFit, SplitFits;
    SplitOfAbsoluteHour(k);
    AbsoluteTextsDiffer(k);
    AbsoluteHourSees(k);
    AbsoluteCalls(k);
  }

  /** The absolute theorem applied to the response to request 2: x lies in the overshoot before the start. */
  lemma AbsoluteApplies(c: Config, sc: Scene, org: string, window: int, read: TimeReader) returns (steps: seq<Step>, f: Forward)
    requires Digests(c.hash) && c.lockTtl >= 0 && JitteredTtl(c, 0) != 1
    requires org != "" && window > 2 && sc.k % window == 0 && InRange(sc.k) && sc == AbsoluteHour(sc.k)
    ensures Run(c, sc.k + 1, steps) && f in After(c, sc.k + 1, steps).log && f.at == sc.k + 1
    ensures Handled(sc.Asked(org), SplitCutoff(sc.k + 2, window), read, After(c, sc.k + 1, steps), 2, sc.Ahead(), Joined(Hit, Table(["x", "a", "b"])))
    ensures AbsoluteRows(sc.Targets(), Data(), read, sc.k, sc.k + 1 - HOUR, sc.k + 1, sc.k + 2, Table(["x", "a", "b"]), Table(["a", "b"]))
    ensures RowSet(read, Table(["x", "a", "b"])) == ALL.Lines() && RowSet(read, Table(["a", "b"])) == ASKED.Lines()
  {
    hide *;
    AbsoluteHourFits(sc.k);
    AbsoluteHourQuery(sc, org, SplitCutoff(sc.k + 2, window));
    HourIsShort(sc.k);
    Payloads(read);
    TargetsOf(sc);
    steps := AssumptionsMet(c, sc, org, window, read);
    var e;
    f, e := GatewayAnswersAbsolute(sc.Targets(), Data(), read, c, sc.k + 1, steps, 2, sc.Asked(org), window, sc.k + 2, sc.Ahead(),
                                   Joined(Hit, Table(["x", "a", "b"])), Table(["a", "b"]), sc.k + 1 - HOUR, sc.k + 1);
    TheForward(c, sc, org, f);
  }

  lemma HourIsShort(k: T.Instant)
    requires InRange(k)
    ensures (k + 1) - (k + 1 - HOUR) <= 0x7FFF_FFFF_FFFF_FFFF && T.Representable(k - ((k + 1) - (k + 1 - HOUR)))
  {
    hide T.Representable;
    assert (k + 1) - (k + 1 - HOUR) == HOUR;
  }

  /** The query asked in the second scene, as the rewrite sees it. */
  lemma AbsoluteHourQuery(sc: Scene, org: string, cutoff: T.Instant)
    requires InRange(sc.k) && sc == AbsoluteHour(sc.k)
    ensures Recognise(Gateway(), sc.Asked(org).query).Some?
    ensures var g := QueryOf(sc.Asked(org), cutoff);
            AbsoluteRange(sc.Asked(org).query, g.frame.pre, g.frame.rest, sc.k + 1 - HOUR, sc.k + 1)
  {
    hide Gateway, Recognise, RangeText, T.Representable, CutoffExpr, ParseTime, Trim;
    AbsoluteHourIsRange(sc.k);
  }
}
