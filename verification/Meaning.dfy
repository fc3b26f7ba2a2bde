/**
  What splitting and merging mean. A target holds points in time and answers a query text by
  running a pipeline over the points in the range of its range call. For a row-wise pipeline
  (filter and map) the merged answer of the two segments is the rows of one stretch of time,
  and it is compared with what the unsplit query answers.
*/
module Meaning {
  import opened Text
  import opened RangeCall
  import opened FluxSplit
  import opened SplitLaws
  import opened CsvMerge
  import opened MergeLaws
  import opened Wire
  import T = Rfc3339

  datatype Point = Point(time: T.Instant, data: string)

  /** A pipeline that looks at one point at a time: the line it prints for the point, if any. */
  type Pipeline = Point -> Option<string>

  /** What a pipeline prints for the points of a range. */
  type Printer = (set<Point>, T.Instant, T.Instant) -> set<string>

  /** The lines printed for the points from a up to, but not including, b. */
  function Lines(points: set<Point>, row: Pipeline, a: T.Instant, b: T.Instant): set<string> {
    set p | p in points && a <= p.time < b && row(p).Some? :: row(p).value
  }

  function RowByRow(row: Pipeline): Printer {
    (points, a, b) => Lines(points, row, a, b)
  }

  /**
    The targets behind the gateway, which agree: what they hold at an instant, what a time
    expression means to them at an instant, and which 2xx payloads they give to an
    organisation's request body, with the given headers, evaluated at an instant.
  */
  datatype Upstream = Upstream(
    db: T.Instant -> set<Point>,
    bound: (string, T.Instant) -> Option<T.Instant>,
    ok: (Ask, T.Instant, string) -> bool)

  /** now() is the instant of evaluation, and absolute times mean to the targets what they mean to the gateway. */
  ghost predicate ReadsTimes(u: Upstream) {
    forall x, e :: u.bound(x, e).Some? ==>
      (x == "now()" ==> u.bound(x, e).value == e) &&
      (ParseTime(Gateway(), x).Some? ==> u.bound(x, e) == ParseTime(Gateway(), x))
  }

  /** The payload is a clean table with exactly the lines of the range. */
  ghost predicate TableFor(u: Upstream, prints: Printer, read: TimeReader, start: string, stop: string, e: T.Instant, payload: string) {
    var a, b := u.bound(start, e), u.bound(stop, e);
    a.Some? && b.Some? && Clean(Parse(read, payload)) && RowSet(read, payload) == prints(u.db(e), a.value, b.value)
  }

  /** A query: the text around its range call, and what makes a request of it. */
  datatype Frame = Frame(org: string, headers: Headers, build: string -> Option<string>, pre: string, rest: string)

  function AskFor(f: Frame, call: string): Option<Ask> {
    var b := f.build(f.pre + call + f.rest);
    if b.None? then None else Some(Ask(f.org, b.value, f.headers))
  }

  ghost predicate Gives(u: Upstream, f: Frame, call: string, e: T.Instant, payload: string) {
    AskFor(f, call).Some? && u.ok(AskFor(f, call).value, e, payload)
  }

  predicate IsCall(form: Form, call: string, start: string, stop: string) {
    var c := MatchCall(Gateway(), form, call);
    c.Some? && c.value.rest == "" && Trim(c.value.start) == start && c.value.stop == stop
  }

  /** The text around the range call is this pipeline: with any range call in place, targets answer with its table. */
  ghost predicate Runs(u: Upstream, f: Frame, prints: Printer, read: TimeReader) {
    forall form, call, start, stop, e, payload ::
      IsCall(form, call, start, stop) && Gives(u, f, call, e, payload) ==> TableFor(u, prints, read, start, stop, e, payload)
  }

  /** What is older than the cutoff at e0 has not changed by e. */
  ghost predicate Settled(u: Upstream, cutoff: T.Instant, e0: T.Instant, e: T.Instant) {
    forall p: Point :: p.time < cutoff ==> (p in u.db(e0) <==> p in u.db(e))
  }

  function Min(x: int, y: int): int { if x < y then x else y }

  function Max(x: int, y: int): int { if x < y then y else x }

  // ---------- ranges of lines ----------

  /** Lines of adjacent ranges, the older one read at an earlier time. */
  lemma SegmentsJoin(u: Upstream, row: Pipeline, a: T.Instant, cutoff: T.Instant, b: T.Instant, e0: T.Instant, e: T.Instant)
    requires Settled(u, cutoff, e0, e)
    ensures Lines(u.db(e0), row, a, cutoff) + Lines(u.db(e), row, cutoff, b) == Lines(u.db(e), row, Min(a, cutoff), Max(cutoff, b))
  {
    var l := Lines(u.db(e), row, Min(a, cutoff), Max(cutoff, b));
    forall x | x in Lines(u.db(e0), row, a, cutoff) ensures x in l {
      var p :| p in u.db(e0) && a <= p.time < cutoff && row(p).Some? && row(p).value == x;
      assert p in u.db(e);
    }
    forall x | x in l ensures x in Lines(u.db(e0), row, a, cutoff) || x in Lines(u.db(e), row, cutoff, b) {
      var p :| p in u.db(e) && Min(a, cutoff) <= p.time < Max(cutoff, b) && row(p).Some? && row(p).value == x;
      if p.time < cutoff {
        assert p in u.db(e0);
      }
    }
  }

  /** A range of lines cut in two. */
  lemma LinesCut(points: set<Point>, row: Pipeline, a: T.Instant, m: T.Instant, b: T.Instant)
    requires a <= m <= b
    ensures Lines(points, row, a, b) == Lines(points, row, a, m) + Lines(points, row, m, b)
  {
    forall x | x in Lines(points, row, a, b) ensures x in Lines(points, row, a, m) || x in Lines(points, row, m, b) {
      var p :| p in points && a <= p.time < b && row(p).Some? && row(p).value == x;
      assert p.time < m || m <= p.time;
    }
  }

  // ---------- the emitted calls ----------

  lemma TrimOfBlank(s: string)
    requires Tight(s)
    ensures Trim(" " + s) == s
  {
    assert (" " + s)[1..] == s;
    assert TrimLeft(" " + s) == TrimLeft(s) == s;
  }

  lemma StartHasNoComma(form: Form, c: Call, cutoff: T.Instant)
    requires Splits(Gateway(), form, c, cutoff) && ',' !in c.start
    ensures ',' !in StartFor(Gateway(), form, c, cutoff)
  {
    hide ParseTime, CutoffExpr, Gateway, Trim;
    var i, j := TrimIsSlice(c.start);
    var p := ParseTime(Gateway(), Trim(c.start));
    if form.AbsStop? && p.Some? {
      CutoffExprTight(cutoff - Sub(ParseTime(Gateway(), c.stop).value, p.value));
    }
  }

  lemma FromEmitted(form: Form, start: string, stop: string)
    requires MatchCall(Gateway(), form, RangeText(start, stop) + "") == Some(Call(" " + start, stop, "")) && Tight(start)
    ensures IsCall(form, RangeText(start, stop), start, stop)
  {
    hide MatchCall, Gateway, Trim, RangeText;
    TrimOfBlank(start);
    assert RangeText(start, stop) + "" == RangeText(start, stop);
  }

  /** The range text of the cached query is a range call from the chosen start to the cutoff. */
  lemma CachedCall(q: string, form: Form, pre: string, c: Call, cutoff: T.Instant)
    requires Find(Gateway(), form, q) == Some((pre, c)) && Splits(Gateway(), form, c, cutoff)
    ensures var s, k := StartFor(Gateway(), form, c, cutoff), CutoffExpr(cutoff); IsCall(AbsStop, RangeText(s, k), s, k)
  {
    hide MatchCall, Gateway, Find, RangeText, CutoffExpr, Trim, IsCall, StartFor, Splits, ParseTime;
    Pieces(q, form, pre, c);
    StartHasNoComma(form, c, cutoff);
    StartTight(Gateway(), form, c, cutoff);
    CutoffIsAbs(cutoff);
    CutoffExprTight(cutoff);
    EmittedAbs(StartFor(Gateway(), form, c, cutoff), CutoffExpr(cutoff), "");
    FromEmitted(AbsStop, StartFor(Gateway(), form, c, cutoff), CutoffExpr(cutoff));
  }

  lemma Pieces(q: string, form: Form, pre: string, c: Call)
    requires Find(Gateway(), form, q) == Some((pre, c))
    ensures ',' !in c.start
    ensures form.NowStop? ==> c.stop == "now()"
    ensures form.VarStop? ==> c.stop == "v.timeRangeStop"
    ensures form.AbsStop? ==> c.stop != "" && Tight(c.stop) && AbsText(Gateway(), c.stop + ")")
  {
    hide MatchCall, Gateway, Find, AbsText;
    GatewaySound();
    GatewayCloses();
    FoundMatches(Gateway(), form, q);
    CallPieces(Gateway(), form, q[|pre|..], c);
    StopWord(Gateway(), form, q[|pre|..], c);
  }

  /** The range text of the live query is a range call from the cutoff to the original stop. */
  lemma LiveCall(q: string, form: Form, pre: string, c: Call, cutoff: T.Instant)
    requires Find(Gateway(), form, q) == Some((pre, c))
    ensures var k := CutoffExpr(cutoff); IsCall(form, RangeText(k, c.stop), k, c.stop)
  {
    hide MatchCall, Gateway, Find, RangeText, CutoffExpr, IsCall, AbsText;
    Pieces(q, form, pre, c);
    CutoffExprTight(cutoff);
    match form {
      case NowStop => EmittedNow(CutoffExpr(cutoff), "");
      case VarStop => EmittedVar(CutoffExpr(cutoff), "");
      case AbsStop => EmittedAbs(CutoffExpr(cutoff), c.stop, "");
    }
    FromEmitted(form, CutoffExpr(cutoff), c.stop);
  }

  /** The matched text of the original query is a range call with the original start and stop. */
  lemma OriginalCall(q: string, form: Form, pre: string, c: Call)
    requires Find(Gateway(), form, q) == Some((pre, c))
    ensures q == pre + Matched(q, pre, c) + c.rest && IsCall(form, Matched(q, pre, c), Trim(c.start), c.stop)
  {
    hide MatchCall, Gateway, Find, Trim, Sound;
    GatewaySound();
    FoundMatches(Gateway(), form, q);
    ReplaceHitsMatch(Gateway(), form, q, pre, c, "");
    var s := q[|pre|..];
    CallLocal(Gateway(), form, s, c, "");
    MatchedSlice(q, pre, c);
    assert Matched(q, pre, c) + "" == Matched(q, pre, c);
    assert s[..|s| - |c.rest|] == Matched(q, pre, c);
  }

  // ---------- the answer of a split query ----------

  /** A query, the call recognised in it, and the cutoff it is split at. */
  datatype Query = Query(text: string, form: Form, call: Call, cutoff: T.Instant, frame: Frame)

  ghost predicate IsSplit(g: Query) {
    && Recognise(Gateway(), g.text) == Some((g.form, g.frame.pre, g.call)) && g.frame.rest == g.call.rest
    && Splits(Gateway(), g.form, g.call, g.cutoff) && T.Representable(g.cutoff)
  }

  function OriginalText(g: Query): string {
    if |g.frame.pre| + |g.call.rest| <= |g.text| then Matched(g.text, g.frame.pre, g.call) else ""
  }

  function CachedText(g: Query): string {
    RangeText(StartFor(Gateway(), g.form, g.call, g.cutoff), CutoffExpr(g.cutoff))
  }

  function LiveText(g: Query): string { RangeText(CutoffExpr(g.cutoff), g.call.stop) }

  /** The queries sent are the original with its call replaced. */
  lemma SentQueries(g: Query)
    requires IsSplit(g)
    ensures SplitNowQuery(Gateway(), g.text, g.cutoff) ==
            Some((g.frame.pre + CachedText(g) + g.frame.rest, g.frame.pre + LiveText(g) + g.frame.rest))
  {
    hide Gateway, Recognise, SplitNowQuery, Splits, RangeText, CutoffExpr, StartFor, Sound, T.Representable;
    GatewaySound();
    SplitByStart(Gateway(), g.text, g.cutoff);
  }

  /** The merged answer of a split query, whatever its pipeline: what it prints for the two segments, each at its own time. */
  lemma SplitUnion(u: Upstream, g: Query, prints: Printer, read: TimeReader, e0: T.Instant, e: T.Instant,
                   cached: string, live: string, out: string)
    requires IsSplit(g) && ReadsTimes(u) && Runs(u, g.frame, prints, read)
    requires Gives(u, g.frame, CachedText(g), e0, cached) && Gives(u, g.frame, LiveText(g), e, live)
    requires IsMerge(read, cached, live, out)
    ensures var a, b := u.bound(StartFor(Gateway(), g.form, g.call, g.cutoff), e0), u.bound(g.call.stop, e);
      && a.Some? && b.Some? && Clean(Parse(read, out))
      && RowSet(read, out) == prints(u.db(e0), a.value, g.cutoff) + prints(u.db(e), g.cutoff, b.value)
  {
    hide Gateway, Recognise, Find, Splits, RangeText, CutoffExpr, StartFor, T.Representable, ParseTime, IsCall, Gives, IsMerge,
         RowSet, Clean, Parse, Runs;
    SegmentsClean(u, g, prints, read, e0, e, cached, live);
    ParseOfCutoff(g.cutoff);
    MergeIsUnion(read, cached, live, out);
  }

  /** Both segments are the tables of their ranges. */
  lemma SegmentsClean(u: Upstream, g: Query, prints: Printer, read: TimeReader, e0: T.Instant, e: T.Instant, cached: string, live: string)
    requires IsSplit(g) && Runs(u, g.frame, prints, read)
    requires Gives(u, g.frame, CachedText(g), e0, cached) && Gives(u, g.frame, LiveText(g), e, live)
    ensures var s, k := StartFor(Gateway(), g.form, g.call, g.cutoff), CutoffExpr(g.cutoff);
            TableFor(u, prints, read, s, k, e0, cached) && TableFor(u, prints, read, k, g.call.stop, e, live)
  {
    hide Gateway, Recognise, Find, Splits, RangeText, CutoffExpr, StartFor, T.Representable, IsCall, Gives, TableFor, Runs;
    var s, k := StartFor(Gateway(), g.form, g.call, g.cutoff), CutoffExpr(g.cutoff);
    CachedCall(g.text, g.form, g.frame.pre, g.call, g.cutoff);
    LiveCall(g.text, g.form, g.frame.pre, g.call, g.cutoff);
    UseRuns(u, g.frame, prints, read, AbsStop, CachedText(g), s, k, e0, cached);
    UseRuns(u, g.frame, prints, read, g.form, LiveText(g), k, g.call.stop, e, live);
  }

  lemma UseRuns(u: Upstream, f: Frame, prints: Printer, read: TimeReader, form: Form, call: string, start: string, stop: string, e: T.Instant, payload: string)
    requires Runs(u, f, prints, read) && IsCall(form, call, start, stop) && Gives(u, f, call, e, payload)
    ensures TableFor(u, prints, read, start, stop, e, payload)
  {
    hide IsCall, Gives, TableFor;
  }

  /**
    The merged answer of a split row-wise query: exactly the rows, as of now, of one stretch of
    time. It runs from the start the cached segment was evaluated with, or the cutoff if that is
    earlier, to the stop of the live segment, or the cutoff if that is later.
  */
  lemma SplitAnswer(u: Upstream, g: Query, row: Pipeline, read: TimeReader, e0: T.Instant, e: T.Instant,
                    cached: string, live: string, out: string)
    requires IsSplit(g) && ReadsTimes(u) && Runs(u, g.frame, RowByRow(row), read) && Settled(u, g.cutoff, e0, e)
    requires Gives(u, g.frame, CachedText(g), e0, cached) && Gives(u, g.frame, LiveText(g), e, live)
    requires IsMerge(read, cached, live, out)
    ensures var a, b := u.bound(StartFor(Gateway(), g.form, g.call, g.cutoff), e0), u.bound(g.call.stop, e);
      && a.Some? && b.Some? && Clean(Parse(read, out))
      && RowSet(read, out) == Lines(u.db(e), row, Min(a.value, g.cutoff), Max(g.cutoff, b.value))
  {
    hide Recognise, Splits, T.Representable, Gateway, StartFor, Gives, IsMerge, Lines, Settled, RowSet, Clean, Parse, Runs, Min, Max,
         ReadsTimes, CachedText, LiveText;
    SplitUnion(u, g, RowByRow(row), read, e0, e, cached, live, out);
    var a, b := u.bound(StartFor(Gateway(), g.form, g.call, g.cutoff), e0), u.bound(g.call.stop, e);
    SegmentsJoin(u, row, a.value, g.cutoff, b.value, e0, e);
  }

  /** What the unsplit query answers: what the pipeline prints between its own bounds. */
  lemma DirectAnswer(u: Upstream, g: Query, prints: Printer, read: TimeReader, e: T.Instant, direct: string)
    requires IsSplit(g) && Runs(u, g.frame, prints, read) && Gives(u, g.frame, OriginalText(g), e, direct)
    ensures g.text == g.frame.pre + OriginalText(g) + g.frame.rest
    ensures TableFor(u, prints, read, Trim(g.call.start), g.call.stop, e, direct)
  {
    hide Gateway, Find, Splits, T.Representable, IsCall, Gives, TableFor, Runs, Trim;
    OriginalCall(g.text, g.form, g.frame.pre, g.call);
    UseRuns(u, g.frame, prints, read, g.form, OriginalText(g), Trim(g.call.start), g.call.stop, e, direct);
  }

  // ---------- compared with the unsplit query ----------

  /** The cached and the live payload the answer is merged from, and the instants they were evaluated at. */
  datatype Pair = Pair(cached: string, at: T.Instant, live: string, now: T.Instant)

  /** out is an answer of the gateway to g, and direct what the unsplit query gives at the same instant as the live segment. */
  ghost predicate Compared(u: Upstream, g: Query, row: Pipeline, read: TimeReader, p: Pair, out: string, direct: string) {
    && IsSplit(g) && ReadsTimes(u) && Runs(u, g.frame, RowByRow(row), read) && Settled(u, g.cutoff, p.at, p.now)
    && Gives(u, g.frame, CachedText(g), p.at, p.cached) && Gives(u, g.frame, LiveText(g), p.now, p.live)
    && IsMerge(read, p.cached, p.live, out)
    && Gives(u, g.frame, OriginalText(g), p.now, direct)
  }

  /** Both answers as rows of ranges. */
  lemma BothAnswers(u: Upstream, g: Query, row: Pipeline, read: TimeReader, p: Pair, out: string, direct: string)
    requires Compared(u, g, row, read, p, out, direct)
    ensures var a := u.bound(StartFor(Gateway(), g.form, g.call, g.cutoff), p.at);
            var a', b := u.bound(Trim(g.call.start), p.now), u.bound(g.call.stop, p.now);
      && a.Some? && a'.Some? && b.Some?
      && RowSet(read, out) == Lines(u.db(p.now), row, Min(a.value, g.cutoff), Max(g.cutoff, b.value))
      && RowSet(read, direct) == Lines(u.db(p.now), row, a'.value, b.value)
  {
    hide IsSplit, Gateway, StartFor, Gives, IsMerge, Lines, Settled, RowSet, Clean, Parse, Runs, Min, Max, ReadsTimes,
         CachedText, LiveText, OriginalText, Trim;
    SplitAnswer(u, g, row, read, p.at, p.now, p.cached, p.live, out);
    DirectAnswer(u, g, RowByRow(row), read, p.now, direct);
  }

  lemma NowIsNow(u: Upstream, g: Query, e: T.Instant)
    requires IsSplit(g) && ReadsTimes(u) && g.form.NowStop? && u.bound(g.call.stop, e).Some?
    ensures u.bound(g.call.stop, e) == Some(e) && StartFor(Gateway(), g.form, g.call, g.cutoff) == Trim(g.call.start)
  {
    hide Gateway, Find, ParseTime, Trim, T.Representable;
    Pieces(g.text, g.form, g.frame.pre, g.call);
  }

  /**
    The last d up to now(): the answer is the rows of [e0 - d, e), or of [cutoff, e) if that
    reaches further back, where e0 is when the cached segment was evaluated. No row of the
    unsplit answer is lost, and the rows in excess are those before e - d.
  */
  lemma RelativeRange(u: Upstream, g: Query, row: Pipeline, read: TimeReader, p: Pair, out: string, direct: string, d: nat)
    requires Compared(u, g, row, read, p, out, direct) && g.form.NowStop?
    requires u.bound(Trim(g.call.start), p.at) == Some(p.at - d) && u.bound(Trim(g.call.start), p.now) == Some(p.now - d)
    requires p.at <= p.now && g.cutoff <= p.now
    ensures var lo := Min(p.at - d, g.cutoff);
      && RowSet(read, out) == Lines(u.db(p.now), row, lo, p.now)
      && RowSet(read, direct) == Lines(u.db(p.now), row, p.now - d, p.now)
      && RowSet(read, direct) <= RowSet(read, out)
      && RowSet(read, out) == RowSet(read, direct) + Lines(u.db(p.now), row, lo, p.now - d)
  {
    hide IsSplit, Gateway, StartFor, Gives, IsMerge, Lines, Settled, RowSet, Runs, ReadsTimes, CachedText, LiveText, OriginalText, Trim;
    BothAnswers(u, g, row, read, p, out, direct);
    NowIsNow(u, g, p.now);
    LinesCut(u.db(p.now), row, Min(p.at - d, g.cutoff), p.now - d, p.now);
  }

  /**
    Within the window of the cutoff, and for a range that reaches back behind it, the answer is
    the rows of [e0 - d, e), and the excess is shorter than the freshness window.
  */
  lemma RelativeRangeInWindow(u: Upstream, g: Query, row: Pipeline, read: TimeReader, p: Pair, out: string, direct: string, d: nat, window: int)
    requires Compared(u, g, row, read, p, out, direct) && g.form.NowStop?
    requires u.bound(Trim(g.call.start), p.at) == Some(p.at - d) && u.bound(Trim(g.call.start), p.now) == Some(p.now - d)
    requires window > 0 && SplitCutoff(p.at, window) == g.cutoff == SplitCutoff(p.now, window) && p.at <= p.now
    requires p.at - d <= g.cutoff
    ensures RowSet(read, out) == Lines(u.db(p.now), row, p.at - d, p.now)
    ensures RowSet(read, out) == RowSet(read, direct) + Lines(u.db(p.now), row, p.at - d, p.now - d)
    ensures 0 <= (p.now - d) - (p.at - d) < window
  {
    hide Compared, Gateway, Lines, RowSet, Trim;
    RelativeRange(u, g, row, read, p, out, direct, d);
  }

  lemma MinMax(x: int, y: int)
    ensures (x <= y ==> Min(x, y) == x && Max(x, y) == y) && (y <= x ==> Min(x, y) == y && Max(x, y) == x)
  {
  }

  /** The start is sent as it is: the stop is not absolute, or the start is no instant before it. */
  ghost predicate KeepsStart(g: Query) {
    g.form.AbsStop? ==>
      var from, to := ParseTime(Gateway(), Trim(g.call.start)), ParseTime(Gateway(), g.call.stop);
      from.None? || (to.Some? && to.value <= from.value)
  }

  lemma StartAsGiven(u: Upstream, g: Query, row: Pipeline, read: TimeReader, p: Pair, out: string, direct: string)
    requires Compared(u, g, row, read, p, out, direct) && KeepsStart(g)
    ensures StartFor(Gateway(), g.form, g.call, g.cutoff) == Trim(g.call.start)
  {
    hide Gateway, Gives, IsMerge, Settled, Runs, ReadsTimes, CachedText, LiveText, OriginalText, Trim, Recognise, T.Representable, ParseTime;
  }

  /**
    A start that is sent as it is and may move, as -1h does: the answer reaches from the start
    as the cached segment saw it to the stop, or to the cutoff where that lies outside. No row
    of the unsplit answer is lost, and the rows in excess are those before the start as the
    unsplit query sees it and those behind its stop.
  */
  lemma MovingStart(u: Upstream, g: Query, row: Pipeline, read: TimeReader, p: Pair, out: string, direct: string,
                    a0: T.Instant, a: T.Instant, b: T.Instant)
    requires Compared(u, g, row, read, p, out, direct) && KeepsStart(g)
    requires u.bound(Trim(g.call.start), p.at) == Some(a0) && u.bound(Trim(g.call.start), p.now) == Some(a) && a0 <= a
    requires u.bound(g.call.stop, p.now) == Some(b)
    ensures var lo, hi := if a0 < g.cutoff then a0 else g.cutoff, if b > g.cutoff then b else g.cutoff;
      && RowSet(read, out) == Lines(u.db(p.now), row, lo, hi)
      && RowSet(read, direct) == Lines(u.db(p.now), row, a, b)
      && RowSet(read, direct) <= RowSet(read, out)
      && (a <= b ==> RowSet(read, out) == RowSet(read, direct) + Lines(u.db(p.now), row, lo, a) + Lines(u.db(p.now), row, b, hi))
  {
    hide *;
    BothAnswers(u, g, row, read, p, out, direct);
    StartAsGiven(u, g, row, read, p, out, direct);
    MinMax(a0, g.cutoff);
    MinMax(g.cutoff, b);
    Around(u.db(p.now), row, if a0 < g.cutoff then a0 else g.cutoff, a, b, if b > g.cutoff then b else g.cutoff);
  }

  /** A range of lines in a wider one. */
  lemma Around(points: set<Point>, row: Pipeline, lo: T.Instant, a: T.Instant, b: T.Instant, hi: T.Instant)
    requires lo <= a && b <= hi
    ensures Lines(points, row, a, b) <= Lines(points, row, lo, hi)
    ensures a <= b ==> Lines(points, row, lo, hi) == Lines(points, row, a, b) + Lines(points, row, lo, a) + Lines(points, row, b, hi)
  {
    hide Lines;
    if a <= b {
      LinesCut(points, row, lo, a, hi);
      LinesCut(points, row, a, b, hi);
    } else {
      EmptyRange(points, row, a, b);
    }
  }

  lemma EmptyRange(points: set<Point>, row: Pipeline, a: T.Instant, b: T.Instant)
    requires b <= a
    ensures Lines(points, row, a, b) == {}
  {
  }

  /**
    A start that does not move and is sent as it is: the answer is exact when the cutoff lies
    in the range; a cutoff outside adds the rows between the two.
  */
  lemma FixedStart(u: Upstream, g: Query, row: Pipeline, read: TimeReader, p: Pair, out: string, direct: string, a: T.Instant, b: T.Instant)
    requires Compared(u, g, row, read, p, out, direct) && KeepsStart(g)
    requires u.bound(Trim(g.call.start), p.at) == u.bound(Trim(g.call.start), p.now) == Some(a)
    requires u.bound(g.call.stop, p.now) == Some(b)
    ensures a <= g.cutoff <= b ==> RowSet(read, out) == RowSet(read, direct)
    ensures a <= b <= g.cutoff ==> RowSet(read, out) == RowSet(read, direct) + Lines(u.db(p.now), row, b, g.cutoff)
    ensures g.cutoff <= a <= b ==> RowSet(read, out) == RowSet(read, direct) + Lines(u.db(p.now), row, g.cutoff, a)
  {
    hide *;
    MovingStart(u, g, row, read, p, out, direct, a, a, b);
    EmptyRange(u.db(p.now), row, a, a);
    EmptyRange(u.db(p.now), row, b, b);
    EmptyRange(u.db(p.now), row, g.cutoff, g.cutoff);
  }

  /**
    An absolute range: the answer is the rows of [cutoff - length, stop), whenever the cached
    segment was evaluated. It contains the unsplit answer and overshoots at the front by
    exactly stop - cutoff.
  */
  lemma AbsoluteAnswer(u: Upstream, g: Query, row: Pipeline, read: TimeReader, p: Pair, out: string, direct: string, start: T.Instant, stop: T.Instant)
    requires Compared(u, g, row, read, p, out, direct)
    requires AbsoluteRange(g.text, g.frame.pre, g.frame.rest, start, stop) && stop - start <= 0x7FFF_FFFF_FFFF_FFFF
    requires T.Representable(g.cutoff - (stop - start))
    ensures var lo := g.cutoff - (stop - start);
      && RowSet(read, out) == Lines(u.db(p.now), row, lo, stop)
      && RowSet(read, direct) == Lines(u.db(p.now), row, start, stop)
      && RowSet(read, out) == RowSet(read, direct) + Lines(u.db(p.now), row, lo, start)
      && start - lo == stop - g.cutoff > 0
  {
    hide Gateway, Gives, IsMerge, Lines, Settled, RowSet, Runs, CachedText, LiveText, OriginalText, Trim, Recognise, T.Representable, ParseTime, CachedStart, CutoffExpr;
    BothAnswers(u, g, row, read, p, out, direct);
    ShiftedStart(Gateway(), g.call.start, start, stop, g.cutoff);
    ParseOfCutoff(g.cutoff - (stop - start));
    LinesCut(u.db(p.now), row, g.cutoff - (stop - start), start, stop);
  }

  // ---------- rows counted ----------

  /** The points of a range that are printed. */
  function Printed(points: set<Point>, row: Pipeline, a: T.Instant, b: T.Instant): set<Point> {
    set p | p in points && a <= p.time < b && row(p).Some?
  }

  function LinesOf(ps: set<Point>, row: Pipeline): set<string> {
    set p | p in ps && row(p).Some? :: row(p).value
  }

  /** No two of the points print the same line. */
  ghost predicate DistinctLines(ps: set<Point>, row: Pipeline) {
    forall p, p' :: p in ps && p' in ps && row(p) == row(p') ==> p == p'
  }

  lemma {:induction false} CountLines(ps: set<Point>, row: Pipeline)
    requires forall p :: p in ps ==> row(p).Some?
    ensures |LinesOf(ps, row)| <= |ps| && (|LinesOf(ps, row)| == |ps| <==> DistinctLines(ps, row))
    decreases |ps|
  {
    if ps != {} {
      var p :| p in ps;
      var rest := ps - {p};
      CountLines(rest, row);
      LinesOfOneMore(rest, p, row);
      DistinctOneMore(rest, p, row);
      assert rest + {p} == ps;
    }
  }

  lemma LinesOfOneMore(rest: set<Point>, p: Point, row: Pipeline)
    requires row(p).Some?
    ensures LinesOf(rest + {p}, row) == LinesOf(rest, row) + {row(p).value}
  {
  }

  lemma DistinctOneMore(rest: set<Point>, p: Point, row: Pipeline)
    requires row(p).Some? && p !in rest && forall q :: q in rest ==> row(q).Some?
    ensures DistinctLines(rest + {p}, row) <==> DistinctLines(rest, row) && row(p).value !in LinesOf(rest, row)
  {
    if row(p).value !in LinesOf(rest, row) {
      assert forall q :: q in rest ==> row(q).value in LinesOf(rest, row);
    }
  }

  lemma {:induction false} RowsCounted(rows: seq<Row>)
    requires NoRepeats(rows)
    ensures |RawSet(rows)| == |rows|
  {
    if rows != [] {
      var n := |rows| - 1;
      RowsCounted(rows[..n]);
      RawSetSnoc(rows[..n], rows[n]);
      assert rows == rows[..n] + [rows[n]];
    }
  }

  /**
    Merging drops repeated lines, so the merged answer has one row for every printed point of
    its range exactly when no two of these points print the same line.
  */
  lemma MultiplicitySurvives(u: Upstream, g: Query, row: Pipeline, read: TimeReader, e0: T.Instant, e: T.Instant,
                             cached: string, live: string, out: string)
    requires IsSplit(g) && ReadsTimes(u) && Runs(u, g.frame, RowByRow(row), read) && Settled(u, g.cutoff, e0, e)
    requires Gives(u, g.frame, CachedText(g), e0, cached) && Gives(u, g.frame, LiveText(g), e, live)
    requires IsMerge(read, cached, live, out)
    ensures var a, b := u.bound(StartFor(Gateway(), g.form, g.call, g.cutoff), e0), u.bound(g.call.stop, e);
      && a.Some? && b.Some?
      && var ps := Printed(u.db(e), row, Min(a.value, g.cutoff), Max(g.cutoff, b.value));
         |Parse(read, out).rows| <= |ps| && (|Parse(read, out).rows| == |ps| <==> DistinctLines(ps, row))
  {
    hide Recognise, Splits, T.Representable, Gateway, StartFor, Gives, IsMerge, Settled, RawSet, Clean, Parse, Runs, Min, Max,
         ReadsTimes, CachedText, LiveText, Lines, Printed, DistinctLines, NoRepeats;
    SplitAnswer(u, g, row, read, e0, e, cached, live, out);
    var a, b := u.bound(StartFor(Gateway(), g.form, g.call, g.cutoff), e0), u.bound(g.call.stop, e);
    var lo, hi := Min(a.value, g.cutoff), Max(g.cutoff, b.value);
    PrintedLines(u.db(e), row, lo, hi);
    CountLines(Printed(u.db(e), row, lo, hi), row);
    SegmentsClean(u, g, RowByRow(row), read, e0, e, cached, live);
    MergeReread(read, cached, live, out);
    RowsCounted(Parse(read, out).rows);
  }

  lemma PrintedLines(points: set<Point>, row: Pipeline, a: T.Instant, b: T.Instant)
    ensures LinesOf(Printed(points, row, a, b), row) == Lines(points, row, a, b)
    ensures forall p :: p in Printed(points, row, a, b) ==> row(p).Some?
  {
  }

  // ---------- aggregates ----------

  function Among(points: set<Point>, a: T.Instant, b: T.Instant): set<Point> {
    set p | p in points && a <= p.time < b
  }

  /** count(): one line, the number of points. */
  function Counting(show: nat -> string): Printer {
    (points, a, b) => {show(|Among(points, a, b)|)}
  }

  lemma AmongSettled(u: Upstream, cutoff: T.Instant, e0: T.Instant, e: T.Instant, a: T.Instant)
    requires Settled(u, cutoff, e0, e)
    ensures Among(u.db(e0), a, cutoff) == Among(u.db(e), a, cutoff)
  {
  }

  lemma AmongCut(points: set<Point>, a: T.Instant, m: T.Instant, b: T.Instant)
    requires a <= m <= b
    ensures |Among(points, a, b)| == |Among(points, a, m)| + |Among(points, m, b)|
  {
    assert Among(points, a, b) == Among(points, a, m) + Among(points, m, b);
    assert Among(points, a, m) !! Among(points, m, b);
  }

  /** Counting does not survive the split: the merged answer is the count over the whole range exactly when there is nothing to count. */
  lemma CountIsBroken(u: Upstream, g: Query, show: nat -> string, read: TimeReader, e0: T.Instant, e: T.Instant,
                      cached: string, live: string, out: string, a: T.Instant, b: T.Instant)
    requires forall m: nat, n: nat :: show(m) == show(n) ==> m == n
    requires IsSplit(g) && ReadsTimes(u) && Runs(u, g.frame, Counting(show), read) && Settled(u, g.cutoff, e0, e)
    requires Gives(u, g.frame, CachedText(g), e0, cached) && Gives(u, g.frame, LiveText(g), e, live) && IsMerge(read, cached, live, out)
    requires u.bound(StartFor(Gateway(), g.form, g.call, g.cutoff), e0) == Some(a) && u.bound(g.call.stop, e) == Some(b)
    requires a <= g.cutoff <= b
    ensures RowSet(read, out) == Counting(show)(u.db(e), a, b) <==> Among(u.db(e), a, b) == {}
  {
    hide IsSplit, Gateway, StartFor, Gives, IsMerge, RowSet, Clean, Parse, Runs, ReadsTimes, CachedText, LiveText, Among, Settled;
    SplitUnion(u, g, Counting(show), read, e0, e, cached, live, out);
    AmongSettled(u, g.cutoff, e0, e, a);
    AmongCut(u.db(e), a, g.cutoff, b);
    TwoCounts(show, |Among(u.db(e), a, g.cutoff)|, |Among(u.db(e), g.cutoff, b)|);
  }

  lemma TwoCounts(show: nat -> string, m: nat, n: nat)
    requires forall m: nat, n: nat :: show(m) == show(n) ==> m == n
    ensures {show(m)} + {show(n)} == {show(m + n)} <==> m + n == 0
  {
    if {show(m)} + {show(n)} == {show(m + n)} {
      assert show(m) in {show(m + n)} && show(n) in {show(m + n)};
    }
  }
}
