/**
  handleQuery of internal/gateway/server.go: split the query, fetch the cached segment, forward
  the live one, merge. It calls fetchOrCache, the retry loop and MergeCSV as they are modelled.
*/
module HandleQuery {
  import opened Text
  import opened Wire
  import opened CacheKey
  import opened CacheFill
  import opened CacheSafety
  import opened CacheHits
  import opened FluxSplit
  import opened RangeCall
  import opened CsvMerge
  import opened SplitLaws
  import opened Meaning
  import opened EndToEnd
  import F = FetchOrCache
  import L = RetryLaws
  import M = ManagerObject
  import U = Upstream
  import R = Retry
  import T = Rfc3339

  /** A request: query is the Flux text in the body, build puts another text in its place. */
  datatype Incoming = Incoming(org: string, body: string, query: string, build: string -> Option<string>, headers: Headers)

  datatype Response =
    | Rejected(status: nat)
    | Unsplit(source: Source, status: nat, payload: string)
    | SegmentFailed(status: nat, payload: string)
    | Joined(source: Source, payload: string)

  const BAD_REQUEST: nat := 400
  const BAD_GATEWAY: nat := 502

  /** Only CSV answers can be merged. */
  predicate AllowSplit(accept: string) { accept == "" || Contains(Lower(accept), "csv") }

  /** The cached and the live body, when the request is split; each may fail to be built. */
  function Bodies(q: Incoming, cutoff: T.Instant): Option<(Option<string>, Option<string>)> {
    var sp := SplitNowQuery(Gateway(), q.query, cutoff);
    if sp.Some? && AllowSplit(q.headers.accept) then Some((q.build(sp.value.0), q.build(sp.value.1))) else None
  }

  /** Request id of the state asked for this body and got res. */
  predicate Fetched(s: State, id: Id, q: Incoming, body: string, res: Result) {
    id in s.reqs && s.reqs[id] == Request(q.org, body, q.headers, Done(res))
  }

  /** The answer once the cached segment is there; the live body is forwarded through the retry loop. */
  ghost predicate JoinedBy(read: TimeReader, res: Result, tail: R.Route, ask: Ask, resp: Response) {
    var live := tail.Outcome(ask);
    if res.Error? then resp == Rejected(BAD_GATEWAY)
    else if !Is2xx(res.status) then resp == SegmentFailed(res.status, res.payload)
    else if !live.Answered? then resp == Rejected(BAD_GATEWAY)
    else if !Is2xx(live.status) then resp == SegmentFailed(live.status, live.payload)
    else resp.Joined? && resp.source == res.source && IsMerge(read, res.payload, live.payload, resp.payload)
  }

  ghost predicate Handled(q: Incoming, cutoff: T.Instant, read: TimeReader, s: State, id: Id, tail: R.Route, resp: Response) {
    if q.org == "" then resp == Rejected(BAD_REQUEST) else
    var b := Bodies(q, cutoff);
    if b.None? then
      exists res :: Fetched(s, id, q, q.body, res) &&
        resp == if res.Error? then Rejected(BAD_GATEWAY) else Unsplit(res.source, res.status, res.payload)
    else if b.value.0.None? || b.value.1.None? then resp == Rejected(BAD_REQUEST)
    else exists res :: Fetched(s, id, q, b.value.0.value, res) && JoinedBy(read, res, tail, Ask(q.org, b.value.1.value, q.headers), resp)
  }

  /** The formats whose queries are split: none given, or one that names CSV, in any mix of cases. */
  lemma SplitFormats(q: Incoming, cutoff: T.Instant)
    ensures Bodies(q, cutoff).Some? <==>
      SplitNowQuery(Gateway(), q.query, cutoff).Some? && (q.headers.accept == "" || exists k: nat :: AnyCaseAt(q.headers.accept, "csv", "CSV", k))
  {
    hide SplitNowQuery, Gateway, Contains, Lower;
    ContainsLower(q.headers.accept, "csv", "CSV");
  }

  /** The requests a query may send: the one that fills the cache, and the live one. */
  function FillAsk(q: Incoming, cutoff: T.Instant): Ask {
    var b := Bodies(q, cutoff);
    Ask(q.org, if b.None? then q.body else if b.value.0.Some? then b.value.0.value else "", q.headers)
  }

  function LiveAsk(q: Incoming, cutoff: T.Instant): Ask {
    var b := Bodies(q, cutoff);
    Ask(q.org, if b.Some? && b.value.1.Some? then b.value.1.value else "", q.headers)
  }

  predicate SplitInTwo(q: Incoming, cutoff: T.Instant) {
    var b := Bodies(q, cutoff);
    q.org != "" && b.Some? && b.value.0.Some? && b.value.1.Some?
  }

  /**
    The manager after the call. The fetch may have forwarded along its own route, which left the
    manager as the live route finds it; a live forward follows a 2xx cached segment.
  */
  ghost predicate ManagerAfter(q: Incoming, cutoff: T.Instant, s: State, id: Id, tail: R.Route, after: U.Fleet) {
    after == if SplitInTwo(q, cutoff) && ServedOk(s, id) then tail.Trace(LiveAsk(q, cutoff)).fleet else tail.fleet
  }

  /** Why the gateway answers 502 although Redis works: one of its two forwards came to nothing. */
  ghost predicate BadGatewayBecause(q: Incoming, cutoff: T.Instant, fill: R.Route, tail: R.Route, resp: Response) {
    resp == Rejected(BAD_GATEWAY) ==>
      !fill.Outcome(FillAsk(q, cutoff)).Answered? || (SplitInTwo(q, cutoff) && !tail.Outcome(LiveAsk(q, cutoff)).Answered?)
  }

  /** The live segment is forwarded, and merged if it is 2xx. */
  method Join(m: M.Manager, retries: int, env: R.Env, read: TimeReader, res: Result, ask: Ask) returns (resp: Response)
    requires m.Valid() && res.Served? && Is2xx(res.status)
    modifies m
    ensures m.Valid()
    ensures var tail := R.Route(m.cfg, old(m.View()), env, retries);
            JoinedBy(read, res, tail, ask, resp) && m.View() == tail.Trace(ask).fleet &&
            (resp == Rejected(BAD_GATEWAY) ==> !tail.Outcome(ask).Answered?)
  {
    hide R.Attempts, R.Conclude, IsMerge, M.Manager.Valid;
    var live, attempts := R.Forward(m, retries, env, ask);
    if !live.Answered? {
      return Rejected(BAD_GATEWAY);
    }
    if !Is2xx(live.status) {
      return SegmentFailed(live.status, live.payload);
    }
    var merged := MergeCsv(read, res.payload, live.payload);
    resp := Joined(res.source, merged);
  }

  /**
    handleQuery, from the check of the organisation on. fillEnv and env are what happens around
    the attempts of its two forwards, which use the shared manager one after the other.
  */
  method HandleQuery(w: F.World, m: M.Manager, window: int, retries: int, fillEnv: R.Env, env: R.Env, read: TimeReader, id: Id, q: Incoming)
    returns (resp: Response)
    requires w.Valid() && m.Valid() && id !in w.s.reqs && Digests(w.c.hash)
    modifies w, m
    ensures w.Valid() && m.Valid() && old(w.steps) <= w.steps && old(w.s.now) <= w.s.now
    ensures var cutoff, fill := SplitCutoff(old(w.s.now), window), R.Route(m.cfg, old(m.View()), fillEnv, retries);
            var tail := R.Route(m.cfg, F.FleetAfter(w.s, id, fill), env, retries);
      && Handled(q, cutoff, read, w.s, id, tail, resp)
      && F.Via(w.s, id, fill) && ManagerAfter(q, cutoff, w.s, id, tail, m.View())
      && (w.RedisWorks() ==> BadGatewayBecause(q, cutoff, fill, tail, resp))
  {
    hide Run, After, Key, Cacheable, Digests, SplitNowQuery, Gateway, Honest, AllowSplit, IsMerge, R.Attempts, R.Conclude,
         M.Manager.Valid, JoinedBy, Forwarded, F.Replied, F.World.RedisWorks, R.Route.Trace, R.Route.Outcome;
    if q.org == "" {
      return Rejected(BAD_REQUEST);
    }
    var cutoff := SplitCutoff(w.s.now, window);
    var sp := SplitNowQuery(Gateway(), q.query, cutoff);
    if sp.None? || !AllowSplit(q.headers.accept) {
      var res := w.FetchOrCache(id, q.org, q.body, q.headers, m, retries, fillEnv);
      resp := if res.Error? then Rejected(BAD_GATEWAY) else Unsplit(res.source, res.status, res.payload);
      assert Fetched(w.s, id, q, q.body, res);
      ClockForward(w.c, w.t0, old(w.steps), w.steps);
      return;
    }
    var cachedBody, liveBody := q.build(sp.value.0), q.build(sp.value.1);
    if cachedBody.None? || liveBody.None? {
      return Rejected(BAD_REQUEST);
    }
    var res := w.FetchOrCache(id, q.org, cachedBody.value, q.headers, m, retries, fillEnv);
    assert Fetched(w.s, id, q, cachedBody.value, res);
    ClockForward(w.c, w.t0, old(w.steps), w.steps);
    var ask := Ask(q.org, liveBody.value, q.headers);
    ghost var tail := R.Route(m.cfg, m.View(), env, retries);
    if res.Error? || !Is2xx(res.status) {
      resp := if res.Error? then Rejected(BAD_GATEWAY) else SegmentFailed(res.status, res.payload);
      NotJoined(read, res, tail, ask);
    } else {
      resp := Join(m, retries, env, read, res, ask);
    }
  }

  /** A failed cached segment decides the response by itself. */
  lemma NotJoined(read: TimeReader, res: Result, tail: R.Route, ask: Ask)
    requires res.Error? || !Is2xx(res.status)
    ensures JoinedBy(read, res, tail, ask, if res.Error? then Rejected(BAD_GATEWAY) else SegmentFailed(res.status, res.payload))
  {
  }

  // ---------- what the response means ----------

  /** The query of an incoming request as the rewrite sees it. */
  function QueryOf(q: Incoming, cutoff: T.Instant): Query {
    var m := Recognise(Gateway(), q.query);
    var (form, pre, c) := if m.Some? then m.value else (NowStop, "", Call("", "", ""));
    Query(q.query, form, c, cutoff, Frame(q.org, q.headers, q.build, pre, c.rest))
  }

  lemma QueryFacts(q: Incoming, cutoff: T.Instant)
    requires Recognise(Gateway(), q.query).Some?
    ensures var g := QueryOf(q, cutoff);
      && g.text == q.query && g.form == Recognise(Gateway(), q.query).value.0 && g.cutoff == cutoff
      && g.frame.org == q.org && g.frame.headers == q.headers && g.frame.build == q.build
  {
    hide Recognise, Gateway;
  }

  lemma CutoffBefore(now: T.Instant, window: int)
    ensures SplitCutoff(now, window) <= now && (window > 0 ==> now < SplitCutoff(now, window) + window)
  {
  }

  /** What is sent after the instant since is answered by the targets of u, and evaluated after it. */
  ghost predicate TruthfulTail(u: Upstream, env: R.Env, since: Time) {
    forall i: nat, name, ask: Ask ::
      var r := env(i).reply(name, ask);
      since <= env(i).at && (r.Answer? && Is2xx(r.status) ==> u.ok(ask, env(i).at, r.payload))
  }

  /**
    What is assumed of the world: targets as in Meaning, who answer what is forwarded, and one
    format per question.
  */
  ghost predicate Benign(u: Upstream, g: Query, row: Pipeline, read: TimeReader, s: State, id: Id, tail: R.Route) {
    && ReadsTimes(u) && Runs(u, g.frame, RowByRow(row), read) && Truthful(u, s.log) && TruthfulTail(u, tail.env, s.now)
    && (id in s.reqs ==> OneFormat(s, s.reqs[id]))
  }

  lemma LastAsked(env: R.Env, ask: Ask, a: seq<R.Attempt>)
    requires L.AllAsked(env, ask, 0, a) && a != []
    ensures L.Asked(env, ask, |a| - 1, a[|a| - 1])
  {
    hide L.Asked;
    assert L.Asked(env, ask, 0 + (|a| - 1), a[|a| - 1]);
  }

  /** A live 2xx outcome is an answer of the targets to the live request, at the instant of the deciding attempt. */
  lemma LiveGiven(u: Upstream, tail: R.Route, ask: Ask, since: Time)
    requires TruthfulTail(u, tail.env, since)
    ensures var live := tail.Outcome(ask);
            live.Answered? ==> since <= tail.Instant(ask) && (Is2xx(live.status) ==> u.ok(ask, tail.Instant(ask), live.payload))
  {
    hide R.Attempts, Is2xx;
    var a := tail.Trace(ask).attempts;
    L.AttemptsAsked(tail.cfg, tail.fleet, tail.env, ask, 0, R.Limit(tail.retries), {});
    if a != [] {
      var n: nat := |a| - 1;
      assert L.Asked(tail.env, ask, n, a[n]) by {
        LastAsked(tail.env, ask, a);
      }
    }
  }

  /** What a joined response is made of. */
  lemma JoinedParts(read: TimeReader, q: Incoming, cutoff: T.Instant, s: State, id: Id, tail: R.Route, resp: Response)
    requires Handled(q, cutoff, read, s, id, tail, resp) && resp.Joined?
    ensures var sp := SplitNowQuery(Gateway(), q.query, cutoff);
            var live := tail.Outcome(LiveAsk(q, cutoff));
      && sp.Some? && q.build(sp.value.1) == Some(LiveAsk(q, cutoff).body) && LiveAsk(q, cutoff) == Ask(q.org, LiveAsk(q, cutoff).body, q.headers)
      && ServedOk(s, id) && s.reqs[id].org == q.org && s.reqs[id].headers == q.headers && q.build(sp.value.0) == Some(s.reqs[id].body)
      && live.Answered? && Is2xx(live.status) && IsMerge(read, s.reqs[id].pc.result.payload, live.payload, resp.payload)
  {
    hide SplitNowQuery, Gateway, AllowSplit, IsMerge, R.Route.Outcome, Is2xx;
  }

  /**
    What every response goes back to. A request is answered in two segments exactly when the
    rewrite splits its query and its format is CSV or not given. 400 means that the organisation
    is missing or a body cannot be built. An answer in one piece is the result fetched for the
    body as it came; a failed segment is the non-2xx result fetched for the cached body or the
    non-2xx outcome of the live one; a joined answer has 2xx segments.
  */
  lemma ResponseParts(read: TimeReader, q: Incoming, cutoff: T.Instant, s: State, id: Id, tail: R.Route, resp: Response)
    requires Handled(q, cutoff, read, s, id, tail, resp)
    ensures var sp := SplitNowQuery(Gateway(), q.query, cutoff);
            var split := sp.Some? && (q.headers.accept == "" || exists k: nat :: AnyCaseAt(q.headers.accept, "csv", "CSV", k));
            var built := split && q.build(sp.value.0).Some? && q.build(sp.value.1).Some?;
      match resp
      case Rejected(status) => (status == 400 && (q.org == "" || (split && !built))) || (status == 502 && q.org != "" && (split ==> built))
      case Unsplit(source, status, payload) =>
        !split && id in s.reqs && s.reqs[id] == Request(q.org, q.body, q.headers, Done(Served(source, status, payload)))
      case SegmentFailed(status, payload) =>
        built && !(200 <= status <= 299) && id in s.reqs && s.reqs[id].pc.Done? &&
        s.reqs[id] == Request(q.org, q.build(sp.value.0).value, q.headers, s.reqs[id].pc) &&
        var res := s.reqs[id].pc.result;
        var live := tail.Outcome(Ask(q.org, q.build(sp.value.1).value, q.headers));
        res.Served? && if 200 <= res.status <= 299 then live.Answered? && live.status == status && live.payload == payload
                       else res.status == status && res.payload == payload
      case Joined(source, payload) =>
        built && id in s.reqs && s.reqs[id].pc.Done? &&
        s.reqs[id] == Request(q.org, q.build(sp.value.0).value, q.headers, s.reqs[id].pc) &&
        var res := s.reqs[id].pc.result;
        var live := tail.Outcome(Ask(q.org, q.build(sp.value.1).value, q.headers));
        res.Served? && res.source == source && 200 <= res.status <= 299 && live.Answered? && 200 <= live.status <= 299 &&
        IsMerge(read, res.payload, live.payload, payload)
  {
    hide SplitNowQuery, Gateway, AllowSplit, R.Route.Outcome, IsMerge;
    SplitFormats(q, cutoff);
  }

  /** The query of a split request. */
  lemma SplitQuery(q: Incoming, cutoff: T.Instant)
    requires SplitNowQuery(Gateway(), q.query, cutoff).Some? && T.Representable(cutoff)
    ensures Recognise(Gateway(), q.query).Some? && IsSplit(QueryOf(q, cutoff))
    ensures var g := QueryOf(q, cutoff);
            SplitNowQuery(Gateway(), q.query, cutoff) ==
            Some((g.frame.pre + CachedText(g) + g.frame.rest, g.frame.pre + LiveText(g) + g.frame.rest))
  {
    hide SplitNowQuery, Gateway, Recognise, T.Representable, CachedText, LiveText, Splits, Sound, RangeText, CutoffExpr, StartFor, Matched;
    GatewaySound();
    SplitByStart(Gateway(), q.query, cutoff);
    SentQueries(QueryOf(q, cutoff));
  }

  /** A joined response comes from a split query, a 2xx cached segment and a 2xx live segment, each the answer to its own query. */
  lemma JoinedIsMerged(u: Upstream, row: Pipeline, read: TimeReader, q: Incoming, cutoff: T.Instant, s: State, id: Id, tail: R.Route, resp: Response)
    requires Handled(q, cutoff, read, s, id, tail, resp) && resp.Joined? && T.Representable(cutoff)
    requires Benign(u, QueryOf(q, cutoff), row, read, s, id, tail)
    ensures Recognise(Gateway(), q.query).Some? && tail.Outcome(LiveAsk(q, cutoff)).Answered? && s.now <= tail.Instant(LiveAsk(q, cutoff))
    ensures var ask := LiveAsk(q, cutoff);
            Merged(u, QueryOf(q, cutoff), row, read, s, id, tail.Outcome(ask).payload, tail.Instant(ask), resp.payload)
  {
    hide Handled, SplitNowQuery, Gateway, Recognise, IsMerge, T.Representable, ReadsTimes, Runs, Truthful, OneFormat, R.Route.Outcome, R.Route.Instant,
         IsSplit, CachedText, LiveText, TruthfulTail, LiveAsk, QueryOf, Is2xx, Gives;
    JoinedParts(read, q, cutoff, s, id, tail, resp);
    SplitQuery(q, cutoff);
    QueryFacts(q, cutoff);
    LiveGiven(u, tail, LiveAsk(q, cutoff), s.now);
    var g, ask := QueryOf(q, cutoff), LiveAsk(q, cutoff);
    GivenInFrame(u, g.frame, LiveText(g), ask, tail.Instant(ask), tail.Outcome(ask).payload);
  }

  lemma GivenInFrame(u: Upstream, f: Frame, call: string, ask: Ask, e: T.Instant, payload: string)
    requires f.build(f.pre + call + f.rest) == Some(ask.body) && ask == Ask(f.org, ask.body, f.headers) && u.ok(ask, e, payload)
    ensures Gives(u, f, call, e, payload)
  {
  }

  /**
    The whole gateway, for the last d up to now(): if a query is answered by merging, then, for
    targets that agree and a row-wise pipeline, the cached segment comes from a forward f of
    the run, for this question, and the live one was evaluated at e. If nothing older than the
    cutoff was written between the two, every row of the unsplit answer is there, and every
    other row lies between the start as the cached segment saw it and the start as the unsplit
    query sees it. Here direct is what the unsplit query gives at e.
  */
  lemma GatewayAnswersRelative(u: Upstream, row: Pipeline, read: TimeReader, c: Config, t0: Time, steps: seq<Step>, id: Id,
                               q: Incoming, window: int, wall: T.Instant, tail: R.Route, resp: Response, direct: string, d: nat)
    returns (f: Forward, e: T.Instant)
    requires Digests(c.hash) && Run(c, t0, steps) && NoCollisions(c, After(c, t0, steps))
    requires T.Representable(SplitCutoff(wall, window)) && wall <= After(c, t0, steps).now
    requires Handled(q, SplitCutoff(wall, window), read, After(c, t0, steps), id, tail, resp) && resp.Joined?
    requires Recognise(Gateway(), q.query).Some? && Recognise(Gateway(), q.query).value.0.NowStop?
    requires var g := QueryOf(q, SplitCutoff(wall, window));
      && Benign(u, g, row, read, After(c, t0, steps), id, tail)
      && (forall x :: u.bound(Trim(g.call.start), x) == Some(x - d))
    requires q.build(q.query).Some? &&
             u.ok(Ask(q.org, q.build(q.query).value, q.headers), tail.Instant(LiveAsk(q, SplitCutoff(wall, window))), direct)
    ensures e == tail.Instant(LiveAsk(q, SplitCutoff(wall, window)))
    ensures ServedOk(After(c, t0, steps), id) && SourceOf(After(c, t0, steps), id, f) && f.at <= After(c, t0, steps).now <= e
    ensures Settled(u, SplitCutoff(wall, window), f.at, e) ==>
              RelativeRows(u, row, read, SplitCutoff(wall, window), f.at, e, d, resp.payload, direct)
    ensures window > 0 && SplitCutoff(f.at, window) == SplitCutoff(wall, window) == SplitCutoff(e, window) ==>
              (e - d) - Min(f.at - d, SplitCutoff(wall, window)) < window
  {
    hide *;
    var cutoff := SplitCutoff(wall, window);
    QueryFacts(q, cutoff);
    CutoffBefore(wall, window);
    var g, ask := QueryOf(q, cutoff), LiveAsk(q, cutoff);
    e := tail.Instant(ask);
    JoinedIsMerged(u, row, read, q, cutoff, After(c, t0, steps), id, tail, resp);
    DirectGiven(u, row, read, After(c, t0, steps), id, q, g, tail.Outcome(ask).payload, e, resp.payload, direct);
    f := RelativeEndToEnd(u, g, row, read, c, t0, steps, id, tail.Outcome(ask).payload, e, resp.payload, direct, d);
    if window > 0 && SplitCutoff(f.at, window) == cutoff == SplitCutoff(e, window) {
      ExcessInWindow(cutoff, f.at, e, d, window);
    }
  }

  /**
    The whole gateway, for an absolute range: the rows of [cutoff - length, stop), whoever filled
    the cache and when, if nothing older than the cutoff was written since.
  */
  lemma GatewayAnswersAbsolute(u: Upstream, row: Pipeline, read: TimeReader, c: Config, t0: Time, steps: seq<Step>, id: Id,
                               q: Incoming, window: int, wall: T.Instant, tail: R.Route, resp: Response, direct: string,
                               start: T.Instant, stop: T.Instant) returns (f: Forward, e: T.Instant)
    requires Digests(c.hash) && Run(c, t0, steps) && NoCollisions(c, After(c, t0, steps))
    requires T.Representable(SplitCutoff(wall, window)) && T.Representable(SplitCutoff(wall, window) - (stop - start))
    requires Handled(q, SplitCutoff(wall, window), read, After(c, t0, steps), id, tail, resp) && resp.Joined?
    requires Recognise(Gateway(), q.query).Some? && stop - start <= 0x7FFF_FFFF_FFFF_FFFF
    requires var g := QueryOf(q, SplitCutoff(wall, window));
      && Benign(u, g, row, read, After(c, t0, steps), id, tail)
      && AbsoluteRange(q.query, g.frame.pre, g.frame.rest, start, stop)
    requires q.build(q.query).Some? &&
             u.ok(Ask(q.org, q.build(q.query).value, q.headers), tail.Instant(LiveAsk(q, SplitCutoff(wall, window))), direct)
    ensures e == tail.Instant(LiveAsk(q, SplitCutoff(wall, window)))
    ensures ServedOk(After(c, t0, steps), id) && SourceOf(After(c, t0, steps), id, f) && f.at <= After(c, t0, steps).now <= e
    ensures Settled(u, SplitCutoff(wall, window), f.at, e) ==>
              AbsoluteRows(u, row, read, SplitCutoff(wall, window), start, stop, e, resp.payload, direct)
    ensures window > 0 && stop <= wall ==> stop - SplitCutoff(wall, window) < window
  {
    hide *;
    var cutoff := SplitCutoff(wall, window);
    QueryFacts(q, cutoff);
    CutoffBefore(wall, window);
    var g, ask := QueryOf(q, cutoff), LiveAsk(q, cutoff);
    e := tail.Instant(ask);
    JoinedIsMerged(u, row, read, q, cutoff, After(c, t0, steps), id, tail, resp);
    DirectGiven(u, row, read, After(c, t0, steps), id, q, g, tail.Outcome(ask).payload, e, resp.payload, direct);
    f := AbsoluteEndToEnd(u, g, row, read, c, t0, steps, id, tail.Outcome(ask).payload, e, resp.payload, direct, start, stop);
  }

  /** The incoming query itself is the frame around its original range call. */
  lemma DirectGiven(u: Upstream, row: Pipeline, read: TimeReader, s: State, id: Id, q: Incoming, g: Query, live: string, e: T.Instant, out: string, direct: string)
    requires Merged(u, g, row, read, s, id, live, e, out)
    requires g.text == q.query && g.frame.org == q.org && g.frame.headers == q.headers && g.frame.build == q.build
    requires q.build(q.query).Some? && u.ok(Ask(q.org, q.build(q.query).value, q.headers), e, direct)
    ensures IsSplit(g) && Gives(u, g.frame, OriginalText(g), e, direct) && ServedOk(s, id)
  {
    hide Gateway, Recognise, Trim, T.Representable, Splits, Find, Runs, ReadsTimes, Matched, IsMerge, ServedOk, Truthful, CachedText, LiveText;
    OriginalCall(g.text, g.form, g.frame.pre, g.call);
  }

  // ---------- availability ----------

  /** A target of this name is configured and answers every request below 500. */
  ghost predicate AlwaysUp(cfg: U.Config, env: R.Env, name: string) {
    name in U.Names(cfg.targets) && forall i: nat, ask: Ask :: env(i).reply(name, ask).Answer? && env(i).reply(name, ask).status < 500
  }

  /**
    Availability of the handler: where Redis works, with an attempt for every name and one
    target that is always up, the gateway never answers 502, whatever the breakers say and
    whatever the other targets do.
  */
  lemma GatewayAvailable(q: Incoming, cutoff: T.Instant, fill: R.Route, tail: R.Route, resp: Response, good: string)
    requires BadGatewayBecause(q, cutoff, fill, tail, resp)
    requires tail.cfg == fill.cfg && tail.retries == fill.retries
    requires U.PositiveWeights(fill.cfg) && |U.Names(fill.cfg.targets)| <= fill.retries + 1
    requires AlwaysUp(fill.cfg, fill.env, good) && AlwaysUp(fill.cfg, tail.env, good)
    ensures resp != Rejected(502)
  {
    hide U.PositiveWeights, R.Conclude, R.Attempts, FillAsk, LiveAsk, SplitInTwo;
    RouteUp(fill, FillAsk(q, cutoff), good);
    RouteUp(tail, LiveAsk(q, cutoff), good);
  }

  lemma RouteUp(route: R.Route, ask: Ask, good: string)
    requires U.PositiveWeights(route.cfg) && |U.Names(route.cfg.targets)| <= route.retries + 1 && AlwaysUp(route.cfg, route.env, good)
    ensures route.Outcome(ask).Answered?
  {
    hide U.PositiveWeights, R.Conclude, R.Attempts, R.Limit;
    L.ForwardAvailable(route, ask, good);
  }
}
