/**
  The split path of handleQuery in internal/gateway/server.go from end to end: the cached
  segment comes out of a run of the cache-fill protocol, the live segment from a target, and
  the merged answer is compared with the unsplit query evaluated at the same instant.
*/
module EndToEnd {
  import opened Text
  import opened Wire
  import opened CacheKey
  import opened CacheFill
  import opened CacheSafety
  import opened CacheHits
  import opened FluxSplit
  import opened RangeCall
  import opened SplitLaws
  import opened CsvMerge
  import opened MergeLaws
  import opened Meaning
  import T = Rfc3339

  /** Every 2xx forward of the log is an answer the targets give. */
  ghost predicate Truthful(u: Upstream, log: seq<Forward>) {
    forall j :: 0 <= j < |log| && log[j].reply.Answer? && Is2xx(log[j].reply.status) ==>
      u.ok(Ask(log[j].org, log[j].body, log[j].headers), log[j].at, log[j].reply.payload)
  }

  /** Request id has been served a 2xx payload. */
  predicate ServedOk(s: State, id: Id) {
    id in s.reqs && s.reqs[id].pc.Done? && s.reqs[id].pc.result.Served? && Is2xx(s.reqs[id].pc.result.status)
  }

  /** f is where the payload of request id comes from: a 2xx forward of the same question in the same format, not later than now. */
  ghost predicate SourceOf(s: State, id: Id, f: Forward)
    requires ServedOk(s, id)
  {
    f in s.log && SameQuestion(f, s.reqs[id], s.reqs[id].pc.result.payload) && f.headers == s.reqs[id].headers && f.at <= s.now
  }

  /** Whatever its source, a served 2xx payload answers this very question. */
  lemma PayloadSource(c: Config, t0: Time, steps: seq<Step>, id: Id) returns (f: Forward)
    requires Digests(c.hash) && Run(c, t0, steps) && NoCollisions(c, After(c, t0, steps))
    requires ServedOk(After(c, t0, steps), id) && OneFormat(After(c, t0, steps), After(c, t0, steps).reqs[id])
    ensures SourceOf(After(c, t0, steps), id, f)
  {
    hide Run, After, NoCollisions, Digests, Is2xx, StoreSound, RequestsSound, Key, Inv, Alive, Cacheable;
    var s := After(c, t0, steps);
    var r := s.reqs[id];
    InvReached(c, t0, steps);
    CacheSoundness(c, t0, steps, id);
    if IsHit(r) {
      var i: nat, g :| ServedBy(c, t0, steps, id, i, r.pc.result) && EarlierAnswer(c, t0, steps, id, i, g);
      f := g;
      LogOnlyGrows(c, t0, steps, i);
      SameText(c, t0, steps, i, id);
    } else {
      var j :| 0 <= j < |s.log| && s.log[j].id == id && s.log[j].reply == Answer(r.pc.result.status, r.pc.result.payload);
      f := s.log[j];
    }
    LogTells(c, s, f);
  }

  /** A split request that was answered by merging: request id fetched the cached segment in a run, live is the live payload evaluated at e. */
  ghost predicate Merged(u: Upstream, g: Query, row: Pipeline, read: TimeReader, s: State, id: Id, live: string, e: T.Instant, out: string) {
    && IsSplit(g) && ReadsTimes(u) && Runs(u, g.frame, RowByRow(row), read)
    && ServedOk(s, id) && s.reqs[id].org == g.frame.org && s.reqs[id].headers == g.frame.headers
    && g.frame.build(g.frame.pre + CachedText(g) + g.frame.rest) == Some(s.reqs[id].body)
    && Gives(u, g.frame, LiveText(g), e, live) && s.now <= e
    && IsMerge(read, s.reqs[id].pc.result.payload, live, out)
    && Truthful(u, s.log) && OneFormat(s, s.reqs[id])
  }

  /**
    The cached payload was given by the targets to this very cached query, at the time of some
    forward f in the run; if nothing before the cutoff has changed since, the two answers compare.
  */
  lemma MergedIsCompared(u: Upstream, g: Query, row: Pipeline, read: TimeReader, c: Config, t0: Time, steps: seq<Step>, id: Id,
                         live: string, e: T.Instant, out: string, direct: string) returns (f: Forward)
    requires Digests(c.hash) && Run(c, t0, steps) && NoCollisions(c, After(c, t0, steps))
    requires Merged(u, g, row, read, After(c, t0, steps), id, live, e, out) && Gives(u, g.frame, OriginalText(g), e, direct)
    ensures SourceOf(After(c, t0, steps), id, f) && f.reply.Answer? && f.at <= After(c, t0, steps).now <= e
    ensures Settled(u, g.cutoff, f.at, e) ==> Compared(u, g, row, read, Pair(f.reply.payload, f.at, live, e), out, direct)
  {
    hide Run, After, NoCollisions, Digests, Is2xx, IsSplit, ReadsTimes, Runs, IsMerge, Settled, OriginalText, OneFormat;
    f := PayloadSource(c, t0, steps, id);
    var s := After(c, t0, steps);
    var j :| 0 <= j < |s.log| && s.log[j] == f;
    CachedGiven(u, g, f);
  }

  lemma CachedGiven(u: Upstream, g: Query, f: Forward)
    requires IsSplit(g) && f.reply.Answer? && u.ok(Ask(f.org, f.body, f.headers), f.at, f.reply.payload)
    requires f.org == g.frame.org && f.headers == g.frame.headers && g.frame.build(g.frame.pre + CachedText(g) + g.frame.rest) == Some(f.body)
    ensures Gives(u, g.frame, CachedText(g), f.at, f.reply.payload)
  {
    hide IsSplit, CachedText;
  }

  /** The rows of a merged relative range, and their relation to the unsplit answer. */
  ghost predicate RelativeRows(u: Upstream, row: Pipeline, read: TimeReader, cutoff: T.Instant, e0: T.Instant, e: T.Instant, d: nat, out: string, direct: string) {
    var lo := Min(e0 - d, cutoff);
    && RowSet(read, out) == Lines(u.db(e), row, lo, e)
    && RowSet(read, direct) == Lines(u.db(e), row, e - d, e)
    && RowSet(read, direct) <= RowSet(read, out)
    && RowSet(read, out) == RowSet(read, direct) + Lines(u.db(e), row, lo, e - d)
  }

  /**
    End to end, for the last d up to now(). Let f be the forward the cached segment comes from,
    on this or any earlier request with the same key. If nothing older than the cutoff was
    written between f and the live evaluation e, the answer is the rows of [f.at - d, e) (or of
    [cutoff, e) if that reaches further back): no row of the unsplit answer is lost, and the
    rows in excess are those before e - d.
  */
  lemma RelativeEndToEnd(u: Upstream, g: Query, row: Pipeline, read: TimeReader, c: Config, t0: Time, steps: seq<Step>, id: Id,
                         live: string, e: T.Instant, out: string, direct: string, d: nat) returns (f: Forward)
    requires Digests(c.hash) && Run(c, t0, steps) && NoCollisions(c, After(c, t0, steps))
    requires Merged(u, g, row, read, After(c, t0, steps), id, live, e, out) && Gives(u, g.frame, OriginalText(g), e, direct)
    requires g.form.NowStop? && g.cutoff <= e
    requires forall x :: u.bound(Trim(g.call.start), x) == Some(x - d)
    ensures SourceOf(After(c, t0, steps), id, f) && f.at <= After(c, t0, steps).now <= e
    ensures Settled(u, g.cutoff, f.at, e) ==> RelativeRows(u, row, read, g.cutoff, f.at, e, d, out, direct)
  {
    hide Run, After, NoCollisions, Digests, Merged, Compared, Gives, OriginalText, Trim, RowSet, Lines, SourceOf, Gateway, Settled;
    f := MergedIsCompared(u, g, row, read, c, t0, steps, id, live, e, out, direct);
    if Settled(u, g.cutoff, f.at, e) {
      RelativeRange(u, g, row, read, Pair(f.reply.payload, f.at, live, e), out, direct, d);
    }
  }

  /** Within the window of the cutoff the excess of a relative range spans less than the freshness window. */
  lemma ExcessInWindow(cutoff: T.Instant, e0: T.Instant, e: T.Instant, d: nat, window: int)
    requires window > 0 && SplitCutoff(e0, window) == cutoff == SplitCutoff(e, window)
    ensures (e - d) - Min(e0 - d, cutoff) < window && (e0 - d <= cutoff ==> Min(e0 - d, cutoff) == e0 - d)
  {
    hide SplitCutoff;
  }

  /** The rows of a merged range whose start is sent as it is, and their relation to the unsplit answer; the start means a0 at first and a in the end. */
  ghost predicate MovingRows(u: Upstream, row: Pipeline, read: TimeReader, cutoff: T.Instant, a0: T.Instant, a: T.Instant, b: T.Instant, e: T.Instant, out: string, direct: string) {
    var lo, hi := if a0 < cutoff then a0 else cutoff, if b > cutoff then b else cutoff;
    && RowSet(read, out) == Lines(u.db(e), row, lo, hi)
    && RowSet(read, direct) == Lines(u.db(e), row, a, b)
    && RowSet(read, direct) <= RowSet(read, out)
    && (a <= b ==> RowSet(read, out) == RowSet(read, direct) + Lines(u.db(e), row, lo, a) + Lines(u.db(e), row, b, hi))
  }

  /**
    End to end, for any form of stop and any start that is sent as it is: from is what the start
    means at an instant, which never goes back. This covers v.timeRangeStop and, for absolute
    stops, starts as -1h.
  */
  lemma MovingEndToEnd(u: Upstream, g: Query, row: Pipeline, read: TimeReader, c: Config, t0: Time, steps: seq<Step>, id: Id,
                       live: string, e: T.Instant, out: string, direct: string, from: T.Instant -> T.Instant, b: T.Instant) returns (f: Forward)
    requires Digests(c.hash) && Run(c, t0, steps) && NoCollisions(c, After(c, t0, steps))
    requires Merged(u, g, row, read, After(c, t0, steps), id, live, e, out) && Gives(u, g.frame, OriginalText(g), e, direct)
    requires KeepsStart(g) && u.bound(g.call.stop, e) == Some(b)
    requires forall x :: u.bound(Trim(g.call.start), x) == Some(from(x))
    requires forall x, y :: x <= y ==> from(x) <= from(y)
    ensures SourceOf(After(c, t0, steps), id, f) && f.at <= After(c, t0, steps).now <= e
    ensures Settled(u, g.cutoff, f.at, e) ==> MovingRows(u, row, read, g.cutoff, from(f.at), from(e), b, e, out, direct)
  {
    hide Run, After, NoCollisions, Digests, Merged, Compared, Gives, OriginalText, Trim, RowSet, Lines, SourceOf, Gateway, Settled, KeepsStart;
    f := MergedIsCompared(u, g, row, read, c, t0, steps, id, live, e, out, direct);
    if Settled(u, g.cutoff, f.at, e) {
      MovingStart(u, g, row, read, Pair(f.reply.payload, f.at, live, e), out, direct, from(f.at), from(e), b);
    }
  }

  /** The rows of a merged absolute range, and their relation to the unsplit answer. */
  ghost predicate AbsoluteRows(u: Upstream, row: Pipeline, read: TimeReader, cutoff: T.Instant, start: T.Instant, stop: T.Instant, e: T.Instant, out: string, direct: string) {
    var lo := cutoff - (stop - start);
    && RowSet(read, out) == Lines(u.db(e), row, lo, stop)
    && RowSet(read, direct) == Lines(u.db(e), row, start, stop)
    && RowSet(read, out) == RowSet(read, direct) + Lines(u.db(e), row, lo, start)
    && start - lo == stop - cutoff > 0
  }

  /** End to end, for an absolute range: the rows of [cutoff - length, stop), whoever filled the cache and when. */
  lemma AbsoluteEndToEnd(u: Upstream, g: Query, row: Pipeline, read: TimeReader, c: Config, t0: Time, steps: seq<Step>, id: Id,
                         live: string, e: T.Instant, out: string, direct: string, start: T.Instant, stop: T.Instant) returns (f: Forward)
    requires Digests(c.hash) && Run(c, t0, steps) && NoCollisions(c, After(c, t0, steps))
    requires Merged(u, g, row, read, After(c, t0, steps), id, live, e, out) && Gives(u, g.frame, OriginalText(g), e, direct)
    requires AbsoluteRange(g.text, g.frame.pre, g.frame.rest, start, stop) && stop - start <= 0x7FFF_FFFF_FFFF_FFFF
    requires T.Representable(g.cutoff - (stop - start))
    ensures SourceOf(After(c, t0, steps), id, f) && f.at <= After(c, t0, steps).now <= e
    ensures Settled(u, g.cutoff, f.at, e) ==> AbsoluteRows(u, row, read, g.cutoff, start, stop, e, out, direct)
  {
    hide Run, After, NoCollisions, Digests, Merged, Compared, Gives, OriginalText, RowSet, Lines, SourceOf, Gateway, Settled, AbsoluteRange, T.Representable;
    f := MergedIsCompared(u, g, row, read, c, t0, steps, id, live, e, out, direct);
    if Settled(u, g.cutoff, f.at, e) {
      AbsoluteAnswer(u, g, row, read, Pair(f.reply.payload, f.at, live, e), out, direct, start, stop);
    }
  }

  /** The body sent for the cached segment of q. */
  function CachedBody(build: string -> Option<string>, q: string, cutoff: T.Instant): Option<string> {
    var sp := SplitNowQuery(Gateway(), q, cutoff);
    if sp.None? then None else build(sp.value.0)
  }

  /** Different texts give different bodies, as far as bodies can be built. */
  ghost predicate Faithful(build: string -> Option<string>) {
    forall x, y :: build(x).Some? && build(x) == build(y) ==> x == y
  }

  /**
    Sharing across requests: two absolute ranges in the same surrounding text look up the same
    cache key exactly when organisation, cutoff and length agree.
  */
  lemma SharedKey(hash: Hash, build: string -> Option<string>, org: string, org': string, pre: string, rest: string,
                  q: string, start: T.Instant, stop: T.Instant, cutoff: T.Instant, b: string,
                  q': string, start': T.Instant, stop': T.Instant, cutoff': T.Instant, b': string)
    requires AbsoluteRange(q, pre, rest, start, stop) && cutoff < stop
    requires AbsoluteRange(q', pre, rest, start', stop') && cutoff' < stop'
    requires T.Representable(cutoff) && T.Representable(cutoff - Sub(stop, start))
    requires T.Representable(cutoff') && T.Representable(cutoff' - Sub(stop', start'))
    requires Faithful(build) && CachedBody(build, q, cutoff) == Some(b) && CachedBody(build, q', cutoff') == Some(b')
    requires Digests(hash) && NoCollision(hash, Preimage(org, b), Preimage(org', b'))
    ensures Key(hash, org, b) == Key(hash, org', b') <==> org == org' && cutoff == cutoff' && Sub(stop, start) == Sub(stop', start')
  {
    hide AbsoluteRange, T.Representable, Digests, Key, NoCollision, Preimage, SplitNowQuery, Gateway, Sub;
    CachedQueryCanonical(pre, rest, q, start, stop, cutoff, q', start', stop', cutoff');
    KeyInjective(hash, org, b, org', b');
  }
}
