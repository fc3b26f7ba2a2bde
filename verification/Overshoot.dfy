/**
  How far back the excess of a relative range can reach, with no hypothesis on when its segments
  are evaluated: the cached query spells its cutoff, so no request that the gateway produces
  for it begins before the cutoff, and no forward for it is evaluated before the cutoff.
*/
module Overshoot {
  import opened Text
  import opened Wire
  import opened CacheKey
  import opened CacheFill
  import opened FluxSplit
  import opened RangeCall
  import opened SplitLaws
  import opened Meaning
  import opened EndToEnd
  import T = Rfc3339

  // ---------- requests that begin late are evaluated late ----------

  predicate Asks(r: Request, org: string, body: string) { r.org == org && r.body == body }

  /** Nothing has happened for this question before t. */
  ghost predicate NotBefore(s: State, org: string, body: string, t: Time) {
    && (forall id :: id in s.reqs && Asks(s.reqs[id], org, body) ==>
          t <= s.now && (s.reqs[id].pc.Holder? || s.reqs[id].pc.Racing? ==> t <= s.reqs[id].pc.since))
    && (forall j :: 0 <= j < |s.log| && s.log[j].org == org && s.log[j].body == body ==> t <= s.log[j].at)
  }

  lemma NotBeforeKept(c: Config, s: State, step: Step, org: string, body: string, t: Time)
    requires NotBefore(s, org, body, t) && Enabled(c, s, step)
    requires step.Begin? && step.org == org && step.body == body ==> t <= s.now
    ensures NotBefore(Next(c, s, step), org, body, t)
  {
    hide Next, Enabled, Asks;
    var s' := Next(c, s, step);
    forall id | id in s'.reqs && Asks(s'.reqs[id], org, body)
      ensures t <= s'.now && (s'.reqs[id].pc.Holder? || s'.reqs[id].pc.Racing? ==> t <= s'.reqs[id].pc.since)
    {
      RequestNotBefore(c, s, step, org, body, t, id);
    }
    LogNotBefore(c, s, step, org, body, t);
  }

  lemma RequestNotBefore(c: Config, s: State, step: Step, org: string, body: string, t: Time, id: Id)
    requires NotBefore(s, org, body, t) && Enabled(c, s, step)
    requires step.Begin? && step.org == org && step.body == body ==> t <= s.now
    requires id in Next(c, s, step).reqs && Asks(Next(c, s, step).reqs[id], org, body)
    ensures var s' := Next(c, s, step);
            t <= s'.now && (s'.reqs[id].pc.Holder? || s'.reqs[id].pc.Racing? ==> t <= s'.reqs[id].pc.since)
  {
    hide Key, LockKey, Cacheable, JitteredTtl, WithAnswer;
    if step.ForwardDone? {
      AnswerEnds(s.reqs[step.id].pc, step.reply);
    }
  }

  lemma LogNotBefore(c: Config, s: State, step: Step, org: string, body: string, t: Time)
    requires NotBefore(s, org, body, t) && Enabled(c, s, step)
    ensures var log := Next(c, s, step).log;
            forall j :: 0 <= j < |log| && log[j].org == org && log[j].body == body ==> t <= log[j].at
  {
    hide Key, LockKey, Cacheable, JitteredTtl, WithAnswer;
  }

  lemma AnswerEnds(pc: Pc, reply: Reply)
    requires pc.Holder? || pc.Racing?
    ensures !WithAnswer(pc, reply).Holder? && !WithAnswer(pc, reply).Racing?
  {
  }

  /** Requests for this question begin at t or later. */
  ghost predicate BeginsFrom(c: Config, t0: Time, steps: seq<Step>, org: string, body: string, t: Time)
    requires Run(c, t0, steps)
  {
    forall i :: 0 <= i < |steps| && steps[i].Begin? && steps[i].org == org && steps[i].body == body ==> t <= At(c, t0, steps, i).now
  }

  lemma {:induction false} NothingBefore(c: Config, t0: Time, steps: seq<Step>, org: string, body: string, t: Time)
    requires Run(c, t0, steps) && BeginsFrom(c, t0, steps, org, body, t)
    ensures NotBefore(After(c, t0, steps), org, body, t)
    decreases |steps|
  {
    hide Next, Enabled;
    if steps != [] {
      var n := |steps| - 1;
      var p := steps[..n];
      forall i | 0 <= i < n && p[i].Begin? && p[i].org == org && p[i].body == body ensures t <= At(c, t0, p, i).now {
        assert p[..i] == steps[..i] && p[i] == steps[i];
        assert At(c, t0, p, i) == At(c, t0, steps, i);
      }
      NothingBefore(c, t0, p, org, body, t);
      if steps[n].Begin? && steps[n].org == org && steps[n].body == body {
        assert t <= At(c, t0, steps, n).now;
      }
      NotBeforeKept(c, After(c, t0, p), steps[n], org, body, t);
    }
  }

  // ---------- requests that the gateway produces ----------

  /** The query of every body that build makes is the text it was made from. */
  ghost predicate Holds(queryIn: string -> string, build: string -> Option<string>) {
    forall x :: build(x).Some? ==> queryIn(build(x).value) == x
  }

  /** body is the cached segment of a query with one range call, cut at this cutoff. */
  ghost predicate CutAt(build: string -> Option<string>, q: string, cutoff: T.Instant, body: string) {
    && T.Representable(cutoff) && SplitNowQuery(Gateway(), q, cutoff).Some? && CachedBody(build, q, cutoff) == Some(body)
    && Recognise(Gateway(), q).Some? && OnlyOpening(q, |Recognise(Gateway(), q).value.1|)
  }

  /** The gateway, handling some request at this instant with some freshness window, asks for this body as a cached segment. */
  ghost predicate Produced(queryIn: string -> string, body: string, now: T.Instant) {
    exists build, q, window :: Holds(queryIn, build) && CutAt(build, q, SplitCutoff(now, window), body)
  }

  ghost predicate AllProduced(c: Config, t0: Time, steps: seq<Step>, queryIn: string -> string, org: string, body: string)
    requires Run(c, t0, steps)
  {
    forall i :: 0 <= i < |steps| && steps[i].Begin? && steps[i].org == org && steps[i].body == body ==>
      Produced(queryIn, body, At(c, t0, steps, i).now)
  }

  lemma BodySpellsCutoff(queryIn: string -> string, build: string -> Option<string>, q: string, cutoff: T.Instant, body: string)
    requires Holds(queryIn, build) && CutAt(build, q, cutoff, body)
    ensures SpelledCutoff(queryIn(body)) == Some(cutoff)
  {
    hide SplitNowQuery, Gateway, Recognise, OnlyOpening, T.Representable, SpelledCutoff;
    CachedSpellsCutoff(q, cutoff);
  }

  /** A body that spells a cutoff is not produced before it. */
  lemma ProducedLate(queryIn: string -> string, body: string, cutoff: T.Instant, now: T.Instant)
    requires Produced(queryIn, body, now) && SpelledCutoff(queryIn(body)) == Some(cutoff)
    ensures cutoff <= now
  {
    hide SpelledCutoff, CutAt, Holds, SplitCutoff;
    var build, q, window :| Holds(queryIn, build) && CutAt(build, q, SplitCutoff(now, window), body);
    BodySpellsCutoff(queryIn, build, q, SplitCutoff(now, window), body);
    CutoffNotAfter(now, window);
  }

  lemma CutoffNotAfter(now: T.Instant, window: int)
    ensures SplitCutoff(now, window) <= now && (window > 0 ==> now < SplitCutoff(now, window) + window)
  {
  }

  /** No forward for a cached segment is evaluated before its cutoff. */
  lemma EvaluatedAfterCutoff(c: Config, t0: Time, steps: seq<Step>, queryIn: string -> string, org: string, body: string, cutoff: T.Instant, f: Forward)
    requires Run(c, t0, steps) && AllProduced(c, t0, steps, queryIn, org, body) && SpelledCutoff(queryIn(body)) == Some(cutoff)
    requires f in After(c, t0, steps).log && f.org == org && f.body == body
    ensures cutoff <= f.at
  {
    hide Run, After, SpelledCutoff, Produced;
    forall i | 0 <= i < |steps| && steps[i].Begin? && steps[i].org == org && steps[i].body == body
      ensures cutoff <= At(c, t0, steps, i).now
    {
      ProducedLate(queryIn, body, cutoff, At(c, t0, steps, i).now);
    }
    NothingBefore(c, t0, steps, org, body, cutoff);
  }

  /**
    The excess of the relative theorem, bounded: f is the forward a cached segment comes from,
    wall is when the handler chose the cutoff, e when the live segment was evaluated. Where
    requests for this question are those the gateway produces, the rows in excess span less
    than the freshness window plus what has passed since the cutoff was chosen.
  */
  lemma ExcessBounded(c: Config, t0: Time, steps: seq<Step>, id: Id, f: Forward, queryIn: string -> string,
                      build: string -> Option<string>, q: string, window: int, wall: T.Instant, e: T.Instant, d: nat)
    requires Run(c, t0, steps) && ServedOk(After(c, t0, steps), id) && SourceOf(After(c, t0, steps), id, f)
    requires window > 0 && wall <= e && Holds(queryIn, build)
    requires var r := After(c, t0, steps).reqs[id];
             CutAt(build, q, SplitCutoff(wall, window), r.body) && AllProduced(c, t0, steps, queryIn, r.org, r.body)
    ensures SplitCutoff(wall, window) <= f.at
    ensures (e - d) - Min(f.at - d, SplitCutoff(wall, window)) < window + (e - wall)
  {
    hide Run, After, CutAt, AllProduced, Holds, SplitCutoff, SpelledCutoff, Is2xx;
    var r, cutoff := After(c, t0, steps).reqs[id], SplitCutoff(wall, window);
    BodySpellsCutoff(queryIn, build, q, cutoff, r.body);
    EvaluatedAfterCutoff(c, t0, steps, queryIn, r.org, r.body, cutoff, f);
    CutoffNotAfter(wall, window);
  }
}
