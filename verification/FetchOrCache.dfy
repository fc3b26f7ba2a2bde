/**
  fetchOrCache and WaitForLock as the source writes them: one call runs from the first Get to
  its result, while other requests take any number of steps in between, and forwards through
  the retry loop on the shared target manager. Each call is shown to be a stretch of a run of
  the protocol, so everything proved about runs holds of the code.
*/
module FetchOrCache {
  import opened Text
  import opened Wire
  import opened CacheKey
  import opened CacheFill
  import opened CacheSafety
  import M = ManagerObject
  import R = Retry
  import U = Upstream

  /** What surrounds one call of this request: others move first, then the call has this outcome. */
  datatype Moment = Moment(others: seq<Step>, ok: bool, fault: Fault, draw: nat, token: string)

  predicate Mentions(step: Step, id: Id) {
    match step
    case Tick(_) => false
    case Evict(_) => false
    case _ => step.id == id
  }

  /** The log has grown, but by no forward of request id. */
  ghost predicate Quiet(log: seq<Forward>, log': seq<Forward>, id: Id) {
    log <= log' && forall j :: |log| <= j < |log'| ==> log'[j].id != id
  }

  lemma QuietTwice(a: seq<Forward>, b: seq<Forward>, c: seq<Forward>, id: Id)
    requires Quiet(a, b, id) && Quiet(b, c, id)
    ensures Quiet(a, c, id)
  {
  }

  /** Steps of others leave a request alone and do not turn back the clock. */
  lemma OthersLeaveAlone(c: Config, s: State, step: Step, id: Id)
    requires Enabled(c, s, step) && !Mentions(step, id) && id in s.reqs
    ensures var s' := Next(c, s, step);
            id in s'.reqs && s'.reqs[id] == s.reqs[id] && s.now <= s'.now && Quiet(s.log, s'.log, id)
  {
    hide Key, LockKey, Cacheable, JitteredTtl, WithAnswer;
  }

  /** The same request, perhaps further on, with its clock readings not in the future. */
  predicate SameRequest(r: Request, r': Request, now: Time) {
    r.org == r'.org && r.body == r'.body && r.headers == r'.headers &&
    (r'.pc.Holder? || r'.pc.Racing? ==> r'.pc.since <= now)
  }

  function TimeLeft(pc: Pc, now: Time): nat {
    if pc.Waiting? then (if now < pc.deadline then 1 + (pc.deadline - now) else 1) else 0
  }

  /** What a request asks upstream. */
  function AskOf(r: Request): Ask { Ask(r.org, r.body, r.headers) }

  ghost predicate Replied(log: seq<Forward>, id: Id, reply: Reply) {
    exists j :: 0 <= j < |log| && log[j].id == id && log[j].reply == reply
  }

  /** The manager after the call of request id that may have forwarded along the route. */
  ghost function FleetAfter(s: State, id: Id, route: R.Route): U.Fleet {
    if id in s.reqs && Forwarded(s.log, id) then route.Trace(AskOf(s.reqs[id])).fleet else route.fleet
  }

  /** If request id has forwarded, it was along the route: the logged reply is the outcome of that retry loop. */
  ghost predicate Via(s: State, id: Id, route: R.Route) {
    id in s.reqs && Forwarded(s.log, id) ==> Replied(s.log, id, route.Reply(AskOf(s.reqs[id])))
  }

  lemma QuietKeeps(log: seq<Forward>, log': seq<Forward>, id: Id)
    requires Quiet(log, log', id)
    ensures Forwarded(log, id) <==> Forwarded(log', id)
    ensures forall reply :: Replied(log, id, reply) ==> Replied(log', id, reply)
  {
    forall reply | Replied(log, id, reply) ensures Replied(log', id, reply) {
      var j :| 0 <= j < |log| && log[j].id == id && log[j].reply == reply;
      assert log'[j] == log[j];
    }
    if Forwarded(log, id) {
      var j :| 0 <= j < |log| && log[j].id == id;
      assert log'[j] == log[j];
    }
  }

  lemma LastReplied(log: seq<Forward>, f: Forward)
    ensures Forwarded(log + [f], f.id) && Replied(log + [f], f.id, f.reply)
  {
    assert (log + [f])[|log|] == f;
  }

  class World {
    const c: Config
    const t0: Time
    const env: nat -> Moment
    var s: State
    var k: nat
    ghost var steps: seq<Step>

    ghost predicate Valid()
      reads this
    {
      Run(c, t0, steps) && s == After(c, t0, steps)
    }

    /** Redis does what it is asked. */
    ghost predicate RedisWorks() {
      c.lockTtl >= 0 && forall i :: env(i).ok && env(i).fault.Fine?
    }

    constructor (c: Config, t0: Time, env: nat -> Moment)
      ensures Valid() && this.c == c && this.t0 == t0 && this.env == env && s == Init(t0) && steps == []
    {
      this.c, this.t0, this.env := c, t0, env;
      s, k, steps := Init(t0), 0, [];
    }

    /** One atomic step of the protocol. */
    method Do(step: Step)
      requires Valid() && Enabled(c, s, step)
      modifies this`s, this`steps
      ensures Valid() && s == Next(c, old(s), step) && steps == old(steps) + [step]
    {
      hide Next, Enabled;
      Extend(c, t0, steps, step);
      s, steps := Next(c, s, step), steps + [step];
    }

    /** The other requests move: those of the given steps that can be taken are taken. */
    method Others(id: Id) returns (m: Moment)
      requires Valid() && id in s.reqs
      modifies this
      ensures Valid() && old(steps) <= steps
      ensures id in s.reqs && s.reqs[id] == old(s).reqs[id] && old(s).now <= s.now && Quiet(old(s).log, s.log, id)
      ensures RedisWorks() ==> m.ok && m.fault.Fine?
    {
      hide Run, After, Next, Enabled;
      m := env(k);
      k := k + 1;
      var i := 0;
      while i < |m.others|
        invariant 0 <= i <= |m.others|
        invariant Valid() && old(steps) <= steps
        invariant id in s.reqs && s.reqs[id] == old(s).reqs[id] && old(s).now <= s.now && Quiet(old(s).log, s.log, id)
      {
        if !Mentions(m.others[i], id) && Enabled(c, s, m.others[i]) {
          OthersLeaveAlone(c, s, m.others[i], id);
          QuietTwice(old(s).log, s.log, Next(c, s, m.others[i]).log, id);
          Do(m.others[i]);
        }
        i := i + 1;
      }
    }

    /** cache.Get on the first read. */
    method Get(id: Id)
      requires Valid() && id in s.reqs && s.reqs[id].pc.Start?
      modifies this
      ensures Valid() && old(steps) <= steps && id in s.reqs && SameRequest(old(s).reqs[id], s.reqs[id], s.now)
      ensures Quiet(old(s).log, s.log, id)
      ensures s.reqs[id].pc.Missed? || s.reqs[id].pc == Done(Error) ||
              (s.reqs[id].pc.Done? && s.reqs[id].pc.result.Served? && s.reqs[id].pc.result.source.Hit?)
      ensures RedisWorks() ==> s.reqs[id].pc != Done(Error)
    {
      hide World.Valid, World.RedisWorks, Quiet, Key;
      var m := Others(id);
      Do(CacheFill.Get(id, m.ok));
    }

    method AcquireLock(id: Id) returns (locked: bool)
      requires Valid() && id in s.reqs && s.reqs[id].pc.Missed?
      modifies this
      ensures Valid() && old(steps) <= steps && id in s.reqs && SameRequest(old(s).reqs[id], s.reqs[id], s.now)
      ensures Quiet(old(s).log, s.log, id)
      ensures locked <==> s.reqs[id].pc.Holder?
      ensures !locked ==> s.reqs[id].pc == Done(Error) || (s.reqs[id].pc.Waiting? && s.reqs[id].pc.wake <= s.now)
      ensures RedisWorks() ==> s.reqs[id].pc != Done(Error)
    {
      hide World.Valid, Quiet, Key, LockKey;
      var m := Others(id);
      Do(SetNx(id, m.token, if c.lockTtl < 0 then Refused else m.fault));
      locked := s.reqs[id].pc.Holder?;
    }

    /** WaitForLock: poll the value until it is there, a poll fails or the deadline has passed. */
    method WaitForLock(id: Id)
      requires Valid() && id in s.reqs && s.reqs[id].pc.Waiting? && s.reqs[id].pc.wake <= s.now
      modifies this
      ensures Valid() && old(steps) <= steps && id in s.reqs && SameRequest(old(s).reqs[id], s.reqs[id], s.now)
      ensures Quiet(old(s).log, s.log, id)
      ensures (s.reqs[id].pc.Done? && s.reqs[id].pc.result.Served? && s.reqs[id].pc.result.source.HitWait?) ||
              (s.reqs[id].pc.Racing? && s.reqs[id].pc.source.MissRace?)
    {
      hide World.Valid, World.RedisWorks, Key, LockKey, Cacheable, Quiet;
      QuietAtFirst(s.log, id);
      var deadline := s.reqs[id].pc.deadline;
      while s.reqs[id].pc.Waiting?
        invariant Valid() && old(steps) <= steps && id in s.reqs && SameRequest(old(s).reqs[id], s.reqs[id], s.now)
        invariant Quiet(old(s).log, s.log, id)
        invariant s.reqs[id].pc.Waiting? ==> s.reqs[id].pc.deadline == deadline && s.reqs[id].pc.wake <= s.now
        invariant s.reqs[id].pc.Waiting? ||
                  (s.reqs[id].pc.Done? && s.reqs[id].pc.result.Served? && s.reqs[id].pc.result.source.HitWait?) ||
                  (s.reqs[id].pc.Racing? && s.reqs[id].pc.source.MissRace?)
        decreases TimeLeft(s.reqs[id].pc, s.now)
      {
        PollOnce(id, deadline, old(s).log);
      }
    }

    /** One round of WaitForLock: the loop test and, before the deadline, a Get and a pause. */
    method PollOnce(id: Id, deadline: Time, ghost log: seq<Forward>)
      requires Valid() && id in s.reqs && s.reqs[id].pc.Waiting? && s.reqs[id].pc.wake <= s.now && s.reqs[id].pc.deadline == deadline
      requires Quiet(log, s.log, id)
      modifies this
      ensures Valid() && old(steps) <= steps && id in s.reqs && SameRequest(old(s).reqs[id], s.reqs[id], s.now)
      ensures Quiet(log, s.log, id)
      ensures (s.reqs[id].pc.Waiting? && s.reqs[id].pc.deadline == deadline && s.reqs[id].pc.wake <= s.now &&
               old(s).now < s.now && old(s).now < deadline) ||
              (s.reqs[id].pc.Done? && s.reqs[id].pc.result.Served? && s.reqs[id].pc.result.source.HitWait?) ||
              (s.reqs[id].pc.Racing? && s.reqs[id].pc.source.MissRace?)
    {
      hide World.Valid, World.RedisWorks, Key, LockKey, Cacheable, Quiet;
      var _ := Others(id);
      QuietTwice(log, old(s).log, s.log, id);
      Do(CheckClock(id));
      if s.reqs[id].pc.Polling? {
        ghost var before := s.log;
        var m := Others(id);
        QuietTwice(log, before, s.log, id);
        Do(Poll(id, m.ok));
        if s.reqs[id].pc.Waiting? {
          Do(Tick(POLL_PAUSE));
        }
      }
    }

    /**
      A forward, with or without the lock: the request goes through the retry loop on the shared
      manager, and what the loop returns is logged.
    */
    method Forward(id: Id, m: M.Manager, retries: int, around: R.Env)
      requires Valid() && m.Valid() && id in s.reqs && (s.reqs[id].pc.Holder? || s.reqs[id].pc.Racing?)
      requires s.reqs[id].pc.since <= s.now
      modifies this, m
      ensures Valid() && m.Valid() && old(steps) <= steps && id in s.reqs && SameRequest(old(s).reqs[id], s.reqs[id], s.now)
      ensures var r, route := old(s).reqs[id], R.Route(m.cfg, old(m.View()), around, retries);
              var ask := AskOf(r);
        && m.View() == route.Trace(ask).fleet
        && s.reqs[id].pc == WithAnswer(r.pc, route.Reply(ask))
        && s.log != [] && Quiet(old(s).log, s.log[..|s.log| - 1], id)
        && s.log[|s.log| - 1] == CacheFill.Forward(id, r.org, r.body, r.headers, Later(r.pc.since, route.Instant(ask)), route.Reply(ask))
    {
      hide World.Valid, World.RedisWorks, Quiet, R.Attempts, R.Conclude, M.Manager.Valid, WithAnswer, Next, Enabled, SameRequest;
      var r := s.reqs[id];
      var _ := Others(id);
      var out, attempts := R.Forward(m, retries, around, AskOf(r));
      var at := Later(r.pc.since, if attempts == [] then 0 else attempts[|attempts| - 1].at);
      Finish(id, at, if out.Answered? then Answer(out.status, out.payload) else NetError, old(s).log);
    }

    /** The forward of a request ends with this reply, evaluated at this instant. */
    method Finish(id: Id, at: Time, reply: Reply, ghost log: seq<Forward>)
      requires Valid() && id in s.reqs && (s.reqs[id].pc.Holder? || s.reqs[id].pc.Racing?) && s.reqs[id].pc.since <= at
      requires Quiet(log, s.log, id)
      modifies this
      ensures Valid() && old(steps) <= steps && id in s.reqs && SameRequest(old(s).reqs[id], s.reqs[id], s.now)
      ensures var r := old(s).reqs[id];
        && s.reqs[id].pc == WithAnswer(r.pc, reply)
        && s.log != [] && Quiet(log, s.log[..|s.log| - 1], id)
        && s.log[|s.log| - 1] == CacheFill.Forward(id, r.org, r.body, r.headers, at, reply)
    {
      hide World.Valid, World.RedisWorks, Quiet, WithAnswer, Key;
      if at > s.now {
        Do(Tick(at - s.now));
      }
      HasMovedOn(s.reqs[id].pc, reply);
      Do(ForwardDone(id, at, reply));
      assert s.log[..|s.log| - 1] == old(s).log;
    }

    method Set(id: Id)
      requires Valid() && id in s.reqs && s.reqs[id].pc.Filled?
      modifies this
      ensures Valid() && old(steps) <= steps && id in s.reqs && SameRequest(old(s).reqs[id], s.reqs[id], s.now)
      ensures Quiet(old(s).log, s.log, id)
      ensures var pc := old(s).reqs[id].pc; s.reqs[id].pc == Releasing(pc.since, Served(Miss, pc.status, pc.payload))
    {
      hide World.Valid, World.RedisWorks, Quiet, Key, JitteredTtl;
      var m := Others(id);
      Do(SetValue(id, if m.draw <= 2 * c.jitter then m.draw else 0, m.fault));
    }

    method ReleaseLock(id: Id)
      requires Valid() && id in s.reqs && s.reqs[id].pc.Releasing?
      modifies this
      ensures Valid() && old(steps) <= steps && id in s.reqs && SameRequest(old(s).reqs[id], s.reqs[id], s.now)
      ensures Quiet(old(s).log, s.log, id)
      ensures s.reqs[id].pc == Done(old(s).reqs[id].pc.result)
    {
      hide World.Valid, World.RedisWorks, Quiet, Key, LockKey;
      var m := Others(id);
      Do(Release(id, m.fault));
    }

    /** A forward under the lock, the SET of a 2xx answer, and the deferred release. */
    method Fill(id: Id, m: M.Manager, retries: int, around: R.Env)
      requires Valid() && m.Valid() && id in s.reqs && s.reqs[id].pc.Holder? && s.reqs[id].pc.since <= s.now
      modifies this, m
      ensures Valid() && m.Valid() && old(steps) <= steps && id in s.reqs && SameRequest(old(s).reqs[id], s.reqs[id], s.now)
      ensures var route := R.Route(m.cfg, old(m.View()), around, retries);
              var ask := AskOf(old(s).reqs[id]);
        && m.View() == route.Trace(ask).fleet && Forwarded(s.log, id) && Replied(s.log, id, route.Reply(ask))
        && s.reqs[id].pc == Done(ResultOf(Miss, route.Reply(ask)))
    {
      hide Run, After, Quiet, Forwarded, Replied, R.Attempts, R.Conclude, M.Manager.Valid, R.Route.Trace, R.Route.Reply, R.Route.Instant;
      Forward(id, m, retries, around);
      ghost var log := s.log;
      JustReplied(log, id);
      if s.reqs[id].pc.Filled? {
        Set(id);
        QuietKeeps(log, s.log, id);
      }
      ghost var log' := s.log;
      ReleaseLock(id);
      QuietKeeps(log', s.log, id);
    }

    /** A forward without the lock. */
    method Race(id: Id, m: M.Manager, retries: int, around: R.Env)
      requires Valid() && m.Valid() && id in s.reqs && s.reqs[id].pc.Racing? && s.reqs[id].pc.since <= s.now
      modifies this, m
      ensures Valid() && m.Valid() && old(steps) <= steps && id in s.reqs && SameRequest(old(s).reqs[id], s.reqs[id], s.now)
      ensures var route := R.Route(m.cfg, old(m.View()), around, retries);
              var ask := AskOf(old(s).reqs[id]);
        && m.View() == route.Trace(ask).fleet && Forwarded(s.log, id) && Replied(s.log, id, route.Reply(ask))
        && s.reqs[id].pc == Done(ResultOf(old(s).reqs[id].pc.source, route.Reply(ask)))
    {
      hide Run, After, Quiet, Forwarded, Replied, R.Attempts, R.Conclude, M.Manager.Valid, R.Route.Trace, R.Route.Reply, R.Route.Instant;
      Forward(id, m, retries, around);
      JustReplied(s.log, id);
    }

    /** The part of fetchOrCache after a miss: fill the cache under the lock, or wait for whoever does. */
    method FillOrWait(id: Id, m: M.Manager, retries: int, around: R.Env)
      requires Valid() && m.Valid() && id in s.reqs && s.reqs[id].pc.Missed? && !Forwarded(s.log, id)
      modifies this, m
      ensures Valid() && m.Valid() && old(steps) <= steps && id in s.reqs && SameRequest(old(s).reqs[id], s.reqs[id], s.now)
      ensures s.reqs[id].pc.Done? && (s.reqs[id].pc.result.Served? ==> !s.reqs[id].pc.result.source.Bypass?)
      ensures var route := R.Route(m.cfg, old(m.View()), around, retries);
              Via(s, id, route) && m.View() == FleetAfter(s, id, route) &&
              (RedisWorks() && s.reqs[id].pc.result.Error? ==> Forwarded(s.log, id) && route.Reply(AskOf(s.reqs[id])).NetError?)
    {
      hide Run, After, Key, Cacheable, Quiet, Forwarded, Replied, World.RedisWorks, R.Attempts, R.Conclude, M.Manager.Valid, R.Route.Trace, R.Route.Reply;
      var locked := AcquireLock(id);
      QuietKeeps(old(s).log, s.log, id);
      if locked {
        Fill(id, m, retries, around);
      } else if s.reqs[id].pc.Waiting? {
        ghost var log := s.log;
        WaitForLock(id);
        QuietKeeps(log, s.log, id);
        if s.reqs[id].pc.Racing? {
          Race(id, m, retries, around);
        }
      }
    }

    /**
      fetchOrCache: whatever the others do in between and whatever fails, the call is part of
      a run of the protocol and ends with its result; a served payload is the request's own
      answer or, for a hit, that of an earlier 2xx forward for the same key. If it forwards, it
      does so through the retry loop on the manager it was given, which is otherwise left alone.
      Where Redis works, the only error is that of the retry loop.
    */
    method FetchOrCache(id: Id, org: string, body: string, headers: Headers, m: M.Manager, retries: int, around: R.Env) returns (res: Result)
      requires Valid() && m.Valid() && id !in s.reqs && Digests(c.hash)
      modifies this, m
      ensures Valid() && m.Valid() && old(steps) <= steps
      ensures id in s.reqs && s.reqs[id] == Request(org, body, headers, Done(res))
      ensures Honest(c, s.log, id, s.reqs[id], res)
      ensures res.Served? ==>
        (res.source.Bypass? <==> headers.accept != "" && forall k: nat ::
           !AnyCaseAt(headers.accept, "csv", "CSV", k) && !AnyCaseAt(headers.accept, "arrow", "ARROW", k))
      ensures var route := R.Route(m.cfg, old(m.View()), around, retries);
              Via(s, id, route) && m.View() == FleetAfter(s, id, route) &&
              (RedisWorks() && res.Error? ==> Forwarded(s.log, id) && route.Reply(Ask(org, body, headers)).NetError?)
    {
      hide Run, After, Key, Cacheable, Digests, Backed, Own, Forwarded, Replied, Quiet, World.RedisWorks, R.Attempts, R.Conclude, M.Manager.Valid,
           R.Route.Trace, R.Route.Reply;
      InvReached(c, t0, steps);
      CacheableFormats(headers.accept);
      NewcomerNotForwarded(c, s, id);
      Do(Begin(id, org, body, headers));
      if !Cacheable(headers.accept) {
        Race(id, m, retries, around);
      } else {
        ghost var log := s.log;
        Get(id);
        QuietKeeps(log, s.log, id);
        if s.reqs[id].pc.Missed? {
          FillOrWait(id, m, retries, around);
        }
      }
      res := s.reqs[id].pc.result;
      InvReached(c, t0, steps);
      HonestNow(c, s, id);
    }
  }

  function Later(a: Time, b: Time): Time { if a < b then b else a }

  /** The result of a forward: its answer, or an error. */
  function ResultOf(source: Source, reply: Reply): Result {
    if reply.NetError? then Error else Served(source, reply.status, reply.payload)
  }

  lemma HasMovedOn(pc: Pc, reply: Reply)
    requires pc.Holder? || pc.Racing?
    ensures !WithAnswer(pc, reply).Holder? && !WithAnswer(pc, reply).Racing?
  {
  }

  lemma QuietAtFirst(log: seq<Forward>, id: Id)
    ensures Quiet(log, log, id)
  {
  }

  lemma JustReplied(log: seq<Forward>, id: Id)
    requires log != [] && log[|log| - 1].id == id
    ensures Forwarded(log, id) && Replied(log, id, log[|log| - 1].reply)
  {
    var f := log[|log| - 1];
    assert log == log[..|log| - 1] + [f];
    LastReplied(log[..|log| - 1], f);
  }

  lemma NewcomerNotForwarded(c: Config, s: State, id: Id)
    requires Inv(c, s) && id !in s.reqs
    ensures !Forwarded(s.log, id)
  {
    hide StoreSound, RequestsSound;
  }

  lemma HonestNow(c: Config, s: State, id: Id)
    requires Inv(c, s) && id in s.reqs && s.reqs[id].pc.Done?
    ensures Honest(c, s.log, id, s.reqs[id], s.reqs[id].pc.result)
  {
    hide StoreSound, LogSound, Honest;
    assert HonestRequest(c, s.log, id, s.reqs[id]);
  }
}
