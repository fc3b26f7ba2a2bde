/**
  The cache-fill protocol: fetchOrCache in internal/gateway/server.go over the Redis calls of
  internal/cache/service.go. Any number of requests interleave, one Redis call, clock read
  or finished forward at a time, over one store that holds values and locks alike.
*/
module CacheFill {
  import opened Text
  import opened Wire
  import opened CacheKey
  import T = Rfc3339

  type Id = nat
  type Time = int

  datatype Config = Config(
    hash: Hash,
    lockTtl: int,      // CacheLockTTL
    lockWait: int,     // CacheLockWait
    cacheTtl: int,     // CacheTTL
    jitter: int)       // CacheTTLJitter

  /** The pause between two polls of WaitForLock, 30 ms. */
  const POLL_PAUSE: int := 30_000_000

  /** writer is who stored the entry; the protocol never reads it. */
  datatype Entry = Entry(data: string, writer: Id, expires: Option<Time>)

  datatype Source = Hit | HitWait | Miss | MissRace | Bypass

  datatype Result = Error | Served(source: Source, status: nat, payload: string)

  /** Where a request stands in fetchOrCache. */
  datatype Pc =
    | Start                                                  // before the first Get
    | Missed                                                 // the key was absent
    | Holder(since: Time)                                    // won the lock, forwarding
    | Filled(since: Time, status: nat, payload: string)      // has a 2xx answer to store
    | Releasing(since: Time, result: Result)                 // before the deferred DEL
    | Waiting(deadline: Time, wake: Time)                    // at the loop test of WaitForLock
    | Polling(deadline: Time)                                // before the Get of WaitForLock
    | Racing(source: Source, since: Time)                    // forwarding without the lock
    | Done(result: Result)
  {
    /** Between a won SETNX and the DEL. */
    predicate InSection() { Holder? || Filled? || Releasing? }
  }

  datatype Request = Request(org: string, body: string, headers: Headers, pc: Pc)

  /** A finished forward: at is the instant the targets evaluated the query. */
  datatype Forward = Forward(id: Id, org: string, body: string, headers: Headers, at: Time, reply: Reply)

  datatype State = State(now: Time, store: map<string, Entry>, reqs: map<Id, Request>, log: seq<Forward>)

  /** What becomes of a Redis write: done, done but the reply was lost, or not done. */
  datatype Fault = Fine | Lost | Refused

  datatype Step =
    | Tick(dt: nat)
    | Begin(id: Id, org: string, body: string, headers: Headers)
    | Get(id: Id, ok: bool)
    | SetNx(id: Id, token: string, fault: Fault)
    | CheckClock(id: Id)
    | Poll(id: Id, ok: bool)
    | ForwardDone(id: Id, at: Time, reply: Reply)
    | SetValue(id: Id, draw: nat, fault: Fault)
    | Release(id: Id, fault: Fault)
    | Evict(key: string)

  // ---------- pieces ----------

  /** Only CSV and Arrow answers are cached. */
  predicate Cacheable(accept: string) {
    accept == "" || Contains(Lower(accept), "csv") || Contains(Lower(accept), "arrow")
  }

  /** The formats that are cached: none given, or one that names CSV or Arrow, in any mix of cases. */
  lemma CacheableFormats(accept: string)
    ensures Cacheable(accept) <==>
      accept == "" || (exists k: nat :: AnyCaseAt(accept, "csv", "CSV", k)) || (exists k: nat :: AnyCaseAt(accept, "arrow", "ARROW", k))
  {
    hide Contains, Lower;
    ContainsLower(accept, "csv", "CSV");
    ContainsLower(accept, "arrow", "ARROW");
  }

  function KeyOf(c: Config, r: Request): string { Key(c.hash, r.org, r.body) }

  function LockOf(c: Config, r: Request): string { LockKey(KeyOf(c, r)) }

  predicate Alive(s: State, key: string) {
    key in s.store && (s.store[key].expires.Some? ==> s.now < s.store[key].expires.value)
  }

  /** Redis keeps an entry without a positive time to live for ever. */
  function Expiry(now: Time, ttl: int): Option<Time> {
    if ttl > 0 then Some(now + ttl) else None
  }

  /** jitteredTTL; draw is the random number below 2*jitter + 1. */
  function JitteredTtl(c: Config, draw: nat): int {
    if c.jitter <= 0 then c.cacheTtl
    else if c.cacheTtl + draw - c.jitter < T.SECOND then T.SECOND
    else c.cacheTtl + draw - c.jitter
  }

  function WithPc(s: State, id: Id, pc: Pc): State
    requires id in s.reqs
  {
    s.(reqs := s.reqs[id := s.reqs[id].(pc := pc)])
  }

  function Logged(s: State, id: Id, at: Time, reply: Reply): State
    requires id in s.reqs
  {
    var r := s.reqs[id];
    s.(log := s.log + [Forward(id, r.org, r.body, r.headers, at, reply)])
  }

  // ---------- the step relation ----------

  predicate Enabled(c: Config, s: State, step: Step) {
    match step
    case Tick(dt) => true
    case Begin(id, org, body, headers) => id !in s.reqs
    case Get(id, ok) => id in s.reqs && s.reqs[id].pc.Start?
    case SetNx(id, token, fault) => id in s.reqs && s.reqs[id].pc.Missed? && (c.lockTtl < 0 ==> fault.Refused?)
    case CheckClock(id) => id in s.reqs && s.reqs[id].pc.Waiting? && s.reqs[id].pc.wake <= s.now
    case Poll(id, ok) => id in s.reqs && s.reqs[id].pc.Polling?
    case ForwardDone(id, at, reply) =>
      id in s.reqs && (s.reqs[id].pc.Holder? || s.reqs[id].pc.Racing?) && s.reqs[id].pc.since <= at <= s.now
    case SetValue(id, draw, fault) => id in s.reqs && s.reqs[id].pc.Filled? && (draw == 0 || draw <= 2 * c.jitter)
    case Release(id, fault) => id in s.reqs && s.reqs[id].pc.Releasing?
    case Evict(key) => key in s.store
  }

  function AfterGet(c: Config, s: State, id: Id, ok: bool): State
    requires Enabled(c, s, Get(id, ok))
  {
    var key := KeyOf(c, s.reqs[id]);
    if !ok then WithPc(s, id, Done(Error))
    else if Alive(s, key) then WithPc(s, id, Done(Served(Hit, 200, s.store[key].data)))
    else WithPc(s, id, Missed)
  }

  function AfterSetNx(c: Config, s: State, id: Id, token: string, fault: Fault): State
    requires Enabled(c, s, SetNx(id, token, fault))
  {
    var lock := LockOf(c, s.reqs[id]);
    if fault.Refused? then WithPc(s, id, Done(Error))
    else if Alive(s, lock) then
      WithPc(s, id, if fault.Lost? then Done(Error) else Waiting(s.now + c.lockWait, s.now))
    else
      WithPc(s, id, if fault.Lost? then Done(Error) else Holder(s.now))
        .(store := s.store[lock := Entry(token, id, Expiry(s.now, c.lockTtl))])
  }

  function AfterPoll(c: Config, s: State, id: Id, ok: bool): State
    requires Enabled(c, s, Poll(id, ok))
  {
    var key := KeyOf(c, s.reqs[id]);
    if !ok then WithPc(s, id, Racing(MissRace, s.now))
    else if Alive(s, key) then WithPc(s, id, Done(Served(HitWait, 200, s.store[key].data)))
    else WithPc(s, id, Waiting(s.reqs[id].pc.deadline, s.now + POLL_PAUSE))
  }

  /** Where a request goes with the answer to its forward. */
  function WithAnswer(pc: Pc, reply: Reply): Pc
    requires pc.Holder? || pc.Racing?
  {
    if pc.Racing? then Done(if reply.NetError? then Error else Served(pc.source, reply.status, reply.payload))
    else if reply.NetError? then Releasing(pc.since, Error)
    else if Is2xx(reply.status) then Filled(pc.since, reply.status, reply.payload)
    else Releasing(pc.since, Served(Miss, reply.status, reply.payload))
  }

  function AfterForward(c: Config, s: State, id: Id, at: Time, reply: Reply): State
    requires Enabled(c, s, ForwardDone(id, at, reply))
  {
    WithPc(Logged(s, id, at, reply), id, WithAnswer(s.reqs[id].pc, reply))
  }

  function AfterSet(c: Config, s: State, id: Id, draw: nat, fault: Fault): State
    requires Enabled(c, s, SetValue(id, draw, fault))
  {
    var pc := s.reqs[id].pc;
    var t := WithPc(s, id, Releasing(pc.since, Served(Miss, pc.status, pc.payload)));
    if fault.Refused? then t
    else t.(store := s.store[KeyOf(c, s.reqs[id]) := Entry(pc.payload, id, Expiry(s.now, JitteredTtl(c, draw)))])
  }

  /** The DEL does not look at the token: it removes whatever lock is there. */
  function AfterRelease(c: Config, s: State, id: Id, fault: Fault): State
    requires Enabled(c, s, Release(id, fault))
  {
    var t := WithPc(s, id, Done(s.reqs[id].pc.result));
    if fault.Refused? then t else t.(store := s.store - {LockOf(c, s.reqs[id])})
  }

  function Next(c: Config, s: State, step: Step): State
    requires Enabled(c, s, step)
  {
    match step
    case Tick(dt) => s.(now := s.now + dt)
    case Begin(id, org, body, headers) =>
      s.(reqs := s.reqs[id := Request(org, body, headers, if Cacheable(headers.accept) then Start else Racing(Bypass, s.now))])
    case Get(id, ok) => AfterGet(c, s, id, ok)
    case SetNx(id, token, fault) => AfterSetNx(c, s, id, token, fault)
    case CheckClock(id) =>
      var d := s.reqs[id].pc.deadline;
      WithPc(s, id, if s.now < d then Polling(d) else Racing(MissRace, s.now))
    case Poll(id, ok) => AfterPoll(c, s, id, ok)
    case ForwardDone(id, at, reply) => AfterForward(c, s, id, at, reply)
    case SetValue(id, draw, fault) => AfterSet(c, s, id, draw, fault)
    case Release(id, fault) => AfterRelease(c, s, id, fault)
    case Evict(key) => s.(store := s.store - {key})
  }

  // ---------- runs ----------

  function Init(t0: Time): State { State(t0, map[], map[], []) }

  /** The steps can be taken one after the other from an empty store at time t0. */
  predicate Run(c: Config, t0: Time, steps: seq<Step>)
    decreases |steps|, 0
  {
    steps == [] ||
    (Run(c, t0, steps[..|steps| - 1]) && Enabled(c, After(c, t0, steps[..|steps| - 1]), steps[|steps| - 1]))
  }

  function After(c: Config, t0: Time, steps: seq<Step>): State
    requires Run(c, t0, steps)
    decreases |steps|, 1
  {
    if steps == [] then Init(t0)
    else Next(c, After(c, t0, steps[..|steps| - 1]), steps[|steps| - 1])
  }

  lemma Extend(c: Config, t0: Time, steps: seq<Step>, step: Step)
    requires Run(c, t0, steps) && Enabled(c, After(c, t0, steps), step)
    ensures Run(c, t0, steps + [step]) && After(c, t0, steps + [step]) == Next(c, After(c, t0, steps), step)
  {
    hide Next, Enabled;
    assert (steps + [step])[..|steps|] == steps;
  }

  lemma {:induction false} PrefixRuns(c: Config, t0: Time, steps: seq<Step>, i: nat)
    requires Run(c, t0, steps) && i <= |steps|
    ensures Run(c, t0, steps[..i])
    decreases |steps|
  {
    if i == |steps| {
      assert steps[..i] == steps;
    } else {
      var p := steps[..|steps| - 1];
      PrefixRuns(c, t0, p, i);
      assert p[..i] == steps[..i];
    }
  }

  /** The state after the first i steps. */
  ghost function At(c: Config, t0: Time, steps: seq<Step>, i: nat): State
    requires Run(c, t0, steps) && i <= |steps|
  {
    PrefixRuns(c, t0, steps, i);
    After(c, t0, steps[..i])
  }

  /** Step i leads from the state after i steps to the state after i + 1. */
  lemma StepAt(c: Config, t0: Time, steps: seq<Step>, i: nat)
    requires Run(c, t0, steps) && i < |steps|
    ensures Enabled(c, At(c, t0, steps, i), steps[i])
    ensures At(c, t0, steps, i + 1) == Next(c, At(c, t0, steps, i), steps[i])
  {
    PrefixRuns(c, t0, steps, i + 1);
    var p := steps[..i + 1];
    assert p[..|p| - 1] == steps[..i] && p[|p| - 1] == steps[i];
  }

  lemma AtEnd(c: Config, t0: Time, steps: seq<Step>)
    requires Run(c, t0, steps)
    ensures At(c, t0, steps, |steps|) == After(c, t0, steps)
  {
    assert steps[..|steps|] == steps;
  }
}
