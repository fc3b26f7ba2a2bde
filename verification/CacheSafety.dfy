/** Safety of the cache-fill protocol over every interleaving, with every kind of Redis fault. */
module CacheSafety {
  import opened Wire
  import opened CacheKey
  import opened CacheFill

  // ---------- what is stored came from upstream ----------

  predicate IsLock(key: string) {
    |key| >= 5 && key[|key| - 5..] == ":lock"
  }

  /** f is a 2xx answer with this payload, forwarded for a request with this key. */
  predicate Fills(c: Config, f: Forward, key: string, payload: string) {
    f.reply.Answer? && Is2xx(f.reply.status) && f.reply.payload == payload && Key(c.hash, f.org, f.body) == key
  }

  ghost predicate Backed(c: Config, log: seq<Forward>, key: string, payload: string) {
    exists j :: 0 <= j < |log| && Fills(c, log[j], key, payload)
  }

  ghost predicate Own(log: seq<Forward>, id: Id, status: nat, payload: string) {
    exists j :: 0 <= j < |log| && log[j].id == id && log[j].reply == Answer(status, payload)
  }

  ghost predicate Forwarded(log: seq<Forward>, id: Id) {
    exists j :: 0 <= j < |log| && log[j].id == id
  }

  /** What a served result may be made of. */
  ghost predicate Honest(c: Config, log: seq<Forward>, id: Id, r: Request, res: Result) {
    res.Served? ==>
      if res.source.Hit? || res.source.HitWait? then
        res.status == 200 && Backed(c, log, KeyOf(c, r), res.payload) && !Forwarded(log, id)
      else Own(log, id, res.status, res.payload)
  }

  ghost predicate HonestRequest(c: Config, log: seq<Forward>, id: Id, r: Request) {
    match r.pc
    case Filled(_, status, payload) => Is2xx(status) && Backed(c, log, KeyOf(c, r), payload) && Own(log, id, status, payload)
    case Releasing(_, res) => (res.Served? ==> res.source.Miss?) && Honest(c, log, id, r, res)
    case Done(res) => Honest(c, log, id, r, res)
    case Racing(source, _) => (source.MissRace? || source.Bypass?) && !Forwarded(log, id)
    case _ => !Forwarded(log, id)
  }

  ghost predicate StoreSound(c: Config, s: State) {
    forall k :: k in s.store && !IsLock(k) ==> Backed(c, s.log, k, s.store[k].data)
  }

  ghost predicate RequestsSound(c: Config, s: State) {
    forall id :: id in s.reqs ==> HonestRequest(c, s.log, id, s.reqs[id])
  }

  /** A logged forward carries the text and headers of its request. */
  ghost predicate LogSound(s: State) {
    forall j :: 0 <= j < |s.log| ==>
      var f := s.log[j];
      f.id in s.reqs && f.org == s.reqs[f.id].org && f.body == s.reqs[f.id].body && f.headers == s.reqs[f.id].headers && f.at <= s.now
  }

  ghost predicate Inv(c: Config, s: State) {
    StoreSound(c, s) && RequestsSound(c, s) && LogSound(s)
  }

  lemma LogGrows(c: Config, log: seq<Forward>, f: Forward)
    ensures forall k, p :: Backed(c, log, k, p) ==> Backed(c, log + [f], k, p)
    ensures forall id, st, p :: Own(log, id, st, p) ==> Own(log + [f], id, st, p)
    ensures forall id :: id != f.id ==> (Forwarded(log, id) <==> Forwarded(log + [f], id))
  {
    var l := log + [f];
    assert forall j :: 0 <= j < |log| ==> l[j] == log[j];
    forall k, p | Backed(c, log, k, p) ensures Backed(c, l, k, p) {
      var j :| 0 <= j < |log| && Fills(c, log[j], k, p);
      assert Fills(c, l[j], k, p);
    }
    forall id, st, p | Own(log, id, st, p) ensures Own(l, id, st, p) {
      var j :| 0 <= j < |log| && log[j].id == id && log[j].reply == Answer(st, p);
      assert l[j].id == id;
    }
    forall id | id != f.id ensures Forwarded(log, id) <==> Forwarded(l, id) {
      if Forwarded(log, id) {
        var j :| 0 <= j < |log| && log[j].id == id;
        assert l[j].id == id;
      }
    }
  }

  lemma LastOfLog(c: Config, log: seq<Forward>, f: Forward)
    ensures f.reply.Answer? ==> Own(log + [f], f.id, f.reply.status, f.reply.payload)
    ensures f.reply.Answer? && Is2xx(f.reply.status) ==> Backed(c, log + [f], Key(c.hash, f.org, f.body), f.reply.payload)
  {
    var l := log + [f];
    assert l[|log|] == f;
    if f.reply.Answer? && Is2xx(f.reply.status) {
      assert Fills(c, l[|log|], Key(c.hash, f.org, f.body), f.reply.payload);
    }
  }

  lemma ValueKeyIsNoLock(c: Config, r: Request)
    requires Digests(c.hash)
    ensures !IsLock(KeyOf(c, r)) && IsLock(LockOf(c, r))
  {
    var k := KeyOf(c, r);
    LockKeyIsNoKey(c.hash, k[..|k| - 5], r.org, r.body);
    assert k == k[..|k| - 5] + k[|k| - 5..];
    var l := LockOf(c, r);
    assert l[|l| - 5..] == ":lock";
  }

  lemma ForwardKeepsInv(c: Config, s: State, id: Id, at: Time, reply: Reply)
    requires Digests(c.hash) && Inv(c, s) && Enabled(c, s, ForwardDone(id, at, reply))
    ensures Inv(c, Next(c, s, ForwardDone(id, at, reply)))
  {
    hide StoreSound, RequestsSound, LogSound, Digests;
    ForwardKeepsStore(c, s, id, at, reply);
    ForwardKeepsRequests(c, s, id, at, reply);
    ForwardKeepsLog(c, s, id, at, reply);
  }

  lemma ForwardKeepsStore(c: Config, s: State, id: Id, at: Time, reply: Reply)
    requires StoreSound(c, s) && Enabled(c, s, ForwardDone(id, at, reply))
    ensures StoreSound(c, Next(c, s, ForwardDone(id, at, reply)))
  {
    hide Backed, Own, Forwarded, IsLock;
    var r := s.reqs[id];
    LogGrows(c, s.log, Forward(id, r.org, r.body, r.headers, at, reply));
  }

  lemma ForwardKeepsLog(c: Config, s: State, id: Id, at: Time, reply: Reply)
    requires LogSound(s) && Enabled(c, s, ForwardDone(id, at, reply))
    ensures LogSound(Next(c, s, ForwardDone(id, at, reply)))
  {
  }

  lemma ForwardKeepsRequests(c: Config, s: State, id: Id, at: Time, reply: Reply)
    requires RequestsSound(c, s) && Enabled(c, s, ForwardDone(id, at, reply))
    ensures RequestsSound(c, Next(c, s, ForwardDone(id, at, reply)))
  {
    hide HonestRequest, Is2xx;
    var s' := Next(c, s, ForwardDone(id, at, reply));
    forall i | i in s'.reqs ensures HonestRequest(c, s'.log, i, s'.reqs[i]) {
      assert HonestRequest(c, s.log, i, s.reqs[i]);
      if i == id {
        ForwarderHonest(c, s, id, at, reply);
      } else {
        BystanderHonest(c, s, id, at, reply, i);
      }
    }
  }

  lemma ForwarderHonest(c: Config, s: State, id: Id, at: Time, reply: Reply)
    requires Enabled(c, s, ForwardDone(id, at, reply)) && HonestRequest(c, s.log, id, s.reqs[id])
    ensures var s' := Next(c, s, ForwardDone(id, at, reply)); HonestRequest(c, s'.log, id, s'.reqs[id])
  {
    hide Backed, Own, Forwarded, Key, Is2xx;
    var r := s.reqs[id];
    LastOfLog(c, s.log, Forward(id, r.org, r.body, r.headers, at, reply));
  }

  lemma BystanderHonest(c: Config, s: State, id: Id, at: Time, reply: Reply, i: Id)
    requires Enabled(c, s, ForwardDone(id, at, reply)) && i != id && i in s.reqs && HonestRequest(c, s.log, i, s.reqs[i])
    ensures var s' := Next(c, s, ForwardDone(id, at, reply)); i in s'.reqs && HonestRequest(c, s'.log, i, s'.reqs[i])
  {
    hide Backed, Own, Forwarded, Key, Is2xx;
    var r := s.reqs[id];
    LogGrows(c, s.log, Forward(id, r.org, r.body, r.headers, at, reply));
  }

  lemma SetKeepsInv(c: Config, s: State, id: Id, draw: nat, fault: Fault)
    requires Digests(c.hash) && Inv(c, s) && Enabled(c, s, SetValue(id, draw, fault))
    ensures Inv(c, Next(c, s, SetValue(id, draw, fault)))
  {
    hide Backed, Own, Forwarded, Key, IsLock, Digests, JitteredTtl;
  }

  lemma SetNxKeepsInv(c: Config, s: State, id: Id, token: string, fault: Fault)
    requires Digests(c.hash) && Inv(c, s) && Enabled(c, s, SetNx(id, token, fault))
    ensures Inv(c, Next(c, s, SetNx(id, token, fault)))
  {
    hide Backed, Own, Forwarded, Key, IsLock, Digests;
    ValueKeyIsNoLock(c, s.reqs[id]);
  }

  lemma ReadsKeepInv(c: Config, s: State, step: Step)
    requires Digests(c.hash) && Inv(c, s) && Enabled(c, s, step) && (step.Get? || step.Poll?)
    ensures Inv(c, Next(c, s, step))
  {
    hide Backed, Own, Forwarded, Key, IsLock, Digests;
    ValueKeyIsNoLock(c, s.reqs[step.id]);
  }

  lemma OthersKeepInv(c: Config, s: State, step: Step)
    requires Digests(c.hash) && Inv(c, s) && Enabled(c, s, step)
    requires step.Tick? || step.Begin? || step.CheckClock? || step.Release? || step.Evict?
    ensures Inv(c, Next(c, s, step))
  {
    hide Backed, Own, Key, IsLock, Digests, Cacheable;
  }

  lemma InvKept(c: Config, s: State, step: Step)
    requires Digests(c.hash) && Inv(c, s) && Enabled(c, s, step)
    ensures Inv(c, Next(c, s, step))
  {
    hide Inv, Next, Enabled, Digests;
    match step
    case ForwardDone(id, at, reply) => ForwardKeepsInv(c, s, id, at, reply);
    case SetValue(id, draw, fault) => SetKeepsInv(c, s, id, draw, fault);
    case SetNx(id, token, fault) => SetNxKeepsInv(c, s, id, token, fault);
    case Get(_, _) => ReadsKeepInv(c, s, step);
    case Poll(_, _) => ReadsKeepInv(c, s, step);
    case _ => OthersKeepInv(c, s, step);
  }

  /** The invariant holds after every run, whatever the interleaving, the faults and the evictions. */
  lemma {:induction false} InvReached(c: Config, t0: Time, steps: seq<Step>)
    requires Digests(c.hash) && Run(c, t0, steps)
    ensures Inv(c, After(c, t0, steps))
    decreases |steps|
  {
    if steps != [] {
      InvReached(c, t0, steps[..|steps| - 1]);
      InvKept(c, After(c, t0, steps[..|steps| - 1]), steps[|steps| - 1]);
    }
  }

  // ---------- questions ----------

  /** No two requests of the state collide in the hash. */
  ghost predicate NoCollisions(c: Config, s: State) {
    forall i, j :: i in s.reqs && j in s.reqs ==>
      NoCollision(c.hash, Preimage(s.reqs[i].org, s.reqs[i].body), Preimage(s.reqs[j].org, s.reqs[j].body))
  }

  /** f is a 2xx answer to the same organisation and body as r. */
  predicate SameQuestion(f: Forward, r: Request, payload: string) {
    f.org == r.org && f.body == r.body && f.reply.Answer? && Is2xx(f.reply.status) && f.reply.payload == payload
  }

  // ---------- mutual exclusion ----------

  /** Every request in its section got there less than the lock's time to live ago. */
  ghost predicate Prompt(c: Config, s: State) {
    c.lockTtl > 0 ==>
      forall id :: id in s.reqs && s.reqs[id].pc.InSection() ==> s.now < s.reqs[id].pc.since + c.lockTtl
  }

  ghost predicate PromptRun(c: Config, t0: Time, steps: seq<Step>)
    requires Run(c, t0, steps)
  {
    forall i :: 0 <= i <= |steps| ==> Prompt(c, At(c, t0, steps, i))
  }

  predicate LeavesLocks(step: Step) { step.Evict? ==> !IsLock(step.key) }

  ghost predicate NoLockEvicted(steps: seq<Step>) {
    forall i :: 0 <= i < |steps| ==> LeavesLocks(steps[i])
  }

  predicate HoldsLock(c: Config, s: State, id: Id)
    requires id in s.reqs
  {
    var lock := LockOf(c, s.reqs[id]);
    && lock in s.store && s.store[lock].writer == id
    && (s.reqs[id].pc.InSection() ==> s.store[lock].expires == Expiry(s.reqs[id].pc.since, c.lockTtl))
  }

  /** Whoever is in the section holds the lock of its key. */
  ghost predicate Held(c: Config, s: State) {
    forall id :: id in s.reqs && s.reqs[id].pc.InSection() ==> HoldsLock(c, s, id)
  }

  /** At most one request per key is in the section. */
  ghost predicate Exclusive(c: Config, s: State) {
    forall i, j | i in s.reqs && j in s.reqs && s.reqs[i].pc.InSection() && s.reqs[j].pc.InSection() &&
                  KeyOf(c, s.reqs[i]) == KeyOf(c, s.reqs[j]) :: i == j
  }

  lemma LocksDiffer(c: Config, r: Request, r': Request)
    requires Digests(c.hash)
    ensures LockOf(c, r) == LockOf(c, r') <==> KeyOf(c, r) == KeyOf(c, r')
    ensures LockOf(c, r) != KeyOf(c, r')
  {
    hide Key, Digests;
    LockKeyIsNoKey(c.hash, KeyOf(c, r), r'.org, r'.body);
    if LockOf(c, r) == LockOf(c, r') {
      LockKeyInjective(KeyOf(c, r), KeyOf(c, r'));
    }
  }

  lemma HeldIsExclusive(c: Config, s: State)
    requires Held(c, s)
    ensures Exclusive(c, s)
  {
    hide Key;
    forall i, j | i in s.reqs && j in s.reqs && s.reqs[i].pc.InSection() && s.reqs[j].pc.InSection() &&
                  KeyOf(c, s.reqs[i]) == KeyOf(c, s.reqs[j])
      ensures i == j
    {
      assert HoldsLock(c, s, i) && HoldsLock(c, s, j);
    }
  }

  /** A lock in use is alive while its holder is prompt. */
  lemma HeldIsAlive(c: Config, s: State, id: Id)
    requires Held(c, s) && Prompt(c, s) && id in s.reqs && s.reqs[id].pc.InSection()
    ensures Alive(s, LockOf(c, s.reqs[id]))
  {
    hide Key;
    assert HoldsLock(c, s, id);
  }

  lemma HeldKept(c: Config, s: State, step: Step)
    requires Digests(c.hash) && Held(c, s) && Prompt(c, s) && Enabled(c, s, step) && LeavesLocks(step)
    ensures Held(c, Next(c, s, step))
  {
    var s' := Next(c, s, step);
    forall id | id in s'.reqs && s'.reqs[id].pc.InSection() ensures HoldsLock(c, s', id) {
      HeldKeptFor(c, s, step, id);
    }
  }

  lemma HeldKeptFor(c: Config, s: State, step: Step, id: Id)
    requires Digests(c.hash) && Held(c, s) && Prompt(c, s) && Enabled(c, s, step) && LeavesLocks(step)
    requires id in Next(c, s, step).reqs && Next(c, s, step).reqs[id].pc.InSection()
    ensures HoldsLock(c, Next(c, s, step), id)
  {
    hide Next, Enabled, Prompt, Digests, LeavesLocks, HoldsLock;
    if id in s.reqs && s.reqs[id].pc.InSection() {
      assert HoldsLock(c, s, id);
      HeldIsAlive(c, s, id);
      HeldIsExclusive(c, s);
      HolderKeeps(c, s, step, id);
    } else {
      NewHolder(c, s, step, id);
    }
  }

  /** Whoever comes into the section has just taken the lock. */
  lemma NewHolder(c: Config, s: State, step: Step, id: Id)
    requires Enabled(c, s, step) && (id in s.reqs ==> !s.reqs[id].pc.InSection())
    requires id in Next(c, s, step).reqs && Next(c, s, step).reqs[id].pc.InSection()
    ensures HoldsLock(c, Next(c, s, step), id)
  {
    hide Key, Cacheable, JitteredTtl, LockKey;
  }

  /** Whoever stays in the section still has the lock. */
  lemma HolderKeeps(c: Config, s: State, step: Step, id: Id)
    requires Digests(c.hash) && Exclusive(c, s) && Enabled(c, s, step) && LeavesLocks(step)
    requires id in s.reqs && s.reqs[id].pc.InSection() && HoldsLock(c, s, id) && Alive(s, LockOf(c, s.reqs[id]))
    requires id in Next(c, s, step).reqs && Next(c, s, step).reqs[id].pc.InSection()
    ensures HoldsLock(c, Next(c, s, step), id)
  {
    hide Key, Digests, Cacheable, JitteredTtl, IsLock, LockKey;
    var r := s.reqs[id];
    ValueKeyIsNoLock(c, r);
    if step.SetNx? || step.SetValue? || step.Release? {
      LocksDiffer(c, r, s.reqs[step.id]);
      LocksDiffer(c, s.reqs[step.id], r);
    }
  }

  /** In a prompt run the section is exclusive at every point, and the lock of each holder is its own. */
  lemma {:induction false} MutualExclusion(c: Config, t0: Time, steps: seq<Step>)
    requires Digests(c.hash) && Run(c, t0, steps) && PromptRun(c, t0, steps) && NoLockEvicted(steps)
    ensures Held(c, After(c, t0, steps)) && Exclusive(c, After(c, t0, steps))
    decreases |steps|
  {
    hide Digests, Prompt, Next, Enabled, Held, Exclusive, LeavesLocks;
    if steps == [] {
      HeldAtStart(c, t0);
    } else {
      var n := |steps| - 1;
      var p := steps[..n];
      forall i | 0 <= i <= |p| ensures Prompt(c, At(c, t0, p, i)) {
        assert p[..i] == steps[..i];
        assert At(c, t0, p, i) == At(c, t0, steps, i);
      }
      MutualExclusion(c, t0, p);
      AtEnd(c, t0, p);
      assert Prompt(c, After(c, t0, p));
      assert LeavesLocks(steps[n]);
      HeldKept(c, After(c, t0, p), steps[n]);
    }
    HeldIsExclusive(c, After(c, t0, steps));
  }

  lemma HeldAtStart(c: Config, t0: Time)
    ensures Held(c, Init(t0))
  {
  }

  /** In a prompt run a DEL removes the lock of the request that issues it. */
  lemma ReleaseIsOwn(c: Config, t0: Time, steps: seq<Step>, id: Id, fault: Fault)
    requires Digests(c.hash) && Run(c, t0, steps) && PromptRun(c, t0, steps) && NoLockEvicted(steps)
    requires Enabled(c, After(c, t0, steps), Release(id, fault))
    ensures var s := After(c, t0, steps); var lock := LockOf(c, s.reqs[id]);
            lock in s.store && s.store[lock].writer == id
  {
    hide Digests, PromptRun, Exclusive;
    MutualExclusion(c, t0, steps);
    assert HoldsLock(c, After(c, t0, steps), id);
  }
}
