/**
  Where hits come from: every value in the store was put there by a SET of a request that had
  its own 2xx answer, and every hit reads such a value, in every run of the protocol.
*/
module CacheHits {
  import opened Wire
  import opened CacheKey
  import opened CacheFill
  import opened CacheSafety
  import T = Rfc3339

  // ---------- what runs keep ----------

  /** The text and headers of a request never change, and the log only grows. */
  lemma TextKept(c: Config, s: State, step: Step, id: Id)
    requires Enabled(c, s, step) && id in s.reqs
    ensures id in Next(c, s, step).reqs && SameAsk(Next(c, s, step).reqs[id], s.reqs[id])
  {
    hide Key, Cacheable, JitteredTtl, LockKey;
  }

  predicate SameAsk(r: Request, r': Request) {
    r.org == r'.org && r.body == r'.body && r.headers == r'.headers
  }

  lemma {:induction false} SameText(c: Config, t0: Time, steps: seq<Step>, i: nat, id: Id)
    requires Run(c, t0, steps) && i <= |steps| && id in At(c, t0, steps, i).reqs
    ensures id in After(c, t0, steps).reqs && SameAsk(After(c, t0, steps).reqs[id], At(c, t0, steps, i).reqs[id])
    decreases |steps|
  {
    hide Next, Enabled;
    if i == |steps| {
      AtEnd(c, t0, steps);
    } else {
      var p := steps[..|steps| - 1];
      AtShorter(c, t0, steps, |p|, i);
      SameText(c, t0, p, i, id);
      TextKept(c, After(c, t0, p), steps[|steps| - 1], id);
    }
  }

  /** States of a longer run are states of the shorter one. */
  lemma AtShorter(c: Config, t0: Time, steps: seq<Step>, n: nat, i: nat)
    requires Run(c, t0, steps) && i <= n <= |steps|
    ensures Run(c, t0, steps[..n]) && At(c, t0, steps[..n], i) == At(c, t0, steps, i)
  {
    PrefixRuns(c, t0, steps, n);
    assert steps[..n][..i] == steps[..i];
  }

  lemma LogKept(c: Config, s: State, step: Step)
    requires Enabled(c, s, step)
    ensures s.log <= Next(c, s, step).log && s.now <= Next(c, s, step).now
  {
    hide Key, Cacheable, JitteredTtl, LockKey;
  }

  lemma {:induction false} LogOnlyGrows(c: Config, t0: Time, steps: seq<Step>, i: nat)
    requires Run(c, t0, steps) && i <= |steps|
    ensures At(c, t0, steps, i).log <= After(c, t0, steps).log && At(c, t0, steps, i).now <= After(c, t0, steps).now
    decreases |steps|
  {
    hide Next, Enabled;
    if i == |steps| {
      AtEnd(c, t0, steps);
    } else {
      var p := steps[..|steps| - 1];
      AtShorter(c, t0, steps, |p|, i);
      LogOnlyGrows(c, t0, p, i);
      LogKept(c, After(c, t0, p), steps[|steps| - 1]);
    }
  }

  /** The clock of a longer run is not behind. */
  lemma ClockForward(c: Config, t0: Time, steps: seq<Step>, more: seq<Step>)
    requires Run(c, t0, steps) && Run(c, t0, more) && steps <= more
    ensures After(c, t0, steps).now <= After(c, t0, more).now
  {
    hide Run, After;
    assert more[..|steps|] == steps;
    LogOnlyGrows(c, t0, more, |steps|);
    AtShorter(c, t0, more, |steps|, |steps|);
    AtEnd(c, t0, steps);
  }

  /** No request forwards twice. */
  ghost predicate ForwardsOnce(log: seq<Forward>) {
    forall i, j :: 0 <= i < j < |log| ==> log[i].id != log[j].id
  }

  lemma OnceKept(c: Config, s: State, step: Step)
    requires Inv(c, s) && Enabled(c, s, step) && ForwardsOnce(s.log)
    ensures ForwardsOnce(Next(c, s, step).log)
  {
    hide Key, Cacheable, JitteredTtl, LockKey, Backed, Own, StoreSound, LogSound;
    if step.ForwardDone? {
      assert HonestRequest(c, s.log, step.id, s.reqs[step.id]);
    }
  }

  lemma {:induction false} EveryoneForwardsOnce(c: Config, t0: Time, steps: seq<Step>)
    requires Digests(c.hash) && Run(c, t0, steps)
    ensures ForwardsOnce(After(c, t0, steps).log)
    decreases |steps|
  {
    hide Digests, Inv, Next, Enabled;
    if steps != [] {
      var p := steps[..|steps| - 1];
      EveryoneForwardsOnce(c, t0, p);
      InvReached(c, t0, p);
      OnceKept(c, After(c, t0, p), steps[|steps| - 1]);
    }
  }

  /** Only requests for a cacheable format come near the cache. */
  predicate NearCache(pc: Pc) { pc.Start? || pc.Missed? || pc.Holder? || pc.Filled? || pc.Waiting? || pc.Polling? }

  ghost predicate Cachers(s: State) {
    forall id :: id in s.reqs && NearCache(s.reqs[id].pc) ==> Cacheable(s.reqs[id].headers.accept)
  }

  lemma CachersKept(c: Config, s: State, step: Step)
    requires Cachers(s) && Enabled(c, s, step)
    ensures Cachers(Next(c, s, step))
  {
    hide Key, Cacheable, JitteredTtl, LockKey;
  }

  lemma {:induction false} OnlyCachers(c: Config, t0: Time, steps: seq<Step>)
    requires Run(c, t0, steps)
    ensures Cachers(After(c, t0, steps))
    decreases |steps|
  {
    hide Next, Enabled, Cacheable;
    if steps != [] {
      var p := steps[..|steps| - 1];
      OnlyCachers(c, t0, p);
      CachersKept(c, After(c, t0, p), steps[|steps| - 1]);
    }
  }

  /** A lock with a negative time to live is refused by Redis: nobody ever gets in. */
  ghost predicate NobodyIn(s: State) {
    forall id :: id in s.reqs ==> !s.reqs[id].pc.InSection()
  }

  lemma NobodyInKept(c: Config, s: State, step: Step)
    requires c.lockTtl < 0 && NobodyIn(s) && Enabled(c, s, step)
    ensures NobodyIn(Next(c, s, step))
  {
    hide Key, Cacheable, JitteredTtl, LockKey;
  }

  lemma {:induction false} NegativeTtlLocksOut(c: Config, t0: Time, steps: seq<Step>)
    requires c.lockTtl < 0 && Run(c, t0, steps)
    ensures NobodyIn(After(c, t0, steps))
    decreases |steps|
  {
    hide Next, Enabled;
    if steps != [] {
      var p := steps[..|steps| - 1];
      NegativeTtlLocksOut(c, t0, p);
      NobodyInKept(c, After(c, t0, p), steps[|steps| - 1]);
    }
  }

  // ---------- who stored an entry, and when ----------

  /** What a SET of request id, drawing this number, stores in state s. */
  predicate Stores(c: Config, s: State, id: Id, draw: nat, key: string, e: Entry) {
    id in s.reqs && s.reqs[id].pc.Filled? && KeyOf(c, s.reqs[id]) == key && (draw == 0 || draw <= 2 * c.jitter) &&
    e == Entry(s.reqs[id].pc.payload, id, Expiry(s.now, JitteredTtl(c, draw)))
  }

  /** Step g is the SET that stored e under the key. */
  ghost predicate StoredAt(c: Config, t0: Time, steps: seq<Step>, key: string, e: Entry, g: nat)
    requires Run(c, t0, steps)
  {
    g < |steps| && steps[g].SetValue? && !steps[g].fault.Refused? && steps[g].id == e.writer &&
    Stores(c, At(c, t0, steps, g), e.writer, steps[g].draw, key, e)
  }

  ghost predicate AllStored(c: Config, t0: Time, steps: seq<Step>)
    requires Run(c, t0, steps)
  {
    var s := After(c, t0, steps);
    forall k :: k in s.store && !IsLock(k) ==> exists g: nat :: StoredAt(c, t0, steps, k, s.store[k], g)
  }

  /** Values come into the store by a SET only. */
  lemma WhoStores(c: Config, s: State, step: Step, k: string)
    requires Digests(c.hash) && Enabled(c, s, step) && k in Next(c, s, step).store && !IsLock(k)
    ensures var e := Next(c, s, step).store[k];
      (k in s.store && s.store[k] == e) ||
      (step.SetValue? && !step.fault.Refused? && step.id == e.writer && Stores(c, s, step.id, step.draw, k, e))
  {
    hide Key, Cacheable, JitteredTtl, LockKey, IsLock, Digests;
    if step.SetNx? {
      ValueKeyIsNoLock(c, s.reqs[step.id]);
    }
  }

  lemma StoredCarries(c: Config, t0: Time, steps: seq<Step>, n: nat, key: string, e: Entry, g: nat)
    requires Run(c, t0, steps) && n <= |steps| && Run(c, t0, steps[..n]) && StoredAt(c, t0, steps[..n], key, e, g)
    ensures StoredAt(c, t0, steps, key, e, g)
  {
    hide Stores;
    AtShorter(c, t0, steps, n, g);
  }

  lemma StoredNow(c: Config, t0: Time, steps: seq<Step>, key: string, e: Entry)
    requires Run(c, t0, steps) && steps != [] && Run(c, t0, steps[..|steps| - 1])
    requires var step := steps[|steps| - 1];
             step.SetValue? && !step.fault.Refused? && step.id == e.writer &&
             Stores(c, After(c, t0, steps[..|steps| - 1]), step.id, step.draw, key, e)
    ensures StoredAt(c, t0, steps, key, e, |steps| - 1)
  {
    hide Stores;
    AtShorter(c, t0, steps, |steps| - 1, |steps| - 1);
    AtEnd(c, t0, steps[..|steps| - 1]);
  }

  lemma {:induction false} EveryValueStored(c: Config, t0: Time, steps: seq<Step>)
    requires Digests(c.hash) && Run(c, t0, steps)
    ensures AllStored(c, t0, steps)
    decreases |steps|
  {
    hide Digests, Next, Enabled, StoredAt, IsLock, Stores;
    if steps != [] {
      var n := |steps| - 1;
      var p := steps[..n];
      EveryValueStored(c, t0, p);
      var s, s' := After(c, t0, p), After(c, t0, steps);
      forall k | k in s'.store && !IsLock(k) ensures exists g: nat :: StoredAt(c, t0, steps, k, s'.store[k], g) {
        WhoStores(c, s, steps[n], k);
        if k in s.store && s.store[k] == s'.store[k] {
          var g: nat :| StoredAt(c, t0, p, k, s.store[k], g);
          StoredCarries(c, t0, steps, n, k, s.store[k], g);
        } else {
          StoredNow(c, t0, steps, k, s'.store[k]);
        }
      }
    }
  }

  // ---------- hits ----------

  /** Step i serves request id from the store. */
  ghost predicate HitAt(c: Config, t0: Time, steps: seq<Step>, id: Id, i: nat)
    requires Run(c, t0, steps)
  {
    i < |steps| && (steps[i] == Get(id, true) || steps[i] == Poll(id, true)) &&
    var s := At(c, t0, steps, i);
    id in s.reqs && Alive(s, KeyOf(c, s.reqs[id]))
  }

  /** The entry that step i reads. */
  ghost function EntryAt(c: Config, t0: Time, steps: seq<Step>, id: Id, i: nat): Entry
    requires Run(c, t0, steps) && HitAt(c, t0, steps, id, i)
  {
    var s := At(c, t0, steps, i);
    s.store[KeyOf(c, s.reqs[id])]
  }

  /** The longest an entry can live; 0 or less is for ever. */
  function LongestTtl(c: Config): int {
    if c.jitter <= 0 then c.cacheTtl else if c.cacheTtl + c.jitter < T.SECOND then T.SECOND else c.cacheTtl + c.jitter
  }

  lemma TtlAtMost(c: Config, draw: nat)
    requires draw == 0 || draw <= 2 * c.jitter
    ensures JitteredTtl(c, draw) <= LongestTtl(c) && (LongestTtl(c) > 0 ==> JitteredTtl(c, draw) > 0)
  {
  }

  /** The writer of the entry that step i reads had one forward in the whole run, a 2xx one with this payload for this key. */
  ghost predicate FilledBy(c: Config, log: seq<Forward>, key: string, e: Entry, f: Forward) {
    f in log && f.id == e.writer && Fills(c, f, key, e.data)
  }

  lemma OwnFills(c: Config, s: State, id: Id, key: string) returns (f: Forward)
    requires Inv(c, s) && id in s.reqs && s.reqs[id].pc.Filled? && KeyOf(c, s.reqs[id]) == key
    ensures f in s.log && f.id == id && Fills(c, f, key, s.reqs[id].pc.payload)
  {
    hide Key, Backed, Forwarded, StoreSound;
    var r := s.reqs[id];
    assert HonestRequest(c, s.log, id, r);
    var j :| 0 <= j < |s.log| && s.log[j].id == id && s.log[j].reply == Answer(r.pc.status, r.pc.payload);
    f := s.log[j];
  }

  /** A request that is about to be served has not forwarded. */
  lemma NotForwardedYet(c: Config, s: State, id: Id)
    requires Inv(c, s) && id in s.reqs && (s.reqs[id].pc.Start? || s.reqs[id].pc.Polling?)
    ensures !Forwarded(s.log, id)
  {
    hide Backed, Own, StoreSound, LogSound;
    assert HonestRequest(c, s.log, id, s.reqs[id]);
  }

  /**
    Every hit, traced back. The entry that step i reads was stored by the SET of step g before
    it; its writer is another request, for a cacheable format, whose own forward f was finished
    by then with a 2xx answer and this payload, for this key. The entry is younger than the
    longest time to live.
  */
  lemma HitTraced(c: Config, t0: Time, steps: seq<Step>, id: Id, i: nat) returns (g: nat, f: Forward)
    requires Digests(c.hash) && Run(c, t0, steps) && HitAt(c, t0, steps, id, i)
    ensures var s, e := At(c, t0, steps, i), EntryAt(c, t0, steps, id, i);
      && g < i && StoredAt(c, t0, steps, KeyOf(c, s.reqs[id]), e, g)
      && FilledBy(c, At(c, t0, steps, g).log, KeyOf(c, s.reqs[id]), e, f) && f in s.log && f.at <= s.now
      && e.writer != id && e.writer in s.reqs
      && f.org == s.reqs[e.writer].org && f.body == s.reqs[e.writer].body && f.headers == s.reqs[e.writer].headers
      && Cacheable(f.headers.accept) && Cacheable(s.reqs[id].headers.accept)
      && (LongestTtl(c) > 0 ==> s.now < At(c, t0, steps, g).now + LongestTtl(c))
  {
    hide Run, After, Next, Digests, Key, Cacheable, IsLock, JitteredTtl, Inv, NearCache, LongestTtl, Forwarded;
    AtShorter(c, t0, steps, i, i);
    StepAt(c, t0, steps, i);
    var p := steps[..i];
    AtEnd(c, t0, p);
    var s, e := At(c, t0, steps, i), EntryAt(c, t0, steps, id, i);
    var key := KeyOf(c, s.reqs[id]);
    ValueKeyIsNoLock(c, s.reqs[id]);
    EveryValueStored(c, t0, p);
    g :| StoredAt(c, t0, p, key, e, g);
    StoredCarries(c, t0, steps, i, key, e, g);
    f := StoredFrom(c, t0, p, key, e, g);
    AtShorter(c, t0, steps, i, g);
    InvReached(c, t0, p);
    NotForwardedYet(c, s, id);
    NotThatOne(s.log, id, f);
    OnlyCachers(c, t0, p);
    AboutToRead(s, id);
    TtlAtMost(c, steps[g].draw);
  }

  lemma NotThatOne(log: seq<Forward>, id: Id, f: Forward)
    requires !Forwarded(log, id) && f in log
    ensures f.id != id
  {
  }

  lemma AboutToRead(s: State, id: Id)
    requires Cachers(s) && id in s.reqs && (s.reqs[id].pc.Start? || s.reqs[id].pc.Polling?)
    ensures Cacheable(s.reqs[id].headers.accept)
  {
  }

  /** The forward behind a stored entry. */
  lemma StoredFrom(c: Config, t0: Time, p: seq<Step>, key: string, e: Entry, g: nat) returns (f: Forward)
    requires Digests(c.hash) && Run(c, t0, p) && StoredAt(c, t0, p, key, e, g)
    ensures FilledBy(c, At(c, t0, p, g).log, key, e, f)
    ensures var s := After(c, t0, p);
      && f in s.log && f.at <= s.now && e.writer in s.reqs && Cacheable(f.headers.accept)
      && f.org == s.reqs[e.writer].org && f.body == s.reqs[e.writer].body && f.headers == s.reqs[e.writer].headers
  {
    hide Run, After, Digests, Key, Cacheable, JitteredTtl, Fills;
    AtShorter(c, t0, p, g, g);
    AtEnd(c, t0, p[..g]);
    var s := At(c, t0, p, g);
    InvReached(c, t0, p[..g]);
    OnlyCachers(c, t0, p[..g]);
    f := OwnFills(c, s, e.writer, key);
    LogTells(c, s, f);
    SameText(c, t0, p, g, e.writer);
    LogOnlyGrows(c, t0, p, g);
  }

  lemma LogTells(c: Config, s: State, f: Forward)
    requires Inv(c, s) && f in s.log
    ensures f.id in s.reqs && f.org == s.reqs[f.id].org && f.body == s.reqs[f.id].body && f.headers == s.reqs[f.id].headers && f.at <= s.now
  {
    hide StoreSound, RequestsSound;
  }

  /**
    A forward that failed or was not 2xx is never visible to another request: whatever entry a
    hit reads, every forward of its writer, in the whole run, is a 2xx answer with the payload
    that was read.
  */
  lemma FailureInvisible(c: Config, t0: Time, steps: seq<Step>, id: Id, i: nat, f: Forward)
    requires Digests(c.hash) && Run(c, t0, steps) && HitAt(c, t0, steps, id, i)
    requires f in After(c, t0, steps).log && f.id == EntryAt(c, t0, steps, id, i).writer
    ensures f.id != id && f.reply.Answer? && Is2xx(f.reply.status) && f.reply.payload == EntryAt(c, t0, steps, id, i).data
  {
    hide Run, After, Digests, Key, Alive, StoredAt, LongestTtl, Cacheable, Is2xx;
    var g, f' := HitTraced(c, t0, steps, id, i);
    LogOnlyGrows(c, t0, steps, i);
    EveryoneForwardsOnce(c, t0, steps);
    TheSame(After(c, t0, steps).log, f, f');
  }

  lemma TheSame(log: seq<Forward>, f: Forward, f': Forward)
    requires ForwardsOnce(log) && f in log && f' in log && f.id == f'.id
    ensures f == f'
  {
  }

  // ---------- cache soundness ----------

  /** Request id got its result from the hit of step i. */
  ghost predicate ServedBy(c: Config, t0: Time, steps: seq<Step>, id: Id, i: nat, res: Result)
    requires Run(c, t0, steps)
  {
    HitAt(c, t0, steps, id, i) && res == Served(if steps[i].Get? then Hit else HitWait, 200, EntryAt(c, t0, steps, id, i).data)
  }

  predicate IsHit(r: Request) {
    r.pc.Done? && r.pc.result.Served? && (r.pc.result.source.Hit? || r.pc.result.source.HitWait?)
  }

  ghost predicate HitsServed(c: Config, t0: Time, steps: seq<Step>)
    requires Run(c, t0, steps)
  {
    var s := After(c, t0, steps);
    forall id :: id in s.reqs && IsHit(s.reqs[id]) ==> exists i: nat :: ServedBy(c, t0, steps, id, i, s.reqs[id].pc.result)
  }

  /** How a request comes to have a hit. */
  lemma WhoHits(c: Config, s: State, step: Step, id: Id)
    requires RequestsSound(c, s) && Enabled(c, s, step) && id in Next(c, s, step).reqs && IsHit(Next(c, s, step).reqs[id])
    ensures id in s.reqs
    ensures var key := KeyOf(c, s.reqs[id]);
      s.reqs[id] == Next(c, s, step).reqs[id] ||
      ((step == Get(id, true) || step == Poll(id, true)) && Alive(s, key) &&
       Next(c, s, step).reqs[id].pc.result == Served(if step.Get? then Hit else HitWait, 200, s.store[key].data))
  {
    hide Key, Cacheable, JitteredTtl, LockKey, Backed, Own, Forwarded;
    if id in s.reqs {
      assert HonestRequest(c, s.log, id, s.reqs[id]);
    }
  }

  lemma ServedCarries(c: Config, t0: Time, steps: seq<Step>, n: nat, id: Id, i: nat, res: Result)
    requires Run(c, t0, steps) && n <= |steps| && Run(c, t0, steps[..n]) && ServedBy(c, t0, steps[..n], id, i, res)
    ensures ServedBy(c, t0, steps, id, i, res)
  {
    hide Key, Alive, Run, After;
    AtShorter(c, t0, steps, n, i);
  }

  lemma {:induction false} EveryHitServed(c: Config, t0: Time, steps: seq<Step>)
    requires Digests(c.hash) && Run(c, t0, steps)
    ensures HitsServed(c, t0, steps)
    decreases |steps|
  {
    hide Digests, Next, Enabled, ServedBy, Inv, Key, Alive;
    if steps != [] {
      var n := |steps| - 1;
      var p := steps[..n];
      EveryHitServed(c, t0, p);
      InvReached(c, t0, p);
      InvGivesRequests(c, After(c, t0, p));
      var s, s' := After(c, t0, p), After(c, t0, steps);
      forall id | id in s'.reqs && IsHit(s'.reqs[id]) ensures exists i: nat :: ServedBy(c, t0, steps, id, i, s'.reqs[id].pc.result) {
        WhoHits(c, s, steps[n], id);
        if s.reqs[id] == s'.reqs[id] {
          var i: nat :| ServedBy(c, t0, p, id, i, s.reqs[id].pc.result);
          ServedCarries(c, t0, steps, n, id, i, s.reqs[id].pc.result);
        } else {
          HitNow(c, t0, steps, id);
        }
      }
    }
  }

  lemma HitNow(c: Config, t0: Time, steps: seq<Step>, id: Id)
    requires Run(c, t0, steps) && steps != [] && Run(c, t0, steps[..|steps| - 1])
    requires var s, step := After(c, t0, steps[..|steps| - 1]), steps[|steps| - 1];
             id in s.reqs && (step == Get(id, true) || step == Poll(id, true)) && Alive(s, KeyOf(c, s.reqs[id]))
    ensures var s, step := After(c, t0, steps[..|steps| - 1]), steps[|steps| - 1];
            ServedBy(c, t0, steps, id, |steps| - 1, Served(if step.Get? then Hit else HitWait, 200, s.store[KeyOf(c, s.reqs[id])].data))
  {
    hide Key;
    AtShorter(c, t0, steps, |steps| - 1, |steps| - 1);
    AtEnd(c, t0, steps[..|steps| - 1]);
  }

  lemma InvGivesRequests(c: Config, s: State)
    requires Inv(c, s)
    ensures RequestsSound(c, s)
  {
  }

  /** When a hit is served, the forward f of its entry's writer was finished, for the same question and before the entry was stored. */
  ghost predicate EarlierAnswer(c: Config, t0: Time, steps: seq<Step>, id: Id, i: nat, f: Forward)
    requires Run(c, t0, steps) && HitAt(c, t0, steps, id, i)
  {
    var s, e := At(c, t0, steps, i), EntryAt(c, t0, steps, id, i);
    f in s.log && f.id == e.writer && f.id != id && f.at <= s.now && SameQuestion(f, s.reqs[id], e.data) && Cacheable(f.headers.accept)
  }

  /** The step at which a hit is served, and the earlier answer it serves. */
  lemma HitAnswered(c: Config, t0: Time, steps: seq<Step>, id: Id, i: nat) returns (f: Forward)
    requires Digests(c.hash) && Run(c, t0, steps) && NoCollisions(c, After(c, t0, steps)) && HitAt(c, t0, steps, id, i)
    ensures EarlierAnswer(c, t0, steps, id, i, f)
  {
    hide Run, After, Digests, Key, Alive, StoredAt, LongestTtl, Cacheable, Is2xx, NoCollision, Preimage;
    var g;
    g, f := HitTraced(c, t0, steps, id, i);
    var s, e := At(c, t0, steps, i), EntryAt(c, t0, steps, id, i);
    SameText(c, t0, steps, i, id);
    SameText(c, t0, steps, i, e.writer);
    KeyInjective(c.hash, f.org, f.body, s.reqs[id].org, s.reqs[id].body);
  }

  /**
    Cache soundness. Whatever the interleaving, with locks expiring, foreign deletes, evictions
    and failing Redis calls: a payload served as HIT or HIT_WAIT is read at some step of the
    run, and by that step another request's forward for the same organisation and body was
    finished with a 2xx answer and this payload. Any other payload is the request's own answer.
  */
  lemma CacheSoundness(c: Config, t0: Time, steps: seq<Step>, id: Id)
    requires Digests(c.hash) && Run(c, t0, steps) && NoCollisions(c, After(c, t0, steps))
    requires id in After(c, t0, steps).reqs
    ensures var s := After(c, t0, steps);
            var r := s.reqs[id];
            r.pc.Done? && r.pc.result.Served? ==>
              if IsHit(r) then
                exists i: nat, f :: ServedBy(c, t0, steps, id, i, r.pc.result) && EarlierAnswer(c, t0, steps, id, i, f)
              else Own(s.log, id, r.pc.result.status, r.pc.result.payload)
  {
    hide Run, After, Digests, HitAt, EarlierAnswer, NoCollisions, StoreSound, LogSound, Key;
    var s := After(c, t0, steps);
    var r := s.reqs[id];
    if IsHit(r) {
      EveryHitServed(c, t0, steps);
      var i: nat :| ServedBy(c, t0, steps, id, i, r.pc.result);
      var f := HitAnswered(c, t0, steps, id, i);
      assert ServedBy(c, t0, steps, id, i, r.pc.result) && EarlierAnswer(c, t0, steps, id, i, f);
    } else if r.pc.Done? && r.pc.result.Served? {
      InvReached(c, t0, steps);
      assert HonestRequest(c, s.log, id, r);
    }
  }

  /** All requests for this organisation and body in a cacheable format carry the same headers. */
  ghost predicate OneFormat(s: State, r: Request) {
    forall i :: i in s.reqs && s.reqs[i].org == r.org && s.reqs[i].body == r.body && Cacheable(s.reqs[i].headers.accept) ==>
      s.reqs[i].headers == r.headers
  }

  /** Where cacheable requests for a text agree on their headers, a hit has the right format. */
  lemma FormatAgrees(c: Config, t0: Time, steps: seq<Step>, id: Id, i: nat) returns (f: Forward)
    requires Digests(c.hash) && Run(c, t0, steps) && NoCollisions(c, After(c, t0, steps)) && HitAt(c, t0, steps, id, i)
    requires OneFormat(At(c, t0, steps, i), At(c, t0, steps, i).reqs[id])
    ensures EarlierAnswer(c, t0, steps, id, i, f) && f.headers == At(c, t0, steps, i).reqs[id].headers
  {
    hide Run, After, Digests, Key, NoCollisions, Cacheable, StoreSound, RequestsSound, Is2xx, Alive;
    f := HitAnswered(c, t0, steps, id, i);
    AtShorter(c, t0, steps, i, i);
    AtEnd(c, t0, steps[..i]);
    InvReached(c, t0, steps[..i]);
    LogTells(c, At(c, t0, steps, i), f);
  }
}
