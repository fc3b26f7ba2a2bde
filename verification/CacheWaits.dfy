/**
  How long cached entries live and how waiting requests come by them: the times to live a SET
  can draw, what keeps an entry readable, and the pace at which a request polls.
*/
module CacheWaits {
  import opened CacheKey
  import opened CacheFill
  import opened CacheSafety
  import opened CacheHits
  import opened CacheRuns

  // ---------- times to live ----------

  /** A second at least, where there is jitter. */
  function AtLeastSecond(ttl: int): int { if ttl < 1_000_000_000 then 1_000_000_000 else ttl }

  /** The shortest an entry can live; 0 or less is for ever. */
  function ShortestTtl(c: Config): int {
    if c.jitter <= 0 then c.cacheTtl else AtLeastSecond(c.cacheTtl - c.jitter)
  }

  /**
    The times to live a SET can draw: the configured one alone without jitter; with jitter, all
    those within it of the configured one, and none below a second.
  */
  lemma TtlValues(c: Config, ttl: int)
    ensures (exists draw: nat :: (draw == 0 || draw <= 2 * c.jitter) && JitteredTtl(c, draw) == ttl) <==>
      if c.jitter <= 0 then ttl == c.cacheTtl
      else AtLeastSecond(c.cacheTtl - c.jitter) <= ttl <= AtLeastSecond(c.cacheTtl + c.jitter)
  {
    if c.jitter <= 0 {
      assert JitteredTtl(c, 0) == c.cacheTtl;
    } else if AtLeastSecond(c.cacheTtl - c.jitter) <= ttl <= AtLeastSecond(c.cacheTtl + c.jitter) {
      var draw := if ttl - c.cacheTtl + c.jitter > 0 then ttl - c.cacheTtl + c.jitter else 0;
      draw := if draw <= 2 * c.jitter then draw else 0;
      assert JitteredTtl(c, draw) == ttl;
    }
  }

  // ---------- what keeps an entry readable ----------

  predicate LastsUntil(e: Entry, until: Time) {
    e.expires.Some? ==> until <= e.expires.value
  }

  /** Only an eviction takes an entry away; another SET can only replace it by one that lives as long. */
  lemma EntryKept(c: Config, s: State, step: Step, key: string, until: Time)
    requires Digests(c.hash) && Enabled(c, s, step) && step != Evict(key) && !IsLock(key)
    requires key in s.store && LastsUntil(s.store[key], until)
    requires ShortestTtl(c) > 0 ==> until <= s.now + ShortestTtl(c)
    ensures key in Next(c, s, step).store && LastsUntil(Next(c, s, step).store[key], until)
  {
    hide Key, Digests, Cacheable, IsLock, LockKey;
    if step.SetNx? || step.Release? {
      ValueKeyIsNoLock(c, s.reqs[step.id]);
    }
  }

  /** What a SET stores lives for the shortest time at least. */
  lemma EntryStored(c: Config, s: State, step: Step)
    requires Enabled(c, s, step) && step.SetValue? && !step.fault.Refused?
    ensures var key := KeyOf(c, s.reqs[step.id]);
      && key in Next(c, s, step).store && Next(c, s, step).now == s.now
      && Next(c, s, step).store[key].data == s.reqs[step.id].pc.payload
      && LastsUntil(Next(c, s, step).store[key], s.now + ShortestTtl(c))
      && (ShortestTtl(c) <= 0 ==> Next(c, s, step).store[key].expires.None?)
  {
    hide Key;
  }

  /** No eviction of the key from step g up to step i. */
  ghost predicate NotEvicted(steps: seq<Step>, key: string, g: nat, i: nat)
    requires i <= |steps|
  {
    forall j :: g <= j < i ==> steps[j] != Evict(key)
  }

  lemma {:induction false} StaysStored(c: Config, t0: Time, steps: seq<Step>, key: string, g: nat, i: nat, until: Time)
    requires Digests(c.hash) && Run(c, t0, steps) && g <= i <= |steps| && NotEvicted(steps, key, g, i) && !IsLock(key)
    requires key in At(c, t0, steps, g).store && LastsUntil(At(c, t0, steps, g).store[key], until)
    requires ShortestTtl(c) > 0 ==> until <= At(c, t0, steps, g).now + ShortestTtl(c)
    ensures key in At(c, t0, steps, i).store && LastsUntil(At(c, t0, steps, i).store[key], until)
    decreases i
  {
    hide Run, After, Next, Enabled, Digests, IsLock, ShortestTtl;
    if g < i {
      StaysStored(c, t0, steps, key, g, i - 1, until);
      StepAt(c, t0, steps, i - 1);
      LaterNow(c, t0, steps, g, i - 1);
      EntryKept(c, At(c, t0, steps, i - 1), steps[i - 1], key, until);
    }
  }

  lemma LaterNow(c: Config, t0: Time, steps: seq<Step>, g: nat, i: nat)
    requires Run(c, t0, steps) && g <= i <= |steps|
    ensures At(c, t0, steps, g).now <= At(c, t0, steps, i).now
  {
    hide Run, After;
    PrefixRuns(c, t0, steps, g);
    PrefixRuns(c, t0, steps, i);
    assert steps[..g] <= steps[..i];
    ClockForward(c, t0, steps[..g], steps[..i]);
  }

  /**
    An entry lives: after a SET that reaches the store, the key stays readable for the shortest
    time to live, for ever if that is not positive, unless it is evicted. Neither other
    requests' SETs nor locks and releases take it away.
  */
  lemma EntryLives(c: Config, t0: Time, steps: seq<Step>, g: nat, i: nat)
    requires Digests(c.hash) && Run(c, t0, steps) && g < i <= |steps| && steps[g].SetValue? && !steps[g].fault.Refused?
    requires steps[g].id in At(c, t0, steps, g).reqs
    requires NotEvicted(steps, KeyOf(c, At(c, t0, steps, g).reqs[steps[g].id]), g + 1, i)
    requires ShortestTtl(c) <= 0 || At(c, t0, steps, i).now < At(c, t0, steps, g).now + ShortestTtl(c)
    ensures Alive(At(c, t0, steps, i), KeyOf(c, At(c, t0, steps, g).reqs[steps[g].id]))
  {
    hide Run, After, Next, Enabled, Digests, IsLock, Key, ShortestTtl;
    var s, life := At(c, t0, steps, g), ShortestTtl(c);
    var key := KeyOf(c, s.reqs[steps[g].id]);
    StepAt(c, t0, steps, g);
    EntryStored(c, s, steps[g]);
    ValueKeyIsNoLock(c, s.reqs[steps[g].id]);
    var until := if life <= 0 then At(c, t0, steps, i).now + 1 else s.now + life;
    StaysStored(c, t0, steps, key, g + 1, i, until);
  }

  /**
    So upstream is spared: a request whose first Get comes after such a SET for its key, within
    the shortest time to live, is a HIT and never forwards.
  */
  lemma FreshEntrySparesUpstream(c: Config, t0: Time, steps: seq<Step>, g: nat, i: nat, id: Id)
    requires Digests(c.hash) && Run(c, t0, steps) && g < i < |steps| && steps[g].SetValue? && !steps[g].fault.Refused? && steps[i] == Get(id, true)
    requires steps[g].id in At(c, t0, steps, g).reqs && id in At(c, t0, steps, i).reqs
    requires KeyOf(c, At(c, t0, steps, i).reqs[id]) == KeyOf(c, At(c, t0, steps, g).reqs[steps[g].id])
    requires NotEvicted(steps, KeyOf(c, At(c, t0, steps, i).reqs[id]), g + 1, i)
    requires ShortestTtl(c) <= 0 || At(c, t0, steps, i).now < At(c, t0, steps, g).now + ShortestTtl(c)
    ensures var e := After(c, t0, steps);
      && !Forwarded(e.log, id) && id in e.reqs && e.reqs[id].pc.Done?
      && e.reqs[id].pc.result.Served? && e.reqs[id].pc.result.source.Hit?
  {
    hide Run, After, Digests, Key, Forwarded, ShortestTtl, Alive, NotEvicted;
    EntryLives(c, t0, steps, g, i);
    LiveEntrySparesUpstream(c, t0, steps, i, id);
  }

  // ---------- the pace of polling ----------

  /** A waiting request is due within 30 ms. */
  ghost predicate DueSoon(s: State) {
    forall id :: id in s.reqs && s.reqs[id].pc.Waiting? ==> s.reqs[id].pc.wake <= s.now + 30_000_000
  }

  /** Whenever a request waits, its next loop test is due in 30 ms at most. */
  lemma {:induction false} WakesSoon(c: Config, t0: Time, steps: seq<Step>)
    requires Run(c, t0, steps)
    ensures DueSoon(After(c, t0, steps))
    decreases |steps|
  {
    hide Next, Enabled;
    if steps != [] {
      WakesSoon(c, t0, steps[..|steps| - 1]);
      DueSoonKept(c, After(c, t0, steps[..|steps| - 1]), steps[|steps| - 1]);
    }
  }

  lemma DueSoonKept(c: Config, s: State, step: Step)
    requires DueSoon(s) && Enabled(c, s, step)
    ensures DueSoon(Next(c, s, step))
  {
    hide Key, Cacheable, JitteredTtl, LockKey;
  }

  /** A poll that finds nothing is followed by a pause of 30 ms, and the deadline stays. */
  lemma PollPauses(c: Config, s: State, id: Id)
    requires Enabled(c, s, Poll(id, true)) && !Alive(s, KeyOf(c, s.reqs[id]))
    ensures Next(c, s, Poll(id, true)).reqs[id].pc == Waiting(s.reqs[id].pc.deadline, s.now + 30_000_000)
  {
  }

  /** The next loop test of a waiting request after a time dt. */
  function Test(id: Id, dt: nat): seq<Step> { [Tick(dt), CheckClock(id)] }

  lemma TestTaken(c: Config, t0: Time, steps: seq<Step>, id: Id, dt: nat)
    requires Run(c, t0, steps)
    requires var s := After(c, t0, steps); id in s.reqs && s.reqs[id].pc.Waiting? && s.reqs[id].pc.wake <= s.now + dt
    ensures Run(c, t0, steps + Test(id, dt))
    ensures var s, e := After(c, t0, steps), After(c, t0, steps + Test(id, dt));
      && e.now == s.now + dt && e.store == s.store && e.log == s.log && id in e.reqs
      && e.reqs[id] == s.reqs[id].(pc := if s.now + dt < s.reqs[id].pc.deadline then Polling(s.reqs[id].pc.deadline) else Racing(MissRace, s.now + dt))
  {
    hide Run, After;
    Extend(c, t0, steps, Tick(dt));
    Extend(c, t0, steps + [Tick(dt)], CheckClock(id));
    assert steps + Test(id, dt) == steps + [Tick(dt)] + [CheckClock(id)];
  }

  /**
    A waiter is served in time: while the entry it waits for is readable 30 ms from now and the
    deadline is later than that, the run can go on, by at most 30 ms and the request's own next
    two steps, to a HIT_WAIT with the entry, with no forward.
  */
  lemma WaiterServed(c: Config, t0: Time, steps: seq<Step>, id: Id) returns (dt: nat)
    requires Run(c, t0, steps)
    requires var s := After(c, t0, steps);
      && id in s.reqs && s.reqs[id].pc.Waiting? && s.now + 30_000_000 < s.reqs[id].pc.deadline
      && KeyOf(c, s.reqs[id]) in s.store && LastsUntil(s.store[KeyOf(c, s.reqs[id])], s.now + 30_000_001)
    ensures dt <= 30_000_000 && Run(c, t0, steps + Test(id, dt) + [Poll(id, true)])
    ensures var s, e := After(c, t0, steps), After(c, t0, steps + Test(id, dt) + [Poll(id, true)]);
      && id in e.reqs && e.reqs[id].pc == Done(Served(HitWait, 200, s.store[KeyOf(c, s.reqs[id])].data))
      && e.log == s.log
  {
    hide Run, After, Key;
    var s := After(c, t0, steps);
    WakesSoon(c, t0, steps);
    dt := if s.reqs[id].pc.wake > s.now then s.reqs[id].pc.wake - s.now else 0;
    TestTaken(c, t0, steps, id, dt);
    Extend(c, t0, steps + Test(id, dt), Poll(id, true));
  }

  /** A waiter gives up in time: its first loop test after the deadline sends it to forward, and that is due within 30 ms of it. */
  lemma WaiterGivesUp(c: Config, t0: Time, steps: seq<Step>, id: Id) returns (dt: nat)
    requires Run(c, t0, steps)
    requires var s := After(c, t0, steps); id in s.reqs && s.reqs[id].pc.Waiting? && s.reqs[id].pc.deadline <= s.now
    ensures dt <= 30_000_000 && Run(c, t0, steps + Test(id, dt))
    ensures var e := After(c, t0, steps + Test(id, dt)); id in e.reqs && e.reqs[id].pc == Racing(MissRace, e.now)
  {
    hide Run, After, Key;
    var s := After(c, t0, steps);
    WakesSoon(c, t0, steps);
    dt := if s.reqs[id].pc.wake > s.now then s.reqs[id].pc.wake - s.now else 0;
    TestTaken(c, t0, steps, id, dt);
  }
}
