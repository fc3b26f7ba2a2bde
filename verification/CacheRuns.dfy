/**
  Whole runs of the cache-fill protocol: locks never outlive their requests, when upstream is
  spared, and what every miss and every race goes back to.
*/
module CacheRuns {
  import opened CacheKey
  import opened CacheFill
  import opened CacheSafety
  import opened CacheHits

  // ---------- locks belong to requests in their section ----------

  /** The reply to a SETNX arrives and a DEL is carried out. */
  predicate LockCallsWork(step: Step) {
    (step.SetNx? ==> !step.fault.Lost?) && (step.Release? ==> !step.fault.Refused?)
  }

  ghost predicate AllLockCallsWork(steps: seq<Step>) {
    forall i :: 0 <= i < |steps| ==> LockCallsWork(steps[i])
  }

  predicate OwnedLock(c: Config, s: State, key: string)
    requires key in s.store
  {
    var w := s.store[key].writer;
    w in s.reqs && s.reqs[w].pc.InSection() && LockOf(c, s.reqs[w]) == key
  }

  /** Every lock in the store, expired or not, belongs to a request still in its section. */
  ghost predicate LocksOwned(c: Config, s: State) {
    forall k :: k in s.store && IsLock(k) ==> OwnedLock(c, s, k)
  }

  lemma LocksOwnedKept(c: Config, s: State, step: Step)
    requires Digests(c.hash) && LocksOwned(c, s) && Enabled(c, s, step) && LockCallsWork(step)
    ensures LocksOwned(c, Next(c, s, step))
  {
    var s' := Next(c, s, step);
    forall k | k in s'.store && IsLock(k) ensures OwnedLock(c, s', k) {
      LockStaysOwned(c, s, step, k);
    }
  }

  lemma LockStaysOwned(c: Config, s: State, step: Step, k: string)
    requires Digests(c.hash) && LocksOwned(c, s) && Enabled(c, s, step) && LockCallsWork(step)
    requires k in Next(c, s, step).store && IsLock(k)
    ensures OwnedLock(c, Next(c, s, step), k)
  {
    hide Key, Digests, Cacheable, JitteredTtl, IsLock, LockKey;
    if k in s.store {
      assert OwnedLock(c, s, k);
    }
    if step.SetValue? {
      ValueKeyIsNoLock(c, s.reqs[step.id]);
    }
  }

  /** With no hypothesis about time: locks are owned after every run in which the lock calls work. */
  lemma {:induction false} LocksAlwaysOwned(c: Config, t0: Time, steps: seq<Step>)
    requires Digests(c.hash) && Run(c, t0, steps) && AllLockCallsWork(steps)
    ensures LocksOwned(c, After(c, t0, steps))
    decreases |steps|
  {
    hide Digests, Next, Enabled, IsLock, LockCallsWork;
    if steps != [] {
      LocksAlwaysOwned(c, t0, steps[..|steps| - 1]);
      assert LockCallsWork(steps[|steps| - 1]);
      LocksOwnedKept(c, After(c, t0, steps[..|steps| - 1]), steps[|steps| - 1]);
    }
  }

  /** When all requests have finished, in success, error or a non-2xx answer alike, no lock is left. */
  lemma NoLockLeft(c: Config, t0: Time, steps: seq<Step>)
    requires Digests(c.hash) && Run(c, t0, steps) && AllLockCallsWork(steps)
    requires var s := After(c, t0, steps); forall id :: id in s.reqs ==> s.reqs[id].pc.Done?
    ensures forall k :: k in After(c, t0, steps).store ==> !IsLock(k)
  {
    hide Digests, Run, After, IsLock;
    LocksAlwaysOwned(c, t0, steps);
    var s := After(c, t0, steps);
    assert forall k :: k in s.store && IsLock(k) ==> OwnedLock(c, s, k);
  }

  // ---------- what spares upstream ----------

  /** A finished request is left alone, and no further forward is logged for it. */
  lemma DoneIsFinal(c: Config, s: State, step: Step, id: Id)
    requires Enabled(c, s, step) && id in s.reqs && s.reqs[id].pc.Done?
    ensures var s' := Next(c, s, step);
            id in s'.reqs && s'.reqs[id] == s.reqs[id] && (Forwarded(s'.log, id) <==> Forwarded(s.log, id))
  {
    hide Key, Cacheable, JitteredTtl, LockKey, Forwarded;
    if step.ForwardDone? {
      var r := s.reqs[step.id];
      LogGrows(c, s.log, Forward(step.id, r.org, r.body, r.headers, step.at, step.reply));
    }
  }

  lemma {:induction false} DoneStays(c: Config, t0: Time, steps: seq<Step>, i: nat, id: Id)
    requires Run(c, t0, steps) && i <= |steps|
    requires id in At(c, t0, steps, i).reqs && At(c, t0, steps, i).reqs[id].pc.Done?
    ensures var s, e := At(c, t0, steps, i), After(c, t0, steps);
            id in e.reqs && e.reqs[id] == s.reqs[id] && (Forwarded(e.log, id) <==> Forwarded(s.log, id))
    decreases |steps|
  {
    hide Next, Enabled, Forwarded;
    if i == |steps| {
      AtEnd(c, t0, steps);
    } else {
      var p := steps[..|steps| - 1];
      assert p[..i] == steps[..i];
      assert At(c, t0, p, i) == At(c, t0, steps, i);
      DoneStays(c, t0, p, i, id);
      DoneIsFinal(c, After(c, t0, p), steps[|steps| - 1], id);
    }
  }

  /**
    A request whose first Get falls inside the life of an entry never forwards: it is served
    that entry, and upstream never sees it, in the whole run.
  */
  lemma LiveEntrySparesUpstream(c: Config, t0: Time, steps: seq<Step>, g: nat, id: Id)
    requires Digests(c.hash) && Run(c, t0, steps) && g < |steps| && steps[g] == Get(id, true)
    requires var s := At(c, t0, steps, g); id in s.reqs && Alive(s, KeyOf(c, s.reqs[id]))
    ensures var s, e := At(c, t0, steps, g), After(c, t0, steps);
            && !Forwarded(e.log, id)
            && id in e.reqs && e.reqs[id].pc == Done(Served(Hit, 200, s.store[KeyOf(c, s.reqs[id])].data))
  {
    hide Run, After, Forwarded, Key, Digests;
    var s := At(c, t0, steps, g);
    StepAt(c, t0, steps, g);
    PrefixRuns(c, t0, steps, g);
    InvReached(c, t0, steps[..g]);
    assert HonestRequest(c, s.log, id, s.reqs[id]);
    DoneStays(c, t0, steps, g + 1, id);
  }

  /** Step g of the run is the first Get of id, and it found nothing. */
  ghost predicate MissAt(c: Config, t0: Time, steps: seq<Step>, id: Id, g: nat)
    requires Run(c, t0, steps)
  {
    g < |steps| && steps[g] == Get(id, true) &&
    var s := At(c, t0, steps, g);
    id in s.reqs && !Alive(s, KeyOf(c, s.reqs[id]))
  }

  /** Past the first Get, having missed. */
  predicate PastMiss(r: Request) {
    match r.pc
    case Start => false
    case Racing(source, _) => source.MissRace?
    case Done(res) => res.Served? && (res.source.HitWait? || res.source.Miss? || res.source.MissRace?)
    case _ => true
  }

  ghost predicate Missers(c: Config, t0: Time, steps: seq<Step>)
    requires Run(c, t0, steps)
  {
    var s := After(c, t0, steps);
    forall id :: id in s.reqs && PastMiss(s.reqs[id]) ==> exists g: nat :: MissAt(c, t0, steps, id, g)
  }

  lemma MissCarries(c: Config, t0: Time, steps: seq<Step>, step: Step, id: Id, g: nat)
    requires Run(c, t0, steps) && Run(c, t0, steps + [step]) && MissAt(c, t0, steps, id, g)
    ensures MissAt(c, t0, steps + [step], id, g)
  {
    assert (steps + [step])[..g] == steps[..g];
  }

  lemma MissNew(c: Config, t0: Time, steps: seq<Step>, id: Id)
    requires Run(c, t0, steps) && Run(c, t0, steps + [Get(id, true)])
    requires var s := After(c, t0, steps); id in s.reqs && !Alive(s, KeyOf(c, s.reqs[id]))
    ensures MissAt(c, t0, steps + [Get(id, true)], id, |steps|)
  {
    var t := steps + [Get(id, true)];
    assert t[..|steps|] == steps;
  }

  /** One step moves a request past the miss only through a Get that found nothing. */
  lemma WhoMisses(c: Config, s: State, step: Step, id: Id)
    requires Enabled(c, s, step) && id in Next(c, s, step).reqs && PastMiss(Next(c, s, step).reqs[id])
    requires RequestsSound(c, s)
    ensures id in s.reqs && (PastMiss(s.reqs[id]) || (step == Get(id, true) && !Alive(s, KeyOf(c, s.reqs[id]))))
  {
    hide Key, Cacheable, JitteredTtl, LockKey, Forwarded, Backed, Own;
    if id in s.reqs {
      assert HonestRequest(c, s.log, id, s.reqs[id]);
    }
  }

  lemma {:induction false} MissersFound(c: Config, t0: Time, steps: seq<Step>)
    requires Digests(c.hash) && Run(c, t0, steps)
    ensures Missers(c, t0, steps)
    decreases |steps|
  {
    hide Digests, Next, Enabled, MissAt, PastMiss, Inv;
    if steps != [] {
      var n := |steps| - 1;
      var p, step := steps[..n], steps[n];
      assert steps == p + [step];
      MissersFound(c, t0, p);
      InvReached(c, t0, p);
      InvGivesRequests(c, After(c, t0, p));
      var s' := After(c, t0, steps);
      forall id | id in s'.reqs && PastMiss(s'.reqs[id]) ensures exists g: nat :: MissAt(c, t0, steps, id, g) {
        WhoMisses(c, After(c, t0, p), step, id);
        if PastMiss(After(c, t0, p).reqs[id]) {
          var g: nat :| MissAt(c, t0, p, id, g);
          MissCarries(c, t0, p, step, id, g);
        } else {
          MissNew(c, t0, p, id);
        }
      }
    }
  }

  /** Every MISS or MISS_RACE of a run goes back to a first Get that found the key absent. */
  lemma EveryMissReadAbsent(c: Config, t0: Time, steps: seq<Step>, id: Id)
    requires Digests(c.hash) && Run(c, t0, steps) && id in After(c, t0, steps).reqs
    requires var pc := After(c, t0, steps).reqs[id].pc;
             pc.Done? && pc.result.Served? && (pc.result.source.Miss? || pc.result.source.MissRace?)
    ensures exists g: nat :: MissAt(c, t0, steps, id, g)
  {
    hide Digests, Run, After, MissAt;
    MissersFound(c, t0, steps);
  }

  /**
    A second MISS during the life of an entry: a request that is past its miss at some point k
    of a stretch in which its key is alive throughout has read the key before that stretch
    began, that is, before the entry was stored.
  */
  lemma SecondMissReadBeforeSet(c: Config, t0: Time, steps: seq<Step>, id: Id, lo: nat, k: nat)
    requires Digests(c.hash) && Run(c, t0, steps) && lo <= k <= |steps|
    requires id in At(c, t0, steps, k).reqs && PastMiss(At(c, t0, steps, k).reqs[id])
    requires forall i :: lo <= i < k ==> Alive(At(c, t0, steps, i), KeyOf(c, At(c, t0, steps, k).reqs[id]))
    ensures exists g: nat :: g < lo && MissAt(c, t0, steps, id, g)
  {
    hide Digests, Next, Enabled, Alive, Key, PastMiss;
    PrefixRuns(c, t0, steps, k);
    var p := steps[..k];
    MissersFound(c, t0, p);
    var g: nat :| MissAt(c, t0, p, id, g);
    assert p[..g] == steps[..g];
    assert At(c, t0, p, g) == At(c, t0, steps, g);
    SameText(c, t0, p, g, id);
    assert MissAt(c, t0, steps, id, g);
  }

  // ---------- forwarding after the wait ----------

  /** Step n is the SETNX that found the lock taken; the wait deadline is d. */
  ghost predicate WaitFrom(c: Config, t0: Time, steps: seq<Step>, id: Id, n: nat, d: Time)
    requires Run(c, t0, steps)
  {
    n < |steps| && steps[n].SetNx? && steps[n].id == id && steps[n].fault.Fine? && d == At(c, t0, steps, n).now + c.lockWait
  }

  /** Step k is a loop test of WaitForLock that found the deadline of step n passed. */
  ghost predicate TimedOut(c: Config, t0: Time, steps: seq<Step>, id: Id, n: nat, k: nat)
    requires Run(c, t0, steps)
  {
    n < k < |steps| && steps[k] == CheckClock(id) && WaitFrom(c, t0, steps, id, n, At(c, t0, steps, n).now + c.lockWait) &&
    At(c, t0, steps, n).now + c.lockWait <= At(c, t0, steps, k).now
  }

  ghost predicate PollFailed(steps: seq<Step>, id: Id) {
    exists i :: 0 <= i < |steps| && steps[i] == Poll(id, false)
  }

  predicate Raced(r: Request) {
    (r.pc.Racing? && r.pc.source.MissRace?) || (r.pc.Done? && r.pc.result.Served? && r.pc.result.source.MissRace?)
  }

  ghost predicate Waiters(c: Config, t0: Time, steps: seq<Step>)
    requires Run(c, t0, steps)
  {
    var s := After(c, t0, steps);
    && (forall id :: id in s.reqs && (s.reqs[id].pc.Waiting? || s.reqs[id].pc.Polling?) ==>
          exists n: nat :: WaitFrom(c, t0, steps, id, n, s.reqs[id].pc.deadline))
    && (forall id :: id in s.reqs && Raced(s.reqs[id]) && !PollFailed(steps, id) ==>
          exists n: nat, k: nat :: TimedOut(c, t0, steps, id, n, k))
  }

  /** How a request comes to wait. */
  lemma WhoWaits(c: Config, s: State, step: Step, id: Id)
    requires Enabled(c, s, step) && id in Next(c, s, step).reqs
    requires Next(c, s, step).reqs[id].pc.Waiting? || Next(c, s, step).reqs[id].pc.Polling?
    ensures var d := Next(c, s, step).reqs[id].pc.deadline;
      id in s.reqs &&
      (((s.reqs[id].pc.Waiting? || s.reqs[id].pc.Polling?) && s.reqs[id].pc.deadline == d) ||
       (step.SetNx? && step.id == id && step.fault.Fine? && d == s.now + c.lockWait))
  {
    hide Key, Cacheable, JitteredTtl, LockKey;
  }

  /** How a request comes to race. */
  lemma WhoRaces(c: Config, s: State, step: Step, id: Id)
    requires Enabled(c, s, step) && id in Next(c, s, step).reqs && Raced(Next(c, s, step).reqs[id])
    requires RequestsSound(c, s)
    ensures id in s.reqs &&
      (Raced(s.reqs[id]) || step == Poll(id, false) ||
       (step == CheckClock(id) && s.reqs[id].pc.Waiting? && s.reqs[id].pc.deadline <= s.now))
  {
    hide Key, Cacheable, JitteredTtl, LockKey, Forwarded, Backed, Own;
    if id in s.reqs {
      assert HonestRequest(c, s.log, id, s.reqs[id]);
    }
  }

  lemma AtPrefix(c: Config, t0: Time, steps: seq<Step>, step: Step, i: nat)
    requires Run(c, t0, steps) && Run(c, t0, steps + [step]) && i <= |steps|
    ensures At(c, t0, steps + [step], i) == At(c, t0, steps, i)
  {
    assert (steps + [step])[..i] == steps[..i];
  }

  lemma WaitCarries(c: Config, t0: Time, steps: seq<Step>, step: Step, id: Id, n: nat, d: Time)
    requires Run(c, t0, steps) && Run(c, t0, steps + [step]) && WaitFrom(c, t0, steps, id, n, d)
    ensures WaitFrom(c, t0, steps + [step], id, n, d)
  {
    AtPrefix(c, t0, steps, step, n);
  }

  lemma WaitersFor(c: Config, t0: Time, p: seq<Step>, step: Step, id: Id)
    requires Run(c, t0, p) && Run(c, t0, p + [step]) && Waiters(c, t0, p)
    requires After(c, t0, p + [step]) == Next(c, After(c, t0, p), step) && Enabled(c, After(c, t0, p), step)
    requires var s := After(c, t0, p + [step]); id in s.reqs && (s.reqs[id].pc.Waiting? || s.reqs[id].pc.Polling?)
    ensures exists n: nat :: WaitFrom(c, t0, p + [step], id, n, After(c, t0, p + [step]).reqs[id].pc.deadline)
  {
    hide Run, After, Next, Enabled;
    var s, d := After(c, t0, p), After(c, t0, p + [step]).reqs[id].pc.deadline;
    WhoWaits(c, s, step, id);
    if (s.reqs[id].pc.Waiting? || s.reqs[id].pc.Polling?) && s.reqs[id].pc.deadline == d {
      var n: nat :| WaitFrom(c, t0, p, id, n, d);
      WaitCarries(c, t0, p, step, id, n, d);
    } else {
      AtPrefix(c, t0, p, step, |p|);
      AtEnd(c, t0, p);
      assert WaitFrom(c, t0, p + [step], id, |p|, d);
    }
  }

  lemma RacersFor(c: Config, t0: Time, p: seq<Step>, step: Step, id: Id)
    requires Run(c, t0, p) && Run(c, t0, p + [step]) && Waiters(c, t0, p) && RequestsSound(c, After(c, t0, p))
    requires After(c, t0, p + [step]) == Next(c, After(c, t0, p), step) && Enabled(c, After(c, t0, p), step)
    requires var s := After(c, t0, p + [step]); id in s.reqs && Raced(s.reqs[id])
    requires !PollFailed(p + [step], id)
    ensures exists n: nat, k: nat :: TimedOut(c, t0, p + [step], id, n, k)
  {
    hide Run, After, Next, Enabled, RequestsSound;
    var s := After(c, t0, p);
    WhoRaces(c, s, step, id);
    assert (p + [step])[|p|] == step;
    assert forall i :: 0 <= i < |p| ==> p[i] == (p + [step])[i];
    if Raced(s.reqs[id]) {
      var n: nat, k: nat :| TimedOut(c, t0, p, id, n, k);
      WaitCarries(c, t0, p, step, id, n, At(c, t0, p, n).now + c.lockWait);
      AtPrefix(c, t0, p, step, n);
      AtPrefix(c, t0, p, step, k);
      assert TimedOut(c, t0, p + [step], id, n, k);
    } else {
      var d := s.reqs[id].pc.deadline;
      var n: nat :| WaitFrom(c, t0, p, id, n, d);
      WaitCarries(c, t0, p, step, id, n, d);
      AtPrefix(c, t0, p, step, n);
      AtPrefix(c, t0, p, step, |p|);
      AtEnd(c, t0, p);
      assert TimedOut(c, t0, p + [step], id, n, |p|);
    }
  }

  lemma {:induction false} WaitersFound(c: Config, t0: Time, steps: seq<Step>)
    requires Digests(c.hash) && Run(c, t0, steps)
    ensures Waiters(c, t0, steps)
    decreases |steps|
  {
    hide Digests, Next, Enabled, WaitFrom, TimedOut, Inv, PollFailed;
    if steps != [] {
      var n := |steps| - 1;
      var p, step := steps[..n], steps[n];
      assert steps == p + [step];
      WaitersFound(c, t0, p);
      InvReached(c, t0, p);
      InvGivesRequests(c, After(c, t0, p));
      var s' := After(c, t0, steps);
      forall id | id in s'.reqs && (s'.reqs[id].pc.Waiting? || s'.reqs[id].pc.Polling?)
        ensures exists n: nat :: WaitFrom(c, t0, steps, id, n, s'.reqs[id].pc.deadline)
      {
        WaitersFor(c, t0, p, step, id);
      }
      forall id | id in s'.reqs && Raced(s'.reqs[id]) && !PollFailed(steps, id)
        ensures exists n: nat, k: nat :: TimedOut(c, t0, steps, id, n, k)
      {
        RacersFor(c, t0, p, step, id);
      }
    }
  }

  /**
    A MISS_RACE forward comes only after the wait: unless a poll failed, some loop test found
    the full wait since the lost SETNX over, and every poll before it found the key absent.
  */
  lemma RaceOnlyAfterWait(c: Config, t0: Time, steps: seq<Step>, id: Id)
    requires Digests(c.hash) && Run(c, t0, steps) && !PollFailed(steps, id)
    requires id in After(c, t0, steps).reqs && Raced(After(c, t0, steps).reqs[id])
    ensures exists n: nat, k: nat :: TimedOut(c, t0, steps, id, n, k)
    ensures forall i :: 0 <= i < |steps| && steps[i] == Poll(id, true) ==>
              var s := At(c, t0, steps, i); id in s.reqs && !Alive(s, KeyOf(c, s.reqs[id]))
  {
    hide Digests, Run, After, TimedOut, PollFailed, Key, Forwarded;
    WaitersFound(c, t0, steps);
    forall i | 0 <= i < |steps| && steps[i] == Poll(id, true)
      ensures var s := At(c, t0, steps, i); id in s.reqs && !Alive(s, KeyOf(c, s.reqs[id]))
    {
      StepAt(c, t0, steps, i);
      var s := At(c, t0, steps, i);
      if Alive(s, KeyOf(c, s.reqs[id])) {
        DoneStays(c, t0, steps, i + 1, id);
      }
    }
  }
}
