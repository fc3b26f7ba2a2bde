/**
  Runs that show the limits of the cache-fill protocol: a lock that expires under its holder,
  two misses in the life of one entry, and a hit in the wrong format.
*/
module CacheLimits {
  import opened Wire
  import opened CacheKey
  import opened CacheFill
  import opened CacheSafety
  import opened CacheHits
  import opened CacheRuns

  const CSV: Headers := Headers("", "")

  /** A run that ends in the state s, in which the lock calls work and nothing is evicted. */
  ghost predicate Reaches(c: Config, t0: Time, steps: seq<Step>, s: State) {
    Run(c, t0, steps) && After(c, t0, steps) == s && AllLockCallsWork(steps) && forall i :: 0 <= i < |steps| ==> !steps[i].Evict?
  }

  lemma ReachStart(c: Config, t0: Time)
    ensures Reaches(c, t0, [], Init(t0))
  {
  }

  lemma ReachNext(c: Config, t0: Time, steps: seq<Step>, s: State, step: Step)
    requires Reaches(c, t0, steps, s) && Enabled(c, s, step) && LockCallsWork(step) && !step.Evict?
    ensures Reaches(c, t0, steps + [step], Next(c, s, step))
  {
    Extend(c, t0, steps, step);
  }

  /** Requests that begin for this text carry one of these headers. */
  ghost predicate Begins(steps: seq<Step>, org: string, body: string, hs: set<Headers>) {
    forall i :: 0 <= i < |steps| && steps[i].Begin? && steps[i].org == org && steps[i].body == body ==> steps[i].headers in hs
  }

  lemma BeginsMore(steps: seq<Step>, step: Step, org: string, body: string, hs: set<Headers>)
    requires Begins(steps, org, body, hs) && (step.Begin? ==> step.headers in hs)
    ensures Begins(steps + [step], org, body, hs)
  {
  }

  function TwoStarted(t0: Time, org: string, body: string, h: Headers, h': Headers): State {
    State(t0, map[], map[0 := Request(org, body, h, Start), 1 := Request(org, body, h', Start)], [])
  }

  lemma ReachTwoStarted(c: Config, t0: Time, org: string, body: string, h: Headers, h': Headers) returns (steps: seq<Step>)
    requires Cacheable(h.accept) && Cacheable(h'.accept)
    ensures Reaches(c, t0, steps, TwoStarted(t0, org, body, h, h')) && Begins(steps, org, body, {h, h'})
  {
    hide Reaches, Cacheable;
    var a, b := Begin(0, org, body, h), Begin(1, org, body, h');
    ReachStart(c, t0);
    ReachNext(c, t0, [], Init(t0), a);
    var s := Next(c, Init(t0), a);
    ReachNext(c, t0, [] + [a], s, b);
    steps := [] + [a] + [b];
    assert Next(c, s, b) == TwoStarted(t0, org, body, h, h');
  }

  /** Both requests have missed the same key. */
  function TwoMissed(t0: Time, org: string, body: string, h: Headers): State {
    State(t0, map[], map[0 := Request(org, body, h, Missed), 1 := Request(org, body, h, Missed)], [])
  }

  lemma ReachTwoMissed(c: Config, t0: Time, org: string, body: string, h: Headers) returns (steps: seq<Step>)
    requires Cacheable(h.accept)
    ensures Reaches(c, t0, steps, TwoMissed(t0, org, body, h)) && Begins(steps, org, body, {h})
  {
    hide Reaches, Key, Begins, Cacheable;
    steps := ReachTwoStarted(c, t0, org, body, h, h);
    var s := TwoStarted(t0, org, body, h, h);
    ReachNext(c, t0, steps, s, Get(0, true));
    var s1 := Next(c, s, Get(0, true));
    ReachNext(c, t0, steps + [Get(0, true)], s1, Get(1, true));
    assert {h, h} == {h};
    BeginsMore(steps, Get(0, true), org, body, {h});
    BeginsMore(steps + [Get(0, true)], Get(1, true), org, body, {h});
    steps := steps + [Get(0, true)] + [Get(1, true)];
    assert Next(c, s1, Get(1, true)) == TwoMissed(t0, org, body, h);
  }

  // ---------- a lock that expires under its holder ----------

  function TwoHolders(c: Config, t0: Time, org: string, body: string): State {
    var r := Request(org, body, CSV, Holder(t0));
    State(t0 + c.lockTtl, map[LockOf(c, r) := Entry("b", 1, Expiry(t0 + c.lockTtl, c.lockTtl))],
          map[0 := r, 1 := r.(pc := Holder(t0 + c.lockTtl))], [])
  }

  lemma ReachTwoHolders(c: Config, t0: Time, org: string, body: string) returns (steps: seq<Step>)
    requires c.lockTtl > 0
    ensures Reaches(c, t0, steps, TwoHolders(c, t0, org, body))
  {
    hide Reaches, Key, LockKey;
    steps := ReachTwoMissed(c, t0, org, body, CSV);
    var s := TwoMissed(t0, org, body, CSV);
    var x, y, z := SetNx(0, "a", Fine), Tick(c.lockTtl), SetNx(1, "b", Fine);
    ReachNext(c, t0, steps, s, x);
    var s1 := Next(c, s, x);
    ReachNext(c, t0, steps + [x], s1, y);
    var s2 := Next(c, s1, y);
    ReachNext(c, t0, steps + [x] + [y], s2, z);
    steps := steps + [x] + [y] + [z];
    assert Next(c, s2, z) == TwoHolders(c, t0, org, body);
  }

  /** Two requests of the same key are in their section at once. */
  lemma ExpiryBreaksExclusion(c: Config, t0: Time, org: string, body: string) returns (steps: seq<Step>)
    requires c.lockTtl > 0
    ensures Reaches(c, t0, steps, TwoHolders(c, t0, org, body)) && !Exclusive(c, TwoHolders(c, t0, org, body))
  {
    hide Reaches, Key, LockKey;
    steps := ReachTwoHolders(c, t0, org, body);
    var s := TwoHolders(c, t0, org, body);
    assert s.reqs[0].pc.InSection() && s.reqs[1].pc.InSection();
  }

  /** The late holder then deletes the lock of the other one, who is still in its section. */
  lemma LateReleaseDeletesForeignLock(c: Config, t0: Time, org: string, body: string) returns (steps: seq<Step>, before: State)
    requires c.lockTtl > 0
    ensures Reaches(c, t0, steps, before) && Enabled(c, before, Release(0, Fine))
    ensures var lock := LockOf(c, before.reqs[0]);
            && lock in before.store && before.store[lock].writer == 1 && 1 in before.reqs
            && LockOf(c, before.reqs[1]) == lock
            && lock !in Next(c, before, Release(0, Fine)).store
            && Next(c, before, Release(0, Fine)).reqs[1].pc.InSection()
  {
    hide Reaches, Key, LockKey;
    steps := ReachTwoHolders(c, t0, org, body);
    var s := TwoHolders(c, t0, org, body);
    var f := ForwardDone(0, s.now, NetError);
    ReachNext(c, t0, steps, s, f);
    steps, before := steps + [f], Next(c, s, f);
  }

  lemma NoEvictNoLockEvicted(steps: seq<Step>)
    requires forall i :: 0 <= i < |steps| ==> !steps[i].Evict?
    ensures NoLockEvicted(steps)
  {
  }

  /** Every run of this configuration that evicts no lock is exclusive at its end. */
  ghost predicate AlwaysExclusive(c: Config) {
    forall t0, steps :: Run(c, t0, steps) && NoLockEvicted(steps) ==> Exclusive(c, After(c, t0, steps))
  }

  /** Exclusion without any hypothesis about time holds exactly when no lock that is granted ever expires. */
  lemma ExclusionIffLocksNeverExpire(c: Config)
    requires Digests(c.hash)
    ensures AlwaysExclusive(c) <==> c.lockTtl <= 0
  {
    hide Exclusive, Digests, Run, After, NoLockEvicted;
    if c.lockTtl <= 0 {
      forall t0, steps | Run(c, t0, steps) && NoLockEvicted(steps) ensures Exclusive(c, After(c, t0, steps)) {
        MutualExclusion(c, t0, steps);
      }
    } else {
      var steps := ExpiryBreaksExclusion(c, 0, "", "");
      NoEvictNoLockEvicted(steps);
    }
  }

  // ---------- two misses in the life of one entry ----------

  /** Request 0 has filled the cache and released the lock; request 1 read before that. */
  function OneFilled(c: Config, t0: Time, org: string, body: string, h: Headers, p: string): State {
    var r := Request(org, body, h, Done(Served(Miss, 200, p)));
    State(t0, map[KeyOf(c, r) := Entry(p, 0, Expiry(t0, JitteredTtl(c, 0)))],
          map[0 := r, 1 := r.(pc := Missed)], [Forward(0, org, body, h, t0, Answer(200, p))])
  }

  /** Request 0 has won the lock, has its answer, and has stored it. */
  lemma ReachStored(c: Config, t0: Time, org: string, body: string, h: Headers, p: string) returns (steps: seq<Step>, s: State)
    requires c.lockTtl >= 0 && Digests(c.hash) && Cacheable(h.accept)
    ensures Reaches(c, t0, steps, s) && Begins(steps, org, body, {h})
    ensures var f := OneFilled(c, t0, org, body, h, p);
      && s.now == t0 && s.log == f.log && s.reqs == f.reqs[0 := f.reqs[0].(pc := Releasing(t0, Served(Miss, 200, p)))]
      && s.store == f.store[LockOf(c, f.reqs[0]) := Entry("a", 0, Expiry(t0, c.lockTtl))]
  {
    hide Reaches, Key, LockKey, JitteredTtl, Digests, Cacheable, Begins;
    steps := ReachTwoMissed(c, t0, org, body, h);
    s := TwoMissed(t0, org, body, h);
    LocksDiffer(c, s.reqs[0], s.reqs[0]);
    var x, y, z := SetNx(0, "a", Fine), ForwardDone(0, t0, Answer(200, p)), SetValue(0, 0, Fine);
    ReachNext(c, t0, steps, s, x);
    BeginsMore(steps, x, org, body, {h});
    steps, s := steps + [x], Next(c, s, x);
    ReachNext(c, t0, steps, s, y);
    BeginsMore(steps, y, org, body, {h});
    steps, s := steps + [y], Next(c, s, y);
    ReachNext(c, t0, steps, s, z);
    BeginsMore(steps, z, org, body, {h});
    steps, s := steps + [z], Next(c, s, z);
  }

  lemma ReachOneFilled(c: Config, t0: Time, org: string, body: string, h: Headers, p: string) returns (steps: seq<Step>)
    requires c.lockTtl >= 0 && Digests(c.hash) && Cacheable(h.accept)
    ensures Reaches(c, t0, steps, OneFilled(c, t0, org, body, h, p)) && Begins(steps, org, body, {h})
  {
    hide Reaches, Key, LockKey, JitteredTtl, Digests, Cacheable, Begins;
    var s;
    steps, s := ReachStored(c, t0, org, body, h, p);
    var f := OneFilled(c, t0, org, body, h, p);
    var w := Release(0, Fine);
    LocksDiffer(c, f.reqs[0], f.reqs[0]);
    ReachNext(c, t0, steps, s, w);
    BeginsMore(steps, w, org, body, {h});
    steps, s := steps + [w], Next(c, s, w);
    assert s.store == f.store && s.reqs == f.reqs;
  }

  /** A second forward for the same key while the first one's entry is alive, although no lock expired and no time passed. */
  lemma TwoMissesInOneLife(c: Config, t0: Time, org: string, body: string, p: string) returns (steps: seq<Step>, s: State)
    requires c.lockTtl >= 0 && Digests(c.hash)
    ensures Reaches(c, t0, steps, s) && s.now == t0
    ensures s.reqs.Keys == {0, 1} && s.reqs[0].pc == Done(Served(Miss, 200, p)) && s.reqs[1].pc.Holder?
    ensures Alive(s, KeyOf(c, s.reqs[0])) && KeyOf(c, s.reqs[0]) == KeyOf(c, s.reqs[1])
    ensures Enabled(c, s, ForwardDone(1, t0, Answer(200, p)))
  {
    hide Reaches, Key, LockKey, JitteredTtl, Digests;
    steps := ReachOneFilled(c, t0, org, body, CSV, p);
    var s0 := OneFilled(c, t0, org, body, CSV, p);
    LocksDiffer(c, s0.reqs[1], s0.reqs[0]);
    var x := SetNx(1, "b", Fine);
    ReachNext(c, t0, steps, s0, x);
    steps, s := steps + [x], Next(c, s0, x);
  }

  /** A request holds the lock beside another one that has had its MISS, while the key of both is alive. */
  ghost predicate SecondMiss(c: Config, s: State) {
    exists i, j :: i in s.reqs && j in s.reqs && i != j && KeyOf(c, s.reqs[i]) == KeyOf(c, s.reqs[j]) && Alive(s, KeyOf(c, s.reqs[i])) &&
      s.reqs[i].pc.Done? && s.reqs[i].pc.result.Served? && s.reqs[i].pc.result.source.Miss? && s.reqs[j].pc.Holder?
  }

  ghost predicate NeverSecondMiss(c: Config) {
    forall t0, steps :: Run(c, t0, steps) && AllLockCallsWork(steps) ==> !SecondMiss(c, After(c, t0, steps))
  }

  /** One MISS in the life of an entry, in every run with working lock calls, exactly when no lock is ever granted. */
  lemma OneMissIffLocksRefused(c: Config)
    requires Digests(c.hash)
    ensures NeverSecondMiss(c) <==> c.lockTtl < 0
  {
    hide Run, After, Digests, AllLockCallsWork, Key, Alive;
    if c.lockTtl < 0 {
      forall t0, steps | Run(c, t0, steps) && AllLockCallsWork(steps) ensures !SecondMiss(c, After(c, t0, steps)) {
        NegativeTtlLocksOut(c, t0, steps);
      }
    } else {
      var steps, s := TwoMissesInOneLife(c, 0, "", "", "");
      assert Run(c, 0, steps) && AllLockCallsWork(steps) && After(c, 0, steps) == s;
      assert 0 in s.reqs && 1 in s.reqs;
      assert SecondMiss(c, s);
    }
  }

  // ---------- hits in the wrong format ----------

  /** A client is served the payload that another client, asking for another format, put there: the key does not cover the headers. */
  lemma HitInWrongFormat(c: Config, t0: Time, org: string, body: string, p: string, h: Headers, h': Headers)
    returns (steps: seq<Step>, s: State)
    requires c.lockTtl >= 0 && Digests(c.hash) && Cacheable(h.accept) && Cacheable(h'.accept)
    ensures Reaches(c, t0, steps, s) && Begins(steps, org, body, {h, h'})
    ensures s == OneFilled(c, t0, org, body, h, p).(reqs := OneFilled(c, t0, org, body, h, p).reqs[2 := Request(org, body, h', Done(Served(Hit, 200, p)))])
    ensures steps != [] && HitAt(c, t0, steps, 2, |steps| - 1) && EntryAt(c, t0, steps, 2, |steps| - 1).writer == 0
    ensures var r := At(c, t0, steps, |steps| - 1).reqs;
            0 in r && r[0].headers == h && r[2].org == org && r[2].body == body && r[2].headers == h'
  {
    hide Run, After, Key, LockKey, JitteredTtl, Digests, Cacheable, Begins;
    steps := ReachOneFilled(c, t0, org, body, h, p);
    var s0 := OneFilled(c, t0, org, body, h, p);
    var x, y := Begin(2, org, body, h'), Get(2, true);
    ReachNext(c, t0, steps, s0, x);
    var s1 := Next(c, s0, x);
    ReachNext(c, t0, steps + [x], s1, y);
    BeginsWider(steps, org, body, {h}, {h, h'});
    BeginsMore(steps, x, org, body, {h, h'});
    BeginsMore(steps + [x], y, org, body, {h, h'});
    var n := |steps| + 1;
    steps, s := steps + [x] + [y], Next(c, s1, y);
    AtShorter(c, t0, steps, n, n);
    assert steps[..n] == steps[..|steps| - 2] + [x];
    AtEnd(c, t0, steps[..n]);
  }

  lemma BeginsWider(steps: seq<Step>, org: string, body: string, hs: set<Headers>, more: set<Headers>)
    requires Begins(steps, org, body, hs) && hs <= more
    ensures Begins(steps, org, body, more)
  {
  }

  /** Requests for this text carry allowed headers. */
  ghost predicate Allows(steps: seq<Step>, org: string, body: string, allowed: Headers -> bool) {
    forall i :: 0 <= i < |steps| && steps[i].Begin? && steps[i].org == org && steps[i].body == body ==> allowed(steps[i].headers)
  }

  /** Every hit for this text was forwarded with the headers of the request it is served to. */
  ghost predicate RightFormat(c: Config, t0: Time, steps: seq<Step>, org: string, body: string)
    requires Run(c, t0, steps)
  {
    forall id, i: nat :: HitAt(c, t0, steps, id, i) ==>
      var s := At(c, t0, steps, i);
      s.reqs[id].org == org && s.reqs[id].body == body ==>
        var w := EntryAt(c, t0, steps, id, i).writer; w in s.reqs && s.reqs[w].headers == s.reqs[id].headers
  }

  ghost predicate AlwaysRightFormat(c: Config, org: string, body: string, allowed: Headers -> bool) {
    forall t0, steps :: Run(c, t0, steps) && Allows(steps, org, body, allowed) && NoCollisions(c, After(c, t0, steps)) ==>
      RightFormat(c, t0, steps, org, body)
  }

  /** The cacheable ones among the allowed headers are all equal. */
  ghost predicate OneCacheable(allowed: Headers -> bool) {
    forall h, h' :: allowed(h) && allowed(h') && Cacheable(h.accept) && Cacheable(h'.accept) ==> h == h'
  }

  /** Headers of a request are those it began with. */
  lemma {:induction false} BegunAllowed(c: Config, t0: Time, steps: seq<Step>, org: string, body: string, allowed: Headers -> bool, id: Id)
    requires Run(c, t0, steps) && Allows(steps, org, body, allowed) && id in After(c, t0, steps).reqs
    ensures var r := After(c, t0, steps).reqs[id]; r.org == org && r.body == body ==> allowed(r.headers)
    decreases |steps|
  {
    hide Next, Enabled;
    if steps != [] {
      var n := |steps| - 1;
      var p := steps[..n];
      var s := After(c, t0, p);
      if id in s.reqs {
        BegunAllowed(c, t0, p, org, body, allowed, id);
        TextKept(c, s, steps[n], id);
      } else {
        OnlyBegin(c, s, steps[n], id);
      }
    }
  }

  lemma OnlyBegin(c: Config, s: State, step: Step, id: Id)
    requires Enabled(c, s, step) && id !in s.reqs && id in Next(c, s, step).reqs
    ensures step.Begin? && step.id == id
    ensures var r := Next(c, s, step).reqs[id]; r.org == step.org && r.body == step.body && r.headers == step.headers
  {
    hide Key, LockKey, JitteredTtl, Cacheable;
  }

  lemma NoHitWhenLockedOut(c: Config, t0: Time, steps: seq<Step>, id: Id, i: nat)
    requires c.lockTtl < 0 && Digests(c.hash) && Run(c, t0, steps)
    ensures !HitAt(c, t0, steps, id, i)
  {
    hide Run, After, Digests, Key, Alive, LongestTtl, Cacheable, FilledBy, JitteredTtl;
    if HitAt(c, t0, steps, id, i) {
      var g, f := HitTraced(c, t0, steps, id, i);
      AtShorter(c, t0, steps, g, g);
      AtEnd(c, t0, steps[..g]);
      NegativeTtlLocksOut(c, t0, steps[..g]);
    }
  }

  lemma HitFormat(c: Config, t0: Time, steps: seq<Step>, org: string, body: string, allowed: Headers -> bool, id: Id, i: nat)
    requires Digests(c.hash) && Run(c, t0, steps) && Allows(steps, org, body, allowed) && NoCollisions(c, After(c, t0, steps))
    requires OneCacheable(allowed) && HitAt(c, t0, steps, id, i)
    requires At(c, t0, steps, i).reqs[id].org == org && At(c, t0, steps, i).reqs[id].body == body
    ensures var s := At(c, t0, steps, i);
            var w := EntryAt(c, t0, steps, id, i).writer;
            w in s.reqs && s.reqs[w].headers == s.reqs[id].headers
  {
    hide Run, After, Digests, Key, Alive, LongestTtl, Cacheable, FilledBy, StoredAt, Allows, NoCollisions, Is2xx;
    var g, f := HitTraced(c, t0, steps, id, i);
    var f' := HitAnswered(c, t0, steps, id, i);
    var s, w := At(c, t0, steps, i), EntryAt(c, t0, steps, id, i).writer;
    SameText(c, t0, steps, i, id);
    SameText(c, t0, steps, i, w);
    BegunAllowed(c, t0, steps, org, body, allowed, id);
    BegunAllowed(c, t0, steps, org, body, allowed, w);
    LogIsOf(c, t0, steps, i, f');
  }

  lemma LogIsOf(c: Config, t0: Time, steps: seq<Step>, i: nat, f: Forward)
    requires Digests(c.hash) && Run(c, t0, steps) && i <= |steps| && f in At(c, t0, steps, i).log
    ensures var s := At(c, t0, steps, i); f.id in s.reqs && f.org == s.reqs[f.id].org && f.body == s.reqs[f.id].body
  {
    hide Run, After, Digests, Inv;
    AtShorter(c, t0, steps, i, i);
    AtEnd(c, t0, steps[..i]);
    InvReached(c, t0, steps[..i]);
    LogTells(c, At(c, t0, steps, i), f);
  }

  /**
    Hits have the right format in every run exactly when the allowed headers hold at most one
    cacheable choice for the text (or a negative lock time to live keeps the cache empty).
  */
  lemma FormatIffOneCacheable(c: Config, org: string, body: string, allowed: Headers -> bool)
    requires Digests(c.hash)
    ensures AlwaysRightFormat(c, org, body, allowed) <==> c.lockTtl < 0 || OneCacheable(allowed)
  {
    hide Run, After, Digests, Allows, NoCollisions, HitAt, Cacheable;
    if c.lockTtl < 0 || OneCacheable(allowed) {
      forall t0, steps | Run(c, t0, steps) && Allows(steps, org, body, allowed) && NoCollisions(c, After(c, t0, steps))
        ensures RightFormat(c, t0, steps, org, body)
      {
        AllHitsRight(c, t0, steps, org, body, allowed);
      }
    } else {
      var h, h' :| allowed(h) && allowed(h') && Cacheable(h.accept) && Cacheable(h'.accept) && h != h';
      WrongSomewhere(c, org, body, allowed, h, h');
    }
  }

  lemma AllHitsRight(c: Config, t0: Time, steps: seq<Step>, org: string, body: string, allowed: Headers -> bool)
    requires Digests(c.hash) && (c.lockTtl < 0 || OneCacheable(allowed))
    requires Run(c, t0, steps) && Allows(steps, org, body, allowed) && NoCollisions(c, After(c, t0, steps))
    ensures RightFormat(c, t0, steps, org, body)
  {
    hide Run, After, Digests, Allows, NoCollisions, OneCacheable, Key, Alive;
    forall id, i: nat | HitAt(c, t0, steps, id, i)
      ensures var s := At(c, t0, steps, i);
              s.reqs[id].org == org && s.reqs[id].body == body ==>
                var w := EntryAt(c, t0, steps, id, i).writer; w in s.reqs && s.reqs[w].headers == s.reqs[id].headers
    {
      if c.lockTtl < 0 {
        NoHitWhenLockedOut(c, t0, steps, id, i);
      } else if At(c, t0, steps, i).reqs[id].org == org && At(c, t0, steps, i).reqs[id].body == body {
        HitFormat(c, t0, steps, org, body, allowed, id, i);
      }
    }
  }

  lemma WrongSomewhere(c: Config, org: string, body: string, allowed: Headers -> bool, h: Headers, h': Headers)
    requires Digests(c.hash) && c.lockTtl >= 0 && h != h'
    requires allowed(h) && allowed(h') && Cacheable(h.accept) && Cacheable(h'.accept)
    ensures !AlwaysRightFormat(c, org, body, allowed)
  {
    hide Run, After, Digests, NoCollision, Cacheable, HitAt, Key, Begins, Preimage, JitteredTtl;
    var steps, s := HitInWrongFormat(c, 0, org, body, "", h, h');
    assert After(c, 0, steps) == s;
    assert NoCollisions(c, s) by {
      OneTextNoCollision(c, s, org, body);
    }
    BeginsAllowed(steps, org, body, h, h', allowed);
    assert !RightFormat(c, 0, steps, org, body) by {
      WrongHit(c, 0, steps, org, body, h, h');
    }
  }

  lemma OneTextNoCollision(c: Config, s: State, org: string, body: string)
    requires forall id :: id in s.reqs ==> s.reqs[id].org == org && s.reqs[id].body == body
    ensures NoCollisions(c, s)
  {
  }

  lemma BeginsAllowed(steps: seq<Step>, org: string, body: string, h: Headers, h': Headers, allowed: Headers -> bool)
    requires Begins(steps, org, body, {h, h'}) && allowed(h) && allowed(h')
    ensures Allows(steps, org, body, allowed)
  {
  }

  lemma WrongHit(c: Config, t0: Time, steps: seq<Step>, org: string, body: string, h: Headers, h': Headers)
    requires Run(c, t0, steps) && steps != [] && HitAt(c, t0, steps, 2, |steps| - 1) && h != h'
    requires EntryAt(c, t0, steps, 2, |steps| - 1).writer == 0
    requires var s := At(c, t0, steps, |steps| - 1);
      && s.reqs[2].org == org && s.reqs[2].body == body && 0 in s.reqs && s.reqs[0].headers == h && s.reqs[2].headers == h'
    ensures !RightFormat(c, t0, steps, org, body)
  {
    hide Run, After, Key, Alive;
  }
}
