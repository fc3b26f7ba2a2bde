/**
  The target manager of internal/upstream/manager.go: weighted round robin over the targets
  whose circuit is not open, and the circuit breaker of each target.
*/
module Upstream {
  import opened Text
  import Modular

  type Time = int

  datatype Target = Target(name: string, url: string, token: string, weight: int)

  /** openUntil is None for Go's zero time, which no clock is before. */
  datatype Breaker = Breaker(failures: int, openUntil: Option<Time>)

  const CLOSED: Breaker := Breaker(0, None)

  datatype Config = Config(targets: seq<Target>, breakerFailures: int, cooldown: int)

  /** The values of the manager's fields: the round-robin counter and the breakers by target name. */
  datatype Fleet = Fleet(rr: nat, states: map<string, Breaker>)

  /** One past the largest uint64. */
  const WRAP: nat := 0x1_0000_0000_0000_0000

  // ---------- the breaker ----------

  function BreakerOf(f: Fleet, name: string): Breaker {
    if name in f.states then f.states[name] else CLOSED
  }

  predicate IsOpen(f: Fleet, name: string, now: Time) {
    var b := BreakerOf(f, name);
    b.openUntil.Some? && now < b.openUntil.value
  }

  function Fail(cfg: Config, b: Breaker, now: Time): Breaker {
    if b.failures + 1 >= cfg.breakerFailures then Breaker(0, Some(now + cfg.cooldown))
    else Breaker(b.failures + 1, b.openUntil)
  }

  function Succeeded(f: Fleet, name: string): Fleet {
    f.(states := f.states[name := CLOSED])
  }

  function Failed(cfg: Config, f: Fleet, name: string, now: Time): Fleet {
    f.(states := f.states[name := Fail(cfg, BreakerOf(f, name), now)])
  }

  datatype Event = Success | Failure(at: Time)

  /** The breaker after a history of events, one event at a time. */
  function Replay(cfg: Config, events: seq<Event>): Breaker {
    if events == [] then CLOSED
    else
      match events[|events| - 1]
      case Success => CLOSED
      case Failure(at) => Fail(cfg, Replay(cfg, events[..|events| - 1]), at)
  }

  /** The times of the failures since the last success. */
  function Streak(events: seq<Event>): seq<Time> {
    if events == [] || events[|events| - 1].Success? then []
    else Streak(events[..|events| - 1]) + [events[|events| - 1].at]
  }

  /** How many failures in a row open the circuit. */
  function Threshold(cfg: Config): (b: int)
    ensures b >= 1
  {
    if cfg.breakerFailures > 1 then cfg.breakerFailures else 1
  }

  /** The breaker as a closed function of the streak. */
  function Closed(cfg: Config, streak: seq<Time>): Breaker {
    var n, b := |streak|, Threshold(cfg);
    Breaker(n % b, if n < b then None else Some(streak[n - n % b - 1] + cfg.cooldown))
  }

  /**
    With b failures needed and n failures since the last success, the counter is n mod b and
    the circuit was last opened by failure number n - n mod b, that is, the latest multiple of b.
  */
  lemma {:induction false} BreakerIsFunctionOfHistory(cfg: Config, events: seq<Event>)
    ensures Replay(cfg, events) == Closed(cfg, Streak(events))
  {
    var b := Threshold(cfg);
    if events == [] || events[|events| - 1].Success? {
      Modular.Small(0, b);
    } else {
      var e := events[..|events| - 1];
      BreakerIsFunctionOfHistory(cfg, e);
      ClosedStep(cfg, Streak(e), events[|events| - 1].at);
    }
  }

  lemma ClosedStep(cfg: Config, streak: seq<Time>, at: Time)
    ensures Closed(cfg, streak + [at]) == Fail(cfg, Closed(cfg, streak), at)
  {
    var n, b := |streak|, Threshold(cfg);
    Modular.Successor(n, b);
    if n + 1 < b {
      Modular.Small(n, b);
      Modular.Small(n + 1, b);
    } else if n < b {
      Modular.Small(n, b);
      Modular.Unique(n + 1, b, 1, 0);
    }
  }

  /** The counter never reaches the threshold, and the circuit has been opened exactly when a full streak has happened. */
  lemma CounterBelowThreshold(cfg: Config, events: seq<Event>)
    ensures var r := Replay(cfg, events);
            0 <= r.failures < Threshold(cfg) && (r.openUntil.Some? <==> |Streak(events)| >= Threshold(cfg))
  {
    BreakerIsFunctionOfHistory(cfg, events);
  }

  ghost predicate Ascending(ts: seq<Time>) {
    forall i, j :: 0 <= i < j < |ts| ==> ts[i] <= ts[j]
  }

  /** Between successes, on a clock that does not go back, the open-until time never decreases. */
  lemma OpenUntilNeverDecreases(cfg: Config, streak: seq<Time>, at: Time)
    requires Ascending(streak + [at])
    ensures var a, b := Closed(cfg, streak), Closed(cfg, streak + [at]);
            a.openUntil.Some? ==> b.openUntil.Some? && a.openUntil.value <= b.openUntil.value
  {
    var t := streak + [at];
    var n, b := |streak|, Threshold(cfg);
    Modular.Successor(n, b);
    if n >= b {
      assert streak[n - n % b - 1] == t[n - n % b - 1];
      assert t[n] == at;
    }
  }

  // ---------- candidates ----------

  function Repeat(t: Target, n: int): (r: seq<Target>)
    ensures |r| == if n > 0 then n else 0
    ensures forall i :: 0 <= i < |r| ==> r[i] == t
  {
    if n <= 0 then [] else Repeat(t, n - 1) + [t]
  }

  /** Each target with an allowed name, as often as its weight says, in configuration order. */
  function Expand(targets: seq<Target>, names: set<string>): seq<Target> {
    if targets == [] then []
    else
      var t := targets[|targets| - 1];
      Expand(targets[..|targets| - 1], names) + (if t.name in names then Repeat(t, t.weight) else [])
  }

  function Names(targets: seq<Target>): set<string> {
    set i | 0 <= i < |targets| :: targets[i].name
  }

  function Untried(cfg: Config, exclude: set<string>): set<string> {
    Names(cfg.targets) - exclude
  }

  function ClosedNames(cfg: Config, f: Fleet, exclude: set<string>, now: Time): set<string> {
    set n | n in Untried(cfg, exclude) && !IsOpen(f, n, now)
  }

  function Candidates(cfg: Config, f: Fleet, exclude: set<string>, now: Time): seq<Target> {
    var w := Expand(cfg.targets, ClosedNames(cfg, f, exclude, now));
    if w != [] then w else Expand(cfg.targets, Untried(cfg, exclude))
  }

  /** PickTarget: the next candidate in turn, and the advanced counter. */
  function Pick(cfg: Config, f: Fleet, exclude: set<string>, now: Time): Option<(Target, Fleet)> {
    var c := Candidates(cfg, f, exclude, now);
    if c == [] then None
    else
      var idx := (f.rr + 1) % WRAP;
      Some((c[idx % |c|], f.(rr := idx)))
  }

  /** A target is in the expansion exactly when it is configured, allowed and has weight. */
  lemma {:induction false} ExpandMembers(targets: seq<Target>, names: set<string>, t: Target)
    ensures t in Expand(targets, names) <==> t in targets && t.name in names && t.weight > 0
  {
    if targets != [] {
      var n := |targets| - 1;
      ExpandMembers(targets[..n], names, t);
      var l := targets[n];
      assert targets == targets[..n] + [l];
      if l.name in names && l.weight > 0 {
        assert Repeat(l, l.weight)[0] == l;
      }
    }
  }

  ghost predicate PositiveWeights(cfg: Config) {
    forall i :: 0 <= i < |cfg.targets| ==> cfg.targets[i].weight > 0
  }

  ghost predicate DistinctNames(targets: seq<Target>) {
    forall i, j :: 0 <= i < j < |targets| ==> targets[i].name != targets[j].name
  }

  /** Some target is configured under each name. */
  lemma NameHasTarget(targets: seq<Target>, n: string) returns (t: Target)
    requires n in Names(targets)
    ensures t in targets && t.name == n
  {
    var i :| 0 <= i < |targets| && targets[i].name == n;
    t := targets[i];
  }

  /**
    The candidates, by the stored open-until times: a target is one exactly when it is configured
    with weight, untried, and either not before its open-until time, or every untried target
    with weight is before its own.
  */
  lemma CandidatesSpec(cfg: Config, f: Fleet, exclude: set<string>, now: Time, t: Target)
    ensures t in Candidates(cfg, f, exclude, now) <==>
      && t in cfg.targets && t.weight > 0 && t.name !in exclude
      && (!(t.name in f.states && f.states[t.name].openUntil.Some? && now < f.states[t.name].openUntil.value) ||
          forall x :: x in cfg.targets && x.weight > 0 && x.name !in exclude ==>
            x.name in f.states && f.states[x.name].openUntil.Some? && now < f.states[x.name].openUntil.value)
  {
    hide Expand, Names;
    var closed, u := ClosedNames(cfg, f, exclude, now), Untried(cfg, exclude);
    forall x | x in cfg.targets ensures x.name in Names(cfg.targets) {
      TargetHasName(cfg.targets, x);
    }
    forall x ensures x in Expand(cfg.targets, closed) <==> x in cfg.targets && x.name in closed && x.weight > 0 {
      ExpandMembers(cfg.targets, closed, x);
    }
    ExpandMembers(cfg.targets, u, t);
    var w := Expand(cfg.targets, closed);
    assert w != [] ==> w[0] in w;
  }

  lemma TargetHasName(targets: seq<Target>, t: Target)
    requires t in targets
    ensures t.name in Names(targets)
  {
  }

  /**
    A pick is made exactly when an untried name is left; it is an untried configured target, and
    it is before its open-until time only if every untried one is.
  */
  lemma PickSpec(cfg: Config, f: Fleet, exclude: set<string>, now: Time)
    requires PositiveWeights(cfg)
    ensures var p := Pick(cfg, f, exclude, now);
      && (p.Some? <==> Untried(cfg, exclude) != {})
      && (p.Some? ==>
            var (t, f') := p.value;
            && t in cfg.targets && t.name in Untried(cfg, exclude) && f'.states == f.states
            && (t.name in f.states && f.states[t.name].openUntil.Some? && now < f.states[t.name].openUntil.value ==>
                  forall n :: n in Untried(cfg, exclude) ==>
                    n in f.states && f.states[n].openUntil.Some? && now < f.states[n].openUntil.value))
  {
    hide Expand, Candidates, Names;
    var u := Untried(cfg, exclude);
    var c := Candidates(cfg, f, exclude, now);
    if c != [] {
      var t := c[(f.rr + 1) % WRAP % |c|];
      assert t in c;
      CandidatesSpec(cfg, f, exclude, now, t);
      TargetHasName(cfg.targets, t);
      assert t.name in u;
      forall n | n in u ensures exists x :: x in cfg.targets && x.weight > 0 && x.name == n {
        var x := NameHasTarget(cfg.targets, n);
      }
    } else if n :| n in u {
      SomeCandidate(cfg, f, exclude, now, n);
    }
  }

  lemma SomeCandidate(cfg: Config, f: Fleet, exclude: set<string>, now: Time, n: string)
    requires PositiveWeights(cfg) && n in Untried(cfg, exclude)
    ensures Candidates(cfg, f, exclude, now) != []
  {
    hide Expand, Candidates, Names, IsOpen;
    var t := NameHasTarget(cfg.targets, n);
    CandidatesSpec(cfg, f, exclude, now, t);
    if t !in Candidates(cfg, f, exclude, now) {
      var x :| x in cfg.targets && x.weight > 0 && x.name !in exclude &&
               !(x.name in f.states && f.states[x.name].openUntil.Some? && now < f.states[x.name].openUntil.value);
      CandidatesSpec(cfg, f, exclude, now, x);
    }
  }

  lemma LastFullStreak(n: nat, b: int)
    requires b >= 1 && n >= b
    ensures 0 <= n - n % b - 1 < n
  {
    if n - n % b < b {
      Modular.FloorMultiple(n, b);
      Modular.Small(n - n % b, b);
    }
  }

  /**
    Breaker and pick together: while some other untried target is not before its open-until time,
    a target with this history is a candidate exactly when it has not failed b times in a row
    since its last success, or the cooldown is over since the latest failure in a row whose
    number is a multiple of b.
  */
  lemma CandidateByHistory(cfg: Config, f: Fleet, exclude: set<string>, now: Time, events: seq<Event>, t: Target, other: Target)
    requires t in cfg.targets && t.weight > 0 && t.name !in exclude && t.name in f.states && f.states[t.name] == Replay(cfg, events)
    requires other in cfg.targets && other.weight > 0 && other.name !in exclude
    requires !(other.name in f.states && f.states[other.name].openUntil.Some? && now < f.states[other.name].openUntil.value)
    ensures var s, b := Streak(events), if cfg.breakerFailures > 1 then cfg.breakerFailures else 1;
      |s| >= b ==> 0 <= |s| - |s| % b - 1 < |s|
    ensures var s, b := Streak(events), if cfg.breakerFailures > 1 then cfg.breakerFailures else 1;
      t in Candidates(cfg, f, exclude, now) <==> |s| < b || s[|s| - |s| % b - 1] + cfg.cooldown <= now
  {
    hide Candidates, Streak, Replay;
    BreakerIsFunctionOfHistory(cfg, events);
    CandidatesSpec(cfg, f, exclude, now, t);
    var s, b := Streak(events), Threshold(cfg);
    if |s| >= b {
      LastFullStreak(|s|, b);
    }
  }

  /**
    A target whose latest failure, at the instant at, completes a full streak is not picked
    before the cooldown is over, while an untried target is left that is not before its own
    open-until time.
  */
  lemma TrippedIsAvoided(cfg: Config, f: Fleet, exclude: set<string>, now: Time, events: seq<Event>, at: Time, name: string, other: Target)
    requires PositiveWeights(cfg) && name in f.states && f.states[name] == Replay(cfg, events + [Failure(at)])
    requires (|Streak(events)| + 1) % (if cfg.breakerFailures > 1 then cfg.breakerFailures else 1) == 0
    requires other in cfg.targets && other.name !in exclude
    requires !(other.name in f.states && f.states[other.name].openUntil.Some? && now < f.states[other.name].openUntil.value)
    requires now < at + cfg.cooldown
    ensures var p := Pick(cfg, f, exclude, now); p.Some? && p.value.0.name != name
  {
    hide Pick, Streak, Names, Closed;
    assert (events + [Failure(at)])[..|events|] == events;
    BreakerIsFunctionOfHistory(cfg, events);
    TripsNow(cfg, Streak(events), at);
    TargetHasName(cfg.targets, other);
    assert other.name in Untried(cfg, exclude);
    PickSpec(cfg, f, exclude, now);
    var p := Pick(cfg, f, exclude, now);
    assert p.Some?;
  }

  /** The failure that completes a streak opens the circuit for the cooldown. */
  lemma TripsNow(cfg: Config, streak: seq<Time>, at: Time)
    requires (|streak| + 1) % Threshold(cfg) == 0
    ensures Fail(cfg, Closed(cfg, streak), at) == Breaker(0, Some(at + cfg.cooldown))
  {
    ClosedStep(cfg, streak, at);
    var n, b := |streak|, Threshold(cfg);
    if n + 1 < b {
      Modular.Small(n + 1, b);
    }
  }

  // ---------- fairness ----------

  /** What the counter values pick from a list of candidates. */
  function Chosen<T>(l: seq<T>, idxs: seq<nat>): seq<T>
    requires l != []
  {
    seq(|idxs|, i requires 0 <= i < |idxs| => l[idxs[i] % |l|])
  }

  function Consecutive(k: nat, n: nat): seq<nat> {
    seq(n, i requires 0 <= i < n => k + i)
  }

  /** One turn of the counter through a list picks every entry once. */
  lemma {:induction false} OneTurn<T>(l: seq<T>, k: nat)
    requires l != []
    ensures multiset(Chosen(l, Consecutive(k, |l|))) == multiset(l)
  {
    var w := |l|;
    var c := Chosen(l, Consecutive(k, w));
    if k == 0 {
      forall i | 0 <= i < w ensures c[i] == l[i] {
        Modular.Small(i, w);
      }
      assert c == l;
    } else {
      OneTurn(l, k - 1);
      var p := Chosen(l, Consecutive(k - 1, w));
      Modular.AddMultiple(k - 1, w, 1);
      assert c[w - 1] == p[0];
      assert c[..w - 1] == p[1..];
      assert c == c[..w - 1] + [c[w - 1]];
      assert p == [p[0]] + p[1..];
    }
  }

  /** Picks depend on the counter values as a collection, not on who got which. */
  lemma {:induction false} AnyInterleaving<T>(l: seq<T>, a: seq<nat>, b: seq<nat>)
    requires l != [] && multiset(a) == multiset(b)
    ensures multiset(Chosen(l, a)) == multiset(Chosen(l, b))
    decreases |a|
  {
    hide Chosen;
    if a == [] {
      assert |multiset(b)| == 0;
      assert b == [];
    } else {
      var x := a[0];
      var j := Remove(b, x, a);
      AnyInterleaving(l, a[1..], b[..j] + b[j + 1..]);
      ChosenParts(l, [], x, a[1..]);
      ChosenParts(l, b[..j], x, b[j + 1..]);
      assert [] + [x] + a[1..] == a && [] + a[1..] == a[1..];
    }
  }

  lemma Remove(b: seq<nat>, x: nat, a: seq<nat>) returns (j: nat)
    requires multiset(a) == multiset(b) && a != [] && x == a[0]
    ensures j < |b| && b == b[..j] + [x] + b[j + 1..] && multiset(a[1..]) == multiset(b[..j] + b[j + 1..])
  {
    assert a[0] in multiset(b);
    j :| 0 <= j < |b| && b[j] == x;
    WithoutOne(a, 0);
    WithoutOne(b, j);
    assert a[..0] + a[1..] == a[1..];
  }

  lemma WithoutOne(b: seq<nat>, j: nat)
    requires j < |b|
    ensures b == b[..j] + [b[j]] + b[j + 1..] && multiset(b[..j] + b[j + 1..]) == multiset(b) - multiset{b[j]}
  {
    assert b == b[..j] + [b[j]] + b[j + 1..];
  }

  lemma ChosenParts<T>(l: seq<T>, a: seq<nat>, x: nat, b: seq<nat>)
    requires l != []
    ensures multiset(Chosen(l, a + [x] + b)) == multiset(Chosen(l, a + b)) + multiset{l[x % |l|]}
  {
    var c, d := Chosen(l, a + [x] + b), Chosen(l, a + b);
    assert c == d[..|a|] + [l[x % |l|]] + d[|a|..];
    assert d == d[..|a|] + d[|a|..];
  }

  /** How often the list of candidates holds a target. */
  lemma {:induction false} ExpandCount(targets: seq<Target>, names: set<string>, t: Target)
    requires DistinctNames(targets)
    ensures multiset(Expand(targets, names))[t] == if t in targets && t.name in names && t.weight > 0 then t.weight else 0
  {
    if targets == [] {
    } else {
      var n := |targets| - 1;
      var l := targets[n];
      ExpandCount(targets[..n], names, t);
      assert targets == targets[..n] + [l];
      if l.name in names {
        RepeatCount(l, l.weight, t);
      }
      if t == l {
        assert forall i :: 0 <= i < n ==> targets[..n][i].name != l.name;
        assert t !in targets[..n];
      }
    }
  }

  lemma {:induction false} RepeatCount(l: Target, n: int, t: Target)
    ensures multiset(Repeat(l, n))[t] == if t == l && n > 0 then n else 0
  {
    if n > 0 {
      RepeatCount(l, n - 1, t);
    }
  }

  /**
    Exact weighted fairness: over as many picks as the total weight, with consecutive counter
    values in any order and the same candidates each time, every allowed target is picked
    exactly weight times.
  */
  lemma WeightedFairness(targets: seq<Target>, names: set<string>, k: nat, idxs: seq<nat>, t: Target)
    requires DistinctNames(targets) && Expand(targets, names) != []
    requires multiset(idxs) == multiset(Consecutive(k, |Expand(targets, names)|))
    ensures multiset(Chosen(Expand(targets, names), idxs))[t] ==
            if t in targets && t.name in names && t.weight > 0 then t.weight else 0
  {
    var l := Expand(targets, names);
    AnyInterleaving(l, idxs, Consecutive(k, |l|));
    OneTurn(l, k);
    ExpandCount(targets, names, t);
  }

  // ---------- the counter wraps ----------

  /** The values of the counter after n increments from k, as a uint64. */
  function Wrapped(k: nat, n: nat): seq<nat> {
    seq(n, i requires 0 <= i < n => (k + i) % WRAP)
  }

  /** One turn picks every entry once, for every list of w candidates. */
  ghost predicate FairTurn(k: nat, w: nat)
    requires w > 0
  {
    forall l: seq<nat> :: |l| == w ==> multiset(Chosen(l, Wrapped(k, w))) == multiset(l)
  }

  /** Across the wrap too, if the number of entries divides 2^64. */
  lemma WrappedTurn<T>(l: seq<T>, k: nat)
    requires l != [] && (WRAP % |l| == 0 || k + |l| <= WRAP)
    ensures multiset(Chosen(l, Wrapped(k, |l|))) == multiset(l)
  {
    var w := |l|;
    OneTurn(l, k);
    forall i | 0 <= i < w ensures Wrapped(k, w)[i] % w == (k + i) % w {
      if WRAP % w == 0 {
        Modular.Nested(k + i, WRAP, w);
      } else {
        Modular.Small(k + i, WRAP);
      }
    }
    assert Chosen(l, Wrapped(k, w)) == Chosen(l, Consecutive(k, w));
  }

  lemma FairWhenDividing(k: nat, w: nat)
    requires w > 0 && (WRAP % w == 0 || k + w <= WRAP)
    ensures FairTurn(k, w)
  {
    hide Chosen;
    forall l: seq<nat> | |l| == w ensures multiset(Chosen(l, Wrapped(k, w))) == multiset(l) {
      WrappedTurn(l, k);
    }
  }

  lemma TwiceMeansUnfair(k: nat, w: nat, i: nat, j: nat)
    requires i < j < w && Wrapped(k, w)[i] % w == Wrapped(k, w)[j] % w
    ensures !FairTurn(k, w)
  {
    var l := Consecutive(0, w);
    var c := Chosen(l, Wrapped(k, w));
    var x := c[i];
    assert c[j] == x;
    assert c == c[..i] + [x] + c[i + 1..j] + [x] + c[j + 1..];
    assert multiset(c)[x] >= 2;
    OnceEach(w, x);
    assert |l| == w && multiset(c) != multiset(l);
  }

  lemma {:induction false} OnceEach(w: nat, x: nat)
    ensures multiset(Consecutive(0, w))[x] == if x < w then 1 else 0
  {
    if w > 0 {
      OnceEach(w - 1, x);
      assert Consecutive(0, w) == Consecutive(0, w - 1) + [w - 1];
    }
  }

  /** The counters WRAP - r and 0 both pick entry 0. */
  lemma UnfairAtZero(k: nat, w: nat, r: nat, a: nat)
    requires 0 < r <= a < w < WRAP + w && r == WRAP % w && a == WRAP - k && k < WRAP
    ensures !FairTurn(k, w)
  {
    hide FairTurn;
    Modular.Small(WRAP - r, WRAP);
    assert WRAP == w * (WRAP / w) + r;
    Modular.Unique(WRAP - r, w, WRAP / w, 0);
    Modular.Unique(WRAP, WRAP, 1, 0);
    Modular.Small(0, w);
    var i := a - r;
    assert k + i == WRAP - r && k + a == WRAP;
    TwiceMeansUnfair(k, w, i, a);
  }

  /** The counters WRAP - a and r - a both pick entry r - a. */
  lemma UnfairAtFirst(k: nat, w: nat, r: nat, a: nat)
    requires 0 < a < r < w && r == WRAP % w && a == WRAP - k && k < WRAP
    ensures !FairTurn(k, w)
  {
    hide FairTurn;
    Modular.Small(k, WRAP);
    assert WRAP == w * (WRAP / w) + r;
    Modular.Unique(k, w, WRAP / w, r - a);
    Modular.Unique(k + r, WRAP, 1, r - a);
    Modular.Small(r - a, w);
    TwiceMeansUnfair(k, w, 0, r);
  }

  lemma UnfairAcrossWrap(k: nat, w: nat)
    requires w > 0 && k < WRAP < k + w && WRAP % w != 0
    ensures !FairTurn(k, w)
  {
    hide FairTurn;
    var r, a := WRAP % w, WRAP - k;
    if r <= a {
      UnfairAtZero(k, w, r, a);
    } else {
      UnfairAtFirst(k, w, r, a);
    }
  }

  /** With the uint64 counter, a turn is fair exactly when it does not cross the wrap or the total weight divides 2^64. */
  lemma FairIffNoWrapOrDividing(k: nat, w: nat)
    requires w > 0 && k < WRAP
    ensures FairTurn(k, w) <==> k + w <= WRAP || WRAP % w == 0
  {
    hide FairTurn;
    if k + w <= WRAP || WRAP % w == 0 {
      FairWhenDividing(k, w);
    } else {
      UnfairAcrossWrap(k, w);
    }
  }

  // ---------- fairness of PickTarget ----------

  /** A call of PickTarget: the manager it finds, the excluded names, the clock. */
  datatype PickCall = PickCall(fleet: Fleet, exclude: set<string>, now: Time)

  function PickOf(cfg: Config, t: PickCall): Option<(Target, Fleet)> { Pick(cfg, t.fleet, t.exclude, t.now) }

  /** Every call picks from the candidates l, and finds the counter as the call before left it; breakers may change in between. */
  ghost predicate Successive(cfg: Config, turns: seq<PickCall>, l: seq<Target>) {
    && (forall i :: 0 <= i < |turns| ==> Candidates(cfg, turns[i].fleet, turns[i].exclude, turns[i].now) == l)
    && (forall i :: 0 <= i < |turns| - 1 ==> PickOf(cfg, turns[i]).Some? && turns[i + 1].fleet.rr == PickOf(cfg, turns[i]).value.1.rr)
  }

  function Picked(cfg: Config, turns: seq<PickCall>): seq<Option<Target>> {
    seq(|turns|, i requires 0 <= i < |turns| =>
      var p := PickOf(cfg, turns[i]); if p.Some? then Some(p.value.0) else None)
  }

  /** What the counter values pick, as results of calls. */
  function Somes(ts: seq<Target>): seq<Option<Target>> {
    seq(|ts|, i requires 0 <= i < |ts| => Some(ts[i]))
  }

  lemma {:induction false} CounterOf(cfg: Config, turns: seq<PickCall>, l: seq<Target>, i: nat)
    requires l != [] && Successive(cfg, turns, l) && i < |turns| && turns[0].fleet.rr < WRAP
    ensures turns[i].fleet.rr == (turns[0].fleet.rr + i) % WRAP
  {
    hide Candidates;
    var k := turns[0].fleet.rr;
    if i == 0 {
      Modular.Small(k, WRAP);
    } else {
      CounterOf(cfg, turns, l, i - 1);
      assert turns[i - 1 + 1].fleet.rr == PickOf(cfg, turns[i - 1]).value.1.rr;
      NextCounter(k + i - 1);
    }
  }

  lemma NextCounter(n: nat)
    ensures (n % WRAP + 1) % WRAP == (n + 1) % WRAP
  {
    Modular.Successor(n, WRAP);
    if n % WRAP + 1 == WRAP {
      Modular.Unique(WRAP, WRAP, 1, 0);
    } else {
      Modular.Small(n % WRAP + 1, WRAP);
    }
  }

  lemma PickedIsChosen(cfg: Config, turns: seq<PickCall>, l: seq<Target>)
    requires l != [] && Successive(cfg, turns, l) && turns != [] && turns[0].fleet.rr < WRAP
    ensures Picked(cfg, turns) == Somes(Chosen(l, Wrapped(turns[0].fleet.rr + 1, |turns|)))
  {
    hide Candidates, Successive, PickOf;
    var k := turns[0].fleet.rr;
    var w := Wrapped(k + 1, |turns|);
    forall i | 0 <= i < |turns| ensures PickOf(cfg, turns[i]).Some? && PickOf(cfg, turns[i]).value.0 == l[w[i] % |l|] {
      PickedAt(cfg, turns, l, i);
    }
  }

  /** Successive picks over the same candidates go through them in order, from the one after the counter on, and start over where the counter wraps. */
  lemma PickedAt(cfg: Config, turns: seq<PickCall>, l: seq<Target>, i: nat)
    requires l != [] && Successive(cfg, turns, l) && i < |turns| && turns[0].fleet.rr < WRAP
    ensures PickOf(cfg, turns[i]).Some?
    ensures PickOf(cfg, turns[i]).value.0 == l[(turns[0].fleet.rr + 1 + i) % 0x1_0000_0000_0000_0000 % |l|]
  {
    hide Candidates;
    CounterOf(cfg, turns, l, i);
    NextCounter(turns[0].fleet.rr + i);
  }

  lemma {:induction false} SomesCount(ts: seq<Target>, t: Target)
    ensures multiset(Somes(ts))[Some(t)] == multiset(ts)[t]
  {
    if ts != [] {
      var n := |ts| - 1;
      SomesCount(ts[..n], t);
      assert Somes(ts) == Somes(ts[..n]) + [Some(ts[n])];
      assert ts == ts[..n] + [ts[n]];
    }
  }

  lemma CandidateCount(cfg: Config, f: Fleet, exclude: set<string>, now: Time, t: Target)
    requires DistinctNames(cfg.targets)
    ensures var l := Candidates(cfg, f, exclude, now); multiset(l)[t] == if t in l then t.weight else 0
  {
    hide Expand, ClosedNames, Untried;
    ExpandCount(cfg.targets, ClosedNames(cfg, f, exclude, now), t);
    ExpandCount(cfg.targets, Untried(cfg, exclude), t);
    ExpandMembers(cfg.targets, ClosedNames(cfg, f, exclude, now), t);
    ExpandMembers(cfg.targets, Untried(cfg, exclude), t);
  }

  /**
    Fairness of PickTarget itself: over as many successive calls as the candidates weigh
    together, all seeing the same candidates, each candidate is picked exactly its weight times
    and nothing else is picked, from any counter value from which the turn does not cross the
    wrap, or from any at all if the total weight divides 2^64.
  */
  lemma PicksAreFair(cfg: Config, turns: seq<PickCall>, l: seq<Target>, t: Target)
    requires DistinctNames(cfg.targets) && l != [] && |turns| == |l| && Successive(cfg, turns, l)
    requires turns[0].fleet.rr < WRAP && (turns[0].fleet.rr + 1 + |l| <= WRAP || WRAP % |l| == 0)
    ensures multiset(Picked(cfg, turns))[Some(t)] == if t in l then t.weight else 0
  {
    hide Candidates, Chosen, Picked, Somes, Wrapped;
    var k := turns[0].fleet.rr;
    PickedIsChosen(cfg, turns, l);
    WrappedTurn(l, k + 1);
    SomesCount(Chosen(l, Wrapped(k + 1, |l|)), t);
    assert l == Candidates(cfg, turns[0].fleet, turns[0].exclude, turns[0].now);
    CandidateCount(cfg, turns[0].fleet, turns[0].exclude, turns[0].now, t);
  }
}
