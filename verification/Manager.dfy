/**
  The Manager of internal/upstream/manager.go as an object: its methods update the counter and
  the breakers in place. A ghost history of events per target shows that the breakers are
  always the closed function of what has happened.
*/
module ManagerObject {
  import opened Text
  import opened Upstream

  class Manager {
    const cfg: Config
    var rr: nat
    var states: map<string, Breaker>
    ghost var history: map<string, seq<Event>>

    ghost function View(): Fleet
      reads this
    {
      Fleet(rr, states)
    }

    ghost predicate Valid()
      reads this
    {
      && rr < WRAP
      && states.Keys == history.Keys
      && forall n :: n in states ==> states[n] == Closed(cfg, Streak(history[n]))
    }

    /** NewManager: every configured target starts with a closed circuit. */
    constructor (cfg: Config)
      ensures Valid() && this.cfg == cfg && rr == 0
      ensures states.Keys == Names(cfg.targets)
      ensures forall n :: n in states ==> states[n] == CLOSED && history[n] == []
    {
      this.cfg := cfg;
      rr := 0;
      states, history := map[], map[];
      new;
      var i := 0;
      while i < |cfg.targets|
        invariant 0 <= i <= |cfg.targets| && rr == 0 && this.cfg == cfg
        invariant states.Keys == history.Keys == Names(cfg.targets[..i])
        invariant forall n :: n in states ==> states[n] == CLOSED && history[n] == []
      {
        assert cfg.targets[..i + 1] == cfg.targets[..i] + [cfg.targets[i]];
        NamesOfOneMore(cfg.targets[..i], cfg.targets[i]);
        states := states[cfg.targets[i].name := CLOSED];
        history := history[cfg.targets[i].name := []];
        i := i + 1;
      }
      assert cfg.targets[..i] == cfg.targets;
      BreakerIsFunctionOfHistory(cfg, []);
    }

    /** The nested loops of PickTarget: the weighted lists of closed and of all untried targets. */
    method Lists(exclude: set<string>, now: Time) returns (weighted: seq<Target>, fallback: seq<Target>)
      ensures weighted == Expand(cfg.targets, ClosedNames(cfg, View(), exclude, now))
      ensures fallback == Expand(cfg.targets, Untried(cfg, exclude))
      ensures forall t :: t in fallback <==> t in cfg.targets && t.weight > 0 && t.name !in exclude
      ensures forall t :: t in weighted <==>
                t in cfg.targets && t.weight > 0 && t.name !in exclude &&
                !(t.name in states && states[t.name].openUntil.Some? && now < states[t.name].openUntil.value)
    {
      hide Expand, Repeat, Names;
      weighted, fallback := [], [];
      ghost var closed, untried := ClosedNames(cfg, View(), exclude, now), Untried(cfg, exclude);
      ExpandNone(closed);
      ExpandNone(untried);
      var i := 0;
      while i < |cfg.targets|
        invariant 0 <= i <= |cfg.targets|
        invariant weighted == Expand(cfg.targets[..i], closed)
        invariant fallback == Expand(cfg.targets[..i], untried)
      {
        var t := cfg.targets[i];
        ghost var before := cfg.targets[..i];
        HasName(cfg.targets, i);
        assert cfg.targets[..i + 1] == before + [t];
        ExpandOneMore(before, t, closed);
        ExpandOneMore(before, t, untried);
        if t.name !in exclude {
          var isOpen := t.name in states && states[t.name].openUntil.Some? && now < states[t.name].openUntil.value;
          RepeatNone(t);
          var j := 0;
          while j < t.weight
            invariant 0 <= j && (j <= t.weight || j == 0)
            invariant fallback == Expand(before, untried) + Repeat(t, j)
            invariant weighted == Expand(before, closed) + (if isOpen then [] else Repeat(t, j))
          {
            RepeatOneMore(t, j);
            fallback := fallback + [t];
            if !isOpen {
              weighted := weighted + [t];
            }
            j := j + 1;
          }
          RepeatUpTo(t, j);
        }
        i := i + 1;
      }
      assert cfg.targets[..i] == cfg.targets;
      InTheLists(cfg, View(), exclude, now);
    }

    /** PickTarget: the closed targets, or all untried ones if none is closed, read at the next counter value. */
    method PickTarget(exclude: set<string>, now: Time) returns (r: Option<Target>)
      requires Valid()
      modifies this`rr
      ensures Valid()
      ensures match Pick(cfg, old(View()), exclude, now)
              case None => r == None && View() == old(View())
              case Some((t, f)) => r == Some(t) && View() == f
      ensures r.Some? && r.value.name in states && states[r.value.name].openUntil.Some? && now < states[r.value.name].openUntil.value ==>
                forall t :: t in cfg.targets && t.weight > 0 && t.name !in exclude ==>
                  t.name in states && states[t.name].openUntil.Some? && now < states[t.name].openUntil.value
    {
      hide Expand, Closed, Streak, ClosedNames, Untried;
      var weighted, fallback := Lists(exclude, now);
      var candidates := if |weighted| == 0 then fallback else weighted;
      if |candidates| == 0 {
        return None;
      }
      rr := (rr + 1) % WRAP;
      r := Some(candidates[rr % |candidates|]);
    }

    /** RecordSuccess: the streak ends and the circuit closes. */
    method RecordSuccess(name: string)
      requires Valid()
      modifies this`states, this`history
      ensures Valid() && View() == Succeeded(old(View()), name)
      ensures history == old(history)[name := HistoryOf(old(history), name) + [Success]]
    {
      hide Closed, Streak;
      states := states[name := CLOSED];
      history := history[name := HistoryOf(history, name) + [Success]];
      StreakEnds(cfg, HistoryOf(old(history), name));
    }

    /** RecordFailure: the counter goes up, or the circuit opens for the cooldown and the counter starts again. */
    method RecordFailure(name: string, now: Time)
      requires Valid()
      modifies this`states, this`history
      ensures Valid() && View() == Failed(cfg, old(View()), name, now)
      ensures history == old(history)[name := HistoryOf(old(history), name) + [Failure(now)]]
    {
      hide Closed, Streak;
      var b := if name in states then states[name] else CLOSED;
      var failures := b.failures + 1;
      if failures >= cfg.breakerFailures {
        states := states[name := Breaker(0, Some(now + cfg.cooldown))];
      } else {
        states := states[name := Breaker(failures, b.openUntil)];
      }
      ghost var h := HistoryOf(history, name);
      history := history[name := h + [Failure(now)]];
      NothingHappened(cfg);
      StreakGrows(cfg, h, now);
    }
  }

  function HistoryOf(history: map<string, seq<Event>>, name: string): seq<Event> {
    if name in history then history[name] else []
  }

  lemma NamesOfOneMore(ts: seq<Target>, t: Target)
    ensures Names(ts + [t]) == Names(ts) + {t.name}
  {
    var l := ts + [t];
    assert l[|ts|] == t;
    forall n | n in Names(ts) ensures n in Names(l) {
      var i :| 0 <= i < |ts| && ts[i].name == n;
      assert l[i] == ts[i];
    }
  }

  /** What is in the two lists, by the stored open-until times. */
  lemma InTheLists(cfg: Config, f: Fleet, exclude: set<string>, now: Time)
    ensures forall t :: t in Expand(cfg.targets, Untried(cfg, exclude)) <==> t in cfg.targets && t.weight > 0 && t.name !in exclude
    ensures forall t :: t in Expand(cfg.targets, ClosedNames(cfg, f, exclude, now)) <==>
              t in cfg.targets && t.weight > 0 && t.name !in exclude &&
              !(t.name in f.states && f.states[t.name].openUntil.Some? && now < f.states[t.name].openUntil.value)
  {
    hide Expand, Names;
    forall t ensures t in cfg.targets ==> t.name in Names(cfg.targets) {
      if t in cfg.targets {
        TargetHasName(cfg.targets, t);
      }
    }
    forall t ensures t in Expand(cfg.targets, Untried(cfg, exclude)) <==> t in cfg.targets && t.weight > 0 && t.name !in exclude {
      ExpandMembers(cfg.targets, Untried(cfg, exclude), t);
    }
    forall t ensures t in Expand(cfg.targets, ClosedNames(cfg, f, exclude, now)) <==>
                       t in cfg.targets && t.weight > 0 && t.name in ClosedNames(cfg, f, exclude, now) {
      ExpandMembers(cfg.targets, ClosedNames(cfg, f, exclude, now), t);
    }
  }

  lemma ExpandOneMore(ts: seq<Target>, t: Target, names: set<string>)
    ensures Expand(ts + [t], names) == Expand(ts, names) + (if t.name in names then Repeat(t, t.weight) else [])
  {
    assert (ts + [t])[..|ts|] == ts;
  }

  lemma RepeatUpTo(t: Target, j: int)
    requires j >= 0 && (j == t.weight || (j == 0 && t.weight <= 0))
    ensures Repeat(t, j) == Repeat(t, t.weight)
  {
  }

  lemma NothingHappened(cfg: Config)
    ensures Closed(cfg, Streak([])) == CLOSED
  {
    BreakerIsFunctionOfHistory(cfg, []);
  }

  lemma StreakEnds(cfg: Config, h: seq<Event>)
    ensures Closed(cfg, Streak(h + [Success])) == CLOSED
  {
    BreakerIsFunctionOfHistory(cfg, h + [Success]);
  }

  lemma StreakGrows(cfg: Config, h: seq<Event>, now: Time)
    ensures Closed(cfg, Streak(h + [Failure(now)])) == Fail(cfg, Closed(cfg, Streak(h)), now)
  {
    assert (h + [Failure(now)])[..|h|] == h;
    ClosedStep(cfg, Streak(h), now);
  }

  lemma ExpandNone(names: set<string>)
    ensures Expand([], names) == []
  {
  }

  lemma HasName(ts: seq<Target>, i: nat)
    requires i < |ts|
    ensures ts[i].name in Names(ts)
  {
  }

  lemma RepeatNone(t: Target)
    ensures Repeat(t, 0) == []
  {
  }

  lemma RepeatOneMore(t: Target, j: int)
    requires j >= 0
    ensures Repeat(t, j + 1) == Repeat(t, j) + [t]
  {
  }
}
