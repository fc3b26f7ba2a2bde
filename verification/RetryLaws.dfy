/** What the retry loop guarantees, whatever the breakers say and whatever other goroutines do meanwhile. */
module RetryLaws {
  import opened Wire
  import opened Upstream
  import opened Retry

  // ---------- answers are those of the targets ----------

  /** Attempt number i sent the request, and its answer is what its target gave at that moment. */
  predicate Asked(env: Env, ask: Ask, i: nat, a: Attempt) {
    a.reply == env(i).reply(a.target.name, ask) && a.at == env(i).at
  }

  ghost predicate AllAsked(env: Env, ask: Ask, i: nat, attempts: seq<Attempt>) {
    forall j :: 0 <= j < |attempts| ==> Asked(env, ask, i + j, attempts[j])
  }

  lemma AskedOneMore(env: Env, ask: Ask, i: nat, a: Attempt, rest: seq<Attempt>)
    requires Asked(env, ask, i, a) && AllAsked(env, ask, i + 1, rest)
    ensures AllAsked(env, ask, i, [a] + rest) && AllAsked(env, ask, i, [a])
  {
    hide Asked;
    var l := [a] + rest;
    forall j | 0 <= j < |l| ensures Asked(env, ask, i + j, l[j]) {
      if j > 0 {
        assert l[j] == rest[j - 1];
        assert Asked(env, ask, i + 1 + (j - 1), rest[j - 1]);
      }
    }
  }

  /** Every attempt sends this request, and its answer is the one of its target at that moment. */
  lemma {:induction false} AttemptsAsked(cfg: Config, f: Fleet, env: Env, ask: Ask, i: nat, limit: nat, tried: set<string>)
    requires i <= limit
    ensures AllAsked(env, ask, i, Attempts(cfg, f, env, ask, i, limit, tried).attempts)
    decreases limit - i
  {
    hide Attempts, Pick, ApplyAll, Apply;
    if i == limit {
      AttemptsOver(cfg, f, env, ask, limit, tried);
    } else {
      var m := env(i);
      var f1 := ApplyAll(cfg, f, m.before);
      var p := Pick(cfg, f1, tried, m.now);
      if p.None? {
        NoneLeft(cfg, f, env, ask, i, limit, tried);
      } else {
        var a := AttemptOf(f1, tried, m, ask, p.value.0);
        var f2 := Reported(cfg, p.value.1, m, a);
        OneMore(cfg, f, env, ask, i, limit, tried, f1, p.value.1, a);
        AttemptsAsked(cfg, f2, env, ask, i + 1, limit, tried + {a.target.name});
        AskedOneMore(env, ask, i, a, Attempts(cfg, f2, env, ask, i + 1, limit, tried + {a.target.name}).attempts);
      }
    }
  }

  // ---------- distinct targets, the last one decides ----------

  ghost predicate DistinctAttempts(attempts: seq<Attempt>) {
    forall i, j :: 0 <= i < j < |attempts| ==> attempts[i].target.name != attempts[j].target.name
  }

  ghost predicate OnlyLastGood(attempts: seq<Attempt>) {
    forall i :: 0 <= i < |attempts| - 1 ==> !Below500(attempts[i].reply)
  }

  /** A target is tried before its open-until time only when every untried one is before its own. */
  ghost predicate LastResort(cfg: Config, a: Attempt) {
    var b := a.fleet.states;
    a.target.name in b && b[a.target.name].openUntil.Some? && a.now < b[a.target.name].openUntil.value ==>
      forall n :: n in Untried(cfg, a.tried) ==> n in b && b[n].openUntil.Some? && a.now < b[n].openUntil.value
  }

  /** The attempt went to a configured target that had not been tried, and its answer is what that target gave. */
  ghost predicate ProperAttempt(cfg: Config, env: Env, ask: Ask, i: nat, tried: set<string>, a: Attempt) {
    a.target in cfg.targets && a.target.name in Untried(cfg, tried) && tried <= a.tried &&
    a.target.name !in a.tried && a.reply == env(i).reply(a.target.name, ask) && LastResort(cfg, a)
  }

  lemma {:induction false} AttemptsProper(cfg: Config, f: Fleet, env: Env, ask: Ask, i: nat, limit: nat, tried: set<string>)
    requires PositiveWeights(cfg) && i <= limit
    ensures var t := Attempts(cfg, f, env, ask, i, limit, tried);
      && |t.attempts| <= limit - i && DistinctAttempts(t.attempts) && OnlyLastGood(t.attempts)
      && (forall j :: 0 <= j < |t.attempts| ==> ProperAttempt(cfg, env, ask, i + j, tried, t.attempts[j]))
    decreases limit - i
  {
    hide Attempts, Pick, ApplyAll, PositiveWeights, IsOpen, Apply;
    if i == limit {
      AttemptsOver(cfg, f, env, ask, limit, tried);
    } else {
      var m := env(i);
      var f1 := ApplyAll(cfg, f, m.before);
      PickSpec(cfg, f1, tried, m.now);
      var p := Pick(cfg, f1, tried, m.now);
      if p.None? {
        NoneLeft(cfg, f, env, ask, i, limit, tried);
      } else {
        var a := AttemptOf(f1, tried, m, ask, p.value.0);
        OneMore(cfg, f, env, ask, i, limit, tried, f1, p.value.1, a);
        assert ProperAttempt(cfg, env, ask, i, tried, a);
        if !Below500(a.reply) {
          var f2 := Reported(cfg, p.value.1, m, a);
          AttemptsProper(cfg, f2, env, ask, i + 1, limit, tried + {a.target.name});
          ConsProper(cfg, env, ask, i, tried, a, Attempts(cfg, f2, env, ask, i + 1, limit, tried + {a.target.name}).attempts);
        }
      }
    }
  }

  lemma ConsProper(cfg: Config, env: Env, ask: Ask, i: nat, tried: set<string>, a: Attempt, rest: seq<Attempt>)
    requires ProperAttempt(cfg, env, ask, i, tried, a) && !Below500(a.reply)
    requires DistinctAttempts(rest) && OnlyLastGood(rest)
    requires forall j :: 0 <= j < |rest| ==> ProperAttempt(cfg, env, ask, i + 1 + j, tried + {a.target.name}, rest[j])
    ensures DistinctAttempts([a] + rest) && OnlyLastGood([a] + rest)
    ensures forall j :: 0 <= j < |rest| + 1 ==> ProperAttempt(cfg, env, ask, i + j, tried, ([a] + rest)[j])
  {
    hide LastResort, Names;
    var l := [a] + rest;
    forall j | 0 <= j < |l| ensures ProperAttempt(cfg, env, ask, i + j, tried, l[j]) && (j > 0 ==> l[j].target.name != a.target.name) {
      if j > 0 {
        assert l[j] == rest[j - 1];
        assert ProperAttempt(cfg, env, ask, i + 1 + (j - 1), tried + {a.target.name}, rest[j - 1]);
      }
    }
    forall x, y | 0 <= x < y < |l| ensures l[x].target.name != l[y].target.name {
      if x > 0 {
        assert l[x] == rest[x - 1] && l[y] == rest[y - 1];
      }
    }
    forall x | 0 <= x < |l| - 1 ensures !Below500(l[x].reply) {
      if x > 0 {
        assert l[x] == rest[x - 1];
      }
    }
  }

  // ---------- how many attempts ----------

  ghost predicate NoneGood(attempts: seq<Attempt>) {
    forall j :: 0 <= j < |attempts| ==> !Below500(attempts[j].reply)
  }

  lemma NoneGoodTail(a: Attempt, rest: seq<Attempt>)
    requires NoneGood([a] + rest)
    ensures !Below500(a.reply) && NoneGood(rest)
  {
    var l := [a] + rest;
    assert l[0] == a;
    assert forall j :: 0 <= j < |rest| ==> rest[j] == l[j + 1];
  }

  /** When no attempt is good, as many are made as the limit and the untried names allow. */
  lemma {:induction false} AttemptsCount(cfg: Config, f: Fleet, env: Env, ask: Ask, i: nat, limit: nat, tried: set<string>)
    requires PositiveWeights(cfg) && i <= limit && NoneGood(Attempts(cfg, f, env, ask, i, limit, tried).attempts)
    ensures var n := |Untried(cfg, tried)|;
            |Attempts(cfg, f, env, ask, i, limit, tried).attempts| == if limit - i <= n then limit - i else n
    decreases limit - i, 1
  {
    hide Attempts, Pick, ApplyAll, PositiveWeights, IsOpen, Apply, Names, NoneGood, Below500, Reported, Untried;
    if i == limit {
      AttemptsOver(cfg, f, env, ask, limit, tried);
    } else {
      var m := env(i);
      var f1 := ApplyAll(cfg, f, m.before);
      PickSpec(cfg, f1, tried, m.now);
      var p := Pick(cfg, f1, tried, m.now);
      if p.None? {
        NoneLeft(cfg, f, env, ask, i, limit, tried);
      } else {
        var a := AttemptOf(f1, tried, m, ask, p.value.0);
        OneMore(cfg, f, env, ask, i, limit, tried, f1, p.value.1, a);
        CountOne(cfg, f, env, ask, i, limit, tried, a, Reported(cfg, p.value.1, m, a));
      }
    }
  }

  lemma CountOne(cfg: Config, f: Fleet, env: Env, ask: Ask, i: nat, limit: nat, tried: set<string>, a: Attempt, f2: Fleet)
    requires PositiveWeights(cfg) && i < limit && NoneGood(Attempts(cfg, f, env, ask, i, limit, tried).attempts)
    requires a.target.name in Untried(cfg, tried)
    requires Below500(a.reply) ==> Attempts(cfg, f, env, ask, i, limit, tried).attempts == [a]
    requires var rest := Attempts(cfg, f2, env, ask, i + 1, limit, tried + {a.target.name}).attempts;
             !Below500(a.reply) ==> Attempts(cfg, f, env, ask, i, limit, tried).attempts == [a] + rest
    ensures var n := |Untried(cfg, tried)|;
            |Attempts(cfg, f, env, ask, i, limit, tried).attempts| == if limit - i <= n then limit - i else n
    decreases limit - i, 0
  {
    hide Attempts, PositiveWeights, Names, NoneGood, Below500, Untried;
    if Below500(a.reply) {
      assert [a] == [a] + [];
      NoneGoodTail(a, []);
    } else {
      NoneGoodTail(a, Attempts(cfg, f2, env, ask, i + 1, limit, tried + {a.target.name}).attempts);
      AttemptsCount(cfg, f2, env, ask, i + 1, limit, tried + {a.target.name});
      OneFewer(cfg, tried, a.target.name);
    }
  }

  lemma OneFewer(cfg: Config, tried: set<string>, name: string)
    requires name in Untried(cfg, tried)
    ensures |Untried(cfg, tried + {name})| == |Untried(cfg, tried)| - 1
  {
    hide Names;
    assert Untried(cfg, tried + {name}) == Untried(cfg, tried) - {name};
  }

  // ---------- forward as a whole ----------

  /**
    forward tries distinct configured targets, goes on only after a network error or a 5xx answer,
    and makes at most retries + 1 attempts (one, if retries is negative); it makes exactly as many,
    or one per name if there are fewer names, when none answers below 500. A target whose
    circuit is open is tried only when every untried one's is.
  */
  lemma ForwardTries(route: Route, ask: Ask)
    requires PositiveWeights(route.cfg)
    ensures var a := route.Trace(ask).attempts;
            var m, n := if route.retries < 0 then 1 else route.retries + 1, |Names(route.cfg.targets)|;
      && |a| <= m && DistinctAttempts(a)
      && (forall j :: 0 <= j < |a| - 1 ==> a[j].reply.NetError? || a[j].reply.status >= 500)
      && (forall j :: 0 <= j < |a| ==> a[j].target in route.cfg.targets && LastResort(route.cfg, a[j]))
      && (a == [] || a[|a| - 1].reply.NetError? || a[|a| - 1].reply.status >= 500 ==> |a| == if m <= n then m else n)
  {
    hide Attempts, PositiveWeights, LastResort, Names;
    var cfg, f, env, limit := route.cfg, route.fleet, route.env, Limit(route.retries);
    AttemptsProper(cfg, f, env, ask, 0, limit, {});
    var a := route.Trace(ask).attempts;
    forall j | 0 <= j < |a| ensures a[j].target in cfg.targets && LastResort(cfg, a[j]) {
      assert ProperAttempt(cfg, env, ask, 0 + j, {}, a[j]);
    }
    assert Untried(cfg, {}) == Names(cfg.targets);
    if a == [] || !Below500(a[|a| - 1].reply) {
      AttemptsCount(cfg, f, env, ask, 0, limit, {});
    }
  }

  /**
    Availability: with an attempt for every name, forward succeeds whenever some configured
    target would answer below 500 whenever it is asked, whatever the breakers say.
  */
  lemma ForwardAvailable(route: Route, ask: Ask, good: string)
    requires PositiveWeights(route.cfg) && |Names(route.cfg.targets)| <= route.retries + 1
    requires good in Names(route.cfg.targets)
    requires forall i: nat :: var r := route.env(i).reply(good, ask); r.Answer? && r.status < 500
    ensures var o := route.Outcome(ask); o.Answered? && o.status < 500
  {
    hide Attempts, PositiveWeights, LastResort, Names;
    var cfg, env := route.cfg, route.env;
    var a := route.Trace(ask).attempts;
    ForwardTries(route, ask);
    AttemptsProper(cfg, route.fleet, env, ask, 0, Limit(route.retries), {});
    if a == [] || !Below500(a[|a| - 1].reply) {
      var names := set j | 0 <= j < |a| :: a[j].target.name;
      NamesOfAttempts(a);
      forall n | n in names ensures n in Names(cfg.targets) - {good} {
        var j :| 0 <= j < |a| && a[j].target.name == n;
        assert ProperAttempt(cfg, env, ask, 0 + j, {}, a[j]);
        assert !Below500(a[j].reply);
      }
      SmallerSet(names, Names(cfg.targets) - {good});
    }
  }

  lemma SmallerSet(a: set<string>, b: set<string>)
    requires a <= b
    ensures |a| <= |b|
  {
    if a != {} {
      var x :| x in a;
      SmallerSet(a - {x}, b - {x});
    }
  }

  /** Distinct attempts have as many names. */
  lemma {:induction false} NamesOfAttempts(a: seq<Attempt>)
    requires DistinctAttempts(a)
    ensures |set j | 0 <= j < |a| :: a[j].target.name| == |a|
  {
    var s := set j | 0 <= j < |a| :: a[j].target.name;
    if a != [] {
      var n := |a| - 1;
      var p := a[..n];
      NamesOfAttempts(p);
      var q := set j | 0 <= j < |p| :: p[j].target.name;
      assert s == q + {a[n].target.name};
    }
  }

  /**
    What the caller gets is decided by the last attempt: an answer below 500 as it came; a 5xx
    answer only if it came on the last of the retries + 1 permitted attempts; an error
    otherwise, also when the targets run out before. So with more attempts permitted than there
    are names, no 5xx answer is ever passed through.
  */
  lemma PassThroughOnlyAtLimit(route: Route, ask: Ask)
    requires PositiveWeights(route.cfg)
    ensures var a, o := route.Trace(ask).attempts, route.Outcome(ask);
            var m := if route.retries < 0 then 1 else route.retries + 1;
      if a == [] then o == NoTargets
      else
        var l := a[|a| - 1];
        && (l.reply.Answer? && (l.reply.status < 500 || |a| == m) ==> o == Answered(l.target.name, l.reply.status, l.reply.payload))
        && (l.reply.NetError? || (l.reply.status >= 500 && |a| < m) ==> o == Exhausted(l.reply))
        && (o.Answered? && |Names(route.cfg.targets)| < m ==> o.status < 500)
  {
    hide Attempts, PositiveWeights, LastResort, Names, DistinctAttempts, OnlyLastGood;
    ForwardTries(route, ask);
  }

  /** LoadConfig refuses an empty list of targets and gives every target without a weight the weight 1. */
  function Normalised(targets: seq<Target>): seq<Target> {
    seq(|targets|, i requires 0 <= i < |targets| => if targets[i].weight <= 0 then targets[i].(weight := 1) else targets[i])
  }

  /** The loop of LoadConfig, in place. */
  method NormaliseWeights(targets: array<Target>)
    modifies targets
    ensures targets[..] == Normalised(old(targets[..]))
    ensures forall j :: 0 <= j < targets.Length ==>
              var o, t := old(targets[j]), targets[j];
              t.name == o.name && t.url == o.url && t.token == o.token && t.weight == if o.weight > 0 then o.weight else 1
  {
    var i := 0;
    while i < targets.Length
      invariant 0 <= i <= targets.Length
      invariant forall j :: 0 <= j < i ==> targets[j] == Normalised(old(targets[..]))[j]
      invariant forall j :: i <= j < targets.Length ==> targets[j] == old(targets[j])
    {
      if targets[i].weight <= 0 {
        targets[i] := targets[i].(weight := 1);
      }
      i := i + 1;
    }
  }

  /** Under any configuration LoadConfig accepts, forward makes an attempt: "no available targets" is never reported. */
  lemma NoTargetsUnreachable(raw: seq<Target>, breakerFailures: int, cooldown: int, f: Fleet, env: Env, ask: Ask, retries: int)
    requires raw != []
    ensures var cfg := Config(Normalised(raw), breakerFailures, cooldown);
            PositiveWeights(cfg) && !Route(cfg, f, env, retries).Outcome(ask).NoTargets?
  {
    hide Attempts;
    var cfg := Config(Normalised(raw), breakerFailures, cooldown);
    ForwardTries(Route(cfg, f, env, retries), ask);
    assert Normalised(raw)[0].name in Names(cfg.targets);
    var one := {Normalised(raw)[0].name};
    SmallerSet(one, Names(cfg.targets));
  }

  // ---------- accounting ----------

  /** The breaker events of the call itself, in order. */
  function OwnReports(script: seq<Logged>): seq<Action> {
    if script == [] then []
    else
      var l := script[|script| - 1];
      OwnReports(script[..|script| - 1]) + (if l.own && l.action.Report? then [l.action] else [])
  }

  function Actions(script: seq<Logged>): seq<Action> {
    seq(|script|, i requires 0 <= i < |script| => script[i].action)
  }

  /** r is the one event attempt a has to report, with the time after the answer. */
  predicate Reports(r: Action, a: Attempt, doneAt: Time) {
    r == Report(a.target.name, if a.reply.Answer? && a.reply.status < 500 then Success else Failure(doneAt))
  }

  lemma {:induction false} OwnReportsConcat(a: seq<Logged>, b: seq<Logged>)
    ensures OwnReports(a + b) == OwnReports(a) + OwnReports(b)
  {
    if b == [] {
      assert a + b == a;
    } else {
      var n := |b| - 1;
      OwnReportsConcat(a, b[..n]);
      assert (a + b)[..|a + b| - 1] == a + b[..n];
    }
  }

  lemma {:induction false} ForeignReportsNothing(acts: seq<Action>)
    ensures OwnReports(Foreign(acts)) == []
  {
    if acts != [] {
      var n := |acts| - 1;
      ForeignReportsNothing(acts[..n]);
      assert Foreign(acts)[..n] == Foreign(acts[..n]);
    }
  }

  lemma {:induction false} ApplyConcat(cfg: Config, f: Fleet, a: seq<Action>, b: seq<Action>)
    ensures ApplyAll(cfg, f, a + b) == ApplyAll(cfg, ApplyAll(cfg, f, a), b)
  {
    if b == [] {
      assert a + b == a;
    } else {
      var n := |b| - 1;
      ApplyConcat(cfg, f, a, b[..n]);
      assert (a + b)[..|a + b| - 1] == a + b[..n];
    }
  }

  lemma ActionsConcat(a: seq<Logged>, b: seq<Logged>)
    ensures Actions(a + b) == Actions(a) + Actions(b)
  {
  }

  /** The script of one attempt: what it reports, and what it does to the manager. */
  lemma OneScript(cfg: Config, f: Fleet, m: Moment, report: Action)
    requires report.Report?
    ensures var script := Foreign(m.before) + [Logged(true, Turn)] + Foreign(m.during) + [Logged(true, report)];
      && OwnReports(script) == [report]
      && ApplyAll(cfg, f, Actions(script)) ==
         Apply(cfg, ApplyAll(cfg, Apply(cfg, ApplyAll(cfg, f, m.before), Turn), m.during), report)
  {
    hide Apply;
    var b, d, t, r := Foreign(m.before), Foreign(m.during), [Logged(true, Turn)], [Logged(true, report)];
    ForeignReportsNothing(m.before);
    ForeignReportsNothing(m.during);
    OwnReportsConcat(b, t);
    OwnReportsConcat(b + t, d);
    OwnReportsConcat(b + t + d, r);
    assert OwnReports(t) == [] && OwnReports(r) == [report];
    ActionsConcat(b, t);
    ActionsConcat(b + t, d);
    ActionsConcat(b + t + d, r);
    assert Actions(b) == m.before && Actions(d) == m.during && Actions(t) == [Turn] && Actions(r) == [report];
    ApplyConcat(cfg, f, m.before, [Turn]);
    ApplyConcat(cfg, f, m.before + [Turn], m.during);
    ApplyConcat(cfg, f, m.before + [Turn] + m.during, [report]);
    ApplyOne(cfg, ApplyAll(cfg, f, m.before), Turn);
    ApplyOne(cfg, ApplyAll(cfg, Apply(cfg, ApplyAll(cfg, f, m.before), Turn), m.during), report);
  }

  lemma ApplyOne(cfg: Config, f: Fleet, a: Action)
    ensures ApplyAll(cfg, f, [a]) == Apply(cfg, f, a)
  {
    assert [a][..0] == [];
  }

  ghost predicate Accounted(cfg: Config, f: Fleet, env: Env, i: nat, t: Trace) {
    && ApplyAll(cfg, f, Actions(t.script)) == t.fleet
    && |OwnReports(t.script)| == |t.attempts|
    && forall j :: 0 <= j < |t.attempts| ==> Reports(OwnReports(t.script)[j], t.attempts[j], env(i + j).doneAt)
  }

  /**
    Accounting: every attempt produces exactly one breaker event, success if its answer was
    below 500 and a failure at the time after the answer otherwise, in the order of the
    attempts; and the manager ends up as those events and the actions of the other goroutines,
    interleaved, leave it.
  */
  lemma {:induction false} RetryAccounting(cfg: Config, f: Fleet, env: Env, ask: Ask, i: nat, limit: nat, tried: set<string>)
    ensures Accounted(cfg, f, env, i, Attempts(cfg, f, env, ask, i, limit, tried))
    decreases limit - i
  {
    hide Pick, Apply, ApplyAll, Foreign, OwnReports;
    if i >= limit {
      NothingDone(cfg, f, env, i);
    } else {
      var m := env(i);
      var f1 := ApplyAll(cfg, f, m.before);
      var p := Pick(cfg, f1, tried, m.now);
      if p.None? {
        ForeignReportsNothing(m.before);
        ForeignActions(m.before);
      } else {
        PickTurns(cfg, f1, tried, m.now);
        var a := AttemptOf(f1, tried, m, ask, p.value.0);
        var report := ReportOf(a, m.doneAt);
        OneScript(cfg, f, m, report);
        var f2 := Apply(cfg, ApplyAll(cfg, p.value.1, m.during), report);
        var script := Foreign(m.before) + [Logged(true, Turn)] + Foreign(m.during) + [Logged(true, report)];
        if !Below500(a.reply) {
          var rest := Attempts(cfg, f2, env, ask, i + 1, limit, tried + {a.target.name});
          RetryAccounting(cfg, f2, env, ask, i + 1, limit, tried + {a.target.name});
          OwnReportsConcat(script, rest.script);
          ActionsConcat(script, rest.script);
          ApplyConcat(cfg, f, Actions(script), Actions(rest.script));
        }
      }
    }
  }

  lemma NothingDone(cfg: Config, f: Fleet, env: Env, i: nat)
    ensures Accounted(cfg, f, env, i, Trace([], [], f))
  {
  }

  lemma ForeignActions(acts: seq<Action>)
    ensures Actions(Foreign(acts)) == acts
  {
  }

  lemma PickTurns(cfg: Config, f: Fleet, tried: set<string>, now: Time)
    ensures var p := Pick(cfg, f, tried, now); p.Some? ==> p.value.1 == Apply(cfg, f, Turn)
  {
  }
}
