/**
  The retry loop of forward (and of forwardRead, which has the same loop) in
  internal/gateway/server.go over the target manager. Other goroutines may use the manager
  at any time: what they do before a pick and during an attempt is part of the environment.
*/
module Retry {
  import opened Text
  import opened Wire
  import opened Upstream
  import opened ManagerObject

  /** What a goroutine can do to the manager: take a turn of the counter, report a success or a failure. */
  datatype Action = Turn | Report(name: string, event: Event)

  function Apply(cfg: Config, f: Fleet, a: Action): Fleet {
    match a
    case Turn => f.(rr := (f.rr + 1) % WRAP)
    case Report(name, event) => if event.Success? then Succeeded(f, name) else Failed(cfg, f, name, event.at)
  }

  function ApplyAll(cfg: Config, f: Fleet, acts: seq<Action>): Fleet {
    if acts == [] then f else Apply(cfg, ApplyAll(cfg, f, acts[..|acts| - 1]), acts[|acts| - 1])
  }

  /**
    Around attempt i: what others do before the pick, the clock, what the target of each name
    answers to a request, the instant it evaluates it at, what others do meanwhile, the clock after.
  */
  datatype Moment = Moment(before: seq<Action>, now: Time, reply: (string, Ask) -> Reply, at: Time, during: seq<Action>, doneAt: Time)

  type Env = nat -> Moment

  /** One attempt, with the manager and the excluded names as the pick saw them. */
  datatype Attempt = Attempt(target: Target, reply: Reply, at: Time, now: Time, fleet: Fleet, tried: set<string>)

  datatype Logged = Logged(own: bool, action: Action)

  datatype Trace = Trace(attempts: seq<Attempt>, script: seq<Logged>, fleet: Fleet)

  /** What an attempt reports to the breaker. */
  function ReportOf(a: Attempt, at: Time): Action {
    Report(a.target.name, if Below500(a.reply) then Success else Failure(at))
  }

  function Foreign(acts: seq<Action>): seq<Logged> {
    seq(|acts|, i requires 0 <= i < |acts| => Logged(false, acts[i]))
  }

  /** The attempt on target t, picked from the manager f. */
  function AttemptOf(f: Fleet, tried: set<string>, m: Moment, ask: Ask, t: Target): Attempt {
    Attempt(t, m.reply(t.name, ask), m.at, m.now, f, tried)
  }

  /** The attempts from number i on, everything done to the manager meanwhile, and the manager after it. */
  function Attempts(cfg: Config, f: Fleet, env: Env, ask: Ask, i: nat, limit: nat, tried: set<string>): Trace
    decreases limit - i
  {
    if i >= limit then Trace([], [], f) else
    var m := env(i);
    var f1 := ApplyAll(cfg, f, m.before);
    var p := Pick(cfg, f1, tried, m.now);
    if p.None? then Trace([], Foreign(m.before), f1) else
    var a := AttemptOf(f1, tried, m, ask, p.value.0);
    var report := ReportOf(a, m.doneAt);
    var f2 := Apply(cfg, ApplyAll(cfg, p.value.1, m.during), report);
    var script := Foreign(m.before) + [Logged(true, Turn)] + Foreign(m.during) + [Logged(true, report)];
    if Below500(a.reply) then Trace([a], script, f2) else
    var rest := Attempts(cfg, f2, env, ask, i + 1, limit, tried + {a.target.name});
    Trace([a] + rest.attempts, script + rest.script, rest.fleet)
  }

  /** ForwardRetries + 1, at least one. */
  function Limit(retries: int): nat {
    if retries + 1 < 1 then 1 else retries + 1
  }

  datatype Outcome = Answered(target: string, status: nat, payload: string) | Exhausted(last: Reply) | NoTargets

  /** What the caller gets from the attempts made. */
  function Conclude(attempts: seq<Attempt>, limit: nat): Outcome {
    if attempts == [] then NoTargets else
    var a := attempts[|attempts| - 1];
    if a.reply.Answer? && (a.reply.status < 500 || |attempts| == limit)
    then Answered(a.target.name, a.reply.status, a.reply.payload)
    else Exhausted(a.reply)
  }

  /** A forward before it is made: the manager it finds, what happens around its attempts, and the permitted retries. */
  datatype Route = Route(cfg: Config, fleet: Fleet, env: Env, retries: int)
  {
    /** The attempts of the retry loop to have this request answered. */
    function Trace(ask: Ask): Trace { Attempts(cfg, fleet, env, ask, 0, Limit(retries), {}) }

    function Outcome(ask: Ask): Outcome { Conclude(Trace(ask).attempts, Limit(retries)) }

    /** What the caller of forward sees: an answer or an error. */
    function Reply(ask: Ask): Reply {
      match Outcome(ask)
      case Answered(_, status, payload) => Answer(status, payload)
      case _ => NetError
    }

    /** When the deciding attempt was evaluated. */
    function Instant(ask: Ask): Time {
      var a := Trace(ask).attempts;
      if a == [] then 0 else a[|a| - 1].at
    }
  }

  lemma Concluded(attempts: seq<Attempt>, a: Attempt, limit: nat)
    ensures Conclude(attempts + [a], limit) ==
      if a.reply.Answer? && (a.reply.status < 500 || |attempts| + 1 == limit)
      then Answered(a.target.name, a.reply.status, a.reply.payload) else Exhausted(a.reply)
  {
  }

  lemma NothingTried(limit: nat)
    ensures Conclude([], limit) == NoTargets
  {
  }

  // ---------- the loop ----------

  /** Other goroutines use the manager. */
  method Interfere(m: Manager, acts: seq<Action>)
    requires m.Valid()
    modifies m
    ensures m.Valid() && m.View() == ApplyAll(m.cfg, old(m.View()), acts)
  {
    hide Closed, Streak;
    var i := 0;
    while i < |acts|
      invariant 0 <= i <= |acts| && m.Valid()
      invariant m.View() == ApplyAll(m.cfg, old(m.View()), acts[..i])
    {
      assert acts[..i + 1][..i] == acts[..i];
      match acts[i] {
        case Turn => m.rr := (m.rr + 1) % WRAP;
        case Report(name, event) =>
          if event.Success? {
            m.RecordSuccess(name);
          } else {
            m.RecordFailure(name, event.at);
          }
      }
      i := i + 1;
    }
    assert acts[..i] == acts;
  }

  /** The manager after an attempt on pick p has been reported. */
  function Reported(cfg: Config, f: Fleet, m: Moment, a: Attempt): Fleet {
    Apply(cfg, ApplyAll(cfg, f, m.during), ReportOf(a, m.doneAt))
  }

  /** The loop unrolled once: no target left. */
  lemma NoneLeft(cfg: Config, f: Fleet, env: Env, ask: Ask, i: nat, limit: nat, tried: set<string>)
    requires i < limit && Pick(cfg, ApplyAll(cfg, f, env(i).before), tried, env(i).now).None?
    ensures var t := Attempts(cfg, f, env, ask, i, limit, tried);
            t.attempts == [] && t.fleet == ApplyAll(cfg, f, env(i).before)
  {
  }

  /** The loop unrolled once: an attempt is made, and another follows only if it failed. */
  lemma OneMore(cfg: Config, f: Fleet, env: Env, ask: Ask, i: nat, limit: nat, tried: set<string>, f1: Fleet, f2: Fleet, a: Attempt)
    requires i < limit && f1 == ApplyAll(cfg, f, env(i).before)
    requires Pick(cfg, f1, tried, env(i).now) == Some((a.target, f2)) && a == AttemptOf(f1, tried, env(i), ask, a.target)
    ensures var t := Attempts(cfg, f, env, ask, i, limit, tried);
            var f' := Reported(cfg, f2, env(i), a);
            if Below500(a.reply) then t.attempts == [a] && t.fleet == f'
            else
              var rest := Attempts(cfg, f', env, ask, i + 1, limit, tried + {a.target.name});
              t.attempts == [a] + rest.attempts && t.fleet == rest.fleet
  {
    hide Pick, ApplyAll, Foreign;
  }

  /** The loop unrolled once: the attempts are used up. */
  lemma AttemptsOver(cfg: Config, f: Fleet, env: Env, ask: Ask, limit: nat, tried: set<string>)
    ensures Attempts(cfg, f, env, ask, limit, limit, tried) == Trace([], [], f)
  {
  }

  lemma AppendOne(xs: seq<Attempt>, a: Attempt, ys: seq<Attempt>)
    ensures xs + ([a] + ys) == xs + [a] + ys
    ensures ys == [] ==> xs + [a] + ys == xs + [a]
  {
  }

  /** One round of the loop: pick a target, ask it, report to the breaker. */
  method TryNext(m: Manager, around: Moment, ask: Ask, tried: set<string>) returns (a: Option<Attempt>)
    requires m.Valid()
    modifies m
    ensures m.Valid()
    ensures var f1 := ApplyAll(m.cfg, old(m.View()), around.before);
            match Pick(m.cfg, f1, tried, around.now)
            case None => a == None && m.View() == f1
            case Some((t, f2)) => a == Some(AttemptOf(f1, tried, around, ask, t)) && m.View() == Reported(m.cfg, f2, around, a.value)
  {
    hide Manager.Valid, Pick, ApplyAll;
    Interfere(m, around.before);
    var f1 := Fleet(m.rr, m.states);
    var target := m.PickTarget(tried, around.now);
    if target.None? {
      return None;
    }
    var attempt := AttemptOf(f1, tried, around, ask, target.value);
    Interfere(m, around.during);
    if attempt.reply.NetError? {
      m.RecordFailure(target.value.name, around.doneAt);
    } else if attempt.reply.status >= 500 {
      m.RecordFailure(target.value.name, around.doneAt);
    } else {
      m.RecordSuccess(target.value.name);
    }
    a := Some(attempt);
  }

  /** The whole trace is what is done and what is left. */
  ghost predicate Left(whole: Trace, done: seq<Attempt>, rest: Trace) {
    whole.attempts == done + rest.attempts && whole.fleet == rest.fleet
  }

  /** forward: send the request to distinct targets until one answers below 500 or the attempts or the targets run out. */
  method Forward(m: Manager, retries: int, env: Env, ask: Ask) returns (out: Outcome, attempts: seq<Attempt>)
    requires m.Valid()
    modifies m
    ensures m.Valid()
    ensures var route := Route(m.cfg, old(m.View()), env, retries);
            attempts == route.Trace(ask).attempts && m.View() == route.Trace(ask).fleet && out == route.Outcome(ask)
    ensures |attempts| <= if retries < 0 then 1 else retries + 1
  {
    hide Manager.Valid, Closed, Streak, Pick, ApplyAll, Attempts, Reported, Conclude, Left, AttemptOf;
    var limit := retries + 1;
    if limit < 1 {
      limit := 1;
    }
    ghost var whole := Attempts(m.cfg, m.View(), env, ask, 0, limit, {});
    var tried := {};
    attempts := [];
    out := NoTargets;
    AllLeft(whole);
    NothingTried(limit);
    var i := 0;
    while i < limit
      invariant 0 <= i <= limit && m.Valid() && |attempts| == i
      invariant Left(whole, attempts, Attempts(m.cfg, m.View(), env, ask, i, limit, tried))
      invariant out == Conclude(attempts, limit)
    {
      ghost var f := m.View();
      var next := TryNext(m, env(i), ask, tried);
      if next.None? {
        NoneLeft(m.cfg, f, env, ask, i, limit, tried);
        Nothing(whole, attempts, Attempts(m.cfg, f, env, ask, i, limit, tried));
        return;
      }
      var attempt := next.value;
      OneRound(m.cfg, f, env, ask, i, limit, tried, attempt, m.View(), attempts, whole);
      Concluded(attempts, attempt, limit);
      tried, attempts := tried + {attempt.target.name}, attempts + [attempt];
      if attempt.reply.NetError? {
        out := Exhausted(attempt.reply);
        i := i + 1;
        continue;
      }
      if attempt.reply.status >= 500 {
        out := Exhausted(attempt.reply);
        if i < limit - 1 {
          i := i + 1;
          continue;
        }
      }
      return Answered(attempt.target.name, attempt.reply.status, attempt.reply.payload), attempts;
    }
    AttemptsOver(m.cfg, m.View(), env, ask, limit, tried);
    Nothing(whole, attempts, Attempts(m.cfg, m.View(), env, ask, limit, limit, tried));
  }

  lemma AllLeft(whole: Trace)
    ensures Left(whole, [], whole)
  {
  }

  lemma Nothing(whole: Trace, done: seq<Attempt>, rest: Trace)
    requires Left(whole, done, rest) && rest.attempts == []
    ensures whole.attempts == done && whole.fleet == rest.fleet
  {
  }

  /** One round moves one attempt from what is left to what is done. */
  lemma OneRound(cfg: Config, f: Fleet, env: Env, ask: Ask, i: nat, limit: nat, tried: set<string>, a: Attempt, f': Fleet,
                 done: seq<Attempt>, whole: Trace)
    requires i < limit && Left(whole, done, Attempts(cfg, f, env, ask, i, limit, tried))
    requires var f1 := ApplyAll(cfg, f, env(i).before);
             var p := Pick(cfg, f1, tried, env(i).now);
             p.Some? && a == AttemptOf(f1, tried, env(i), ask, p.value.0) && f' == Reported(cfg, p.value.1, env(i), a)
    ensures if Below500(a.reply) then whole.attempts == done + [a] && whole.fleet == f'
            else
              && Left(whole, done + [a], Attempts(cfg, f', env, ask, i + 1, limit, tried + {a.target.name}))
              && (i + 1 == limit ==> whole.attempts == done + [a] && whole.fleet == f')
  {
    hide Pick, ApplyAll, Attempts, Reported;
    var f1 := ApplyAll(cfg, f, env(i).before);
    OneMore(cfg, f, env, ask, i, limit, tried, f1, Pick(cfg, f1, tried, env(i).now).value.1, a);
    AttemptsOver(cfg, f', env, ask, limit, tried + {a.target.name});
    AppendOne(done, a, Attempts(cfg, f', env, ask, i + 1, limit, tried + {a.target.name}).attempts);
  }
}
