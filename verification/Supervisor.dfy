/** The supervisor of the SSH bootstrap: what it does, action by action, through
    outages and restarts. */
module Supervisor {
  import opened Text
  import opened Readiness

  /** What the world answers next: the tunnel exits, serve stopping by then or
      not, or a sleep or a start comes out well or badly. A script that is over
      answers that serve stops. */
  datatype Answer = Exits(stopping: bool) | Well | Badly | Stops

  /** What Run does, and the exits it sees. Tunnels are numbered. */
  datatype Action =
    | Exited(tunnel: nat)
    | OnExit
    | ReportDown
    | Close(tunnel: nat)
    | Sleep(delay: int)
    | Started(tunnel: nat)
    | StartFailed(next: int)
    | ReportUp
    | Return

  // ---------------------------------------------------------------- the protocol

  datatype Phase =
    | Watching(tunnel: nat)
    | Lost(tunnel: nat)
    | Told(tunnel: nat)
    | Reported(tunnel: nat)
    | Waiting(delay: int)
    | Sleeping(delay: int)
    | Restarted(tunnel: nat)
    | Leaving
    | Stopped

  function Min(a: int, b: int): int {
    if a < b then a else b
  }

  function Max(a: int, b: int): int {
    if a < b then b else a
  }

  /** The phase an action leads to, None for an action out of turn. */
  function Step(base: int, max: int, phase: Phase, a: Action): Option<Phase> {
    match (phase, a)
    case (Watching(t), Exited(u)) => if t == u then Some(Lost(t)) else None
    case (Watching(t), Close(u)) => if t == u then Some(Leaving) else None
    case (Leaving, Return) => Some(Stopped)
    case (Lost(_), Return) => Some(Stopped)
    case (Lost(t), OnExit) => Some(Told(t))
    case (Told(t), ReportDown) => Some(Reported(t))
    case (Reported(t), Close(u)) => if t == u then Some(Waiting(base)) else None
    case (Waiting(d), Sleep(e)) => if d == e then Some(Sleeping(d)) else None
    case (Sleeping(_), Return) => Some(Stopped)
    case (Sleeping(d), StartFailed(e)) => if e == Min(2 * d, max) then Some(Waiting(e)) else None
    case (Sleeping(_), Started(t)) => Some(Restarted(t))
    case (Restarted(t), ReportUp) => Some(Watching(t))
    case _ => None
  }

  /** The phase a log leads to from Watching(0). */
  function PhaseAfter(base: int, max: int, log: seq<Action>): Option<Phase> {
    if log == [] then Some(Watching(0))
    else
      match PhaseAfter(base, max, log[..|log| - 1])
      case None => None
      case Some(phase) => Step(base, max, phase, log[|log| - 1])
  }

  // ------------------------------------------------------ what the protocol keeps

  /** The tunnels started, the first included, and neither exited nor closed. */
  function Live(log: seq<Action>): set<nat> {
    if log == [] then {0}
    else
      var before := Live(log[..|log| - 1]);
      match log[|log| - 1]
      case Exited(t) => before - {t}
      case Close(t) => before - {t}
      case Started(t) => before + {t}
      case _ => before
  }

  predicate LivesIn(phase: Phase, live: set<nat>) {
    match phase
    case Watching(t) => live == {t}
    case Restarted(t) => live == {t}
    case _ => live == {}
  }

  lemma {:induction false} LiveByPhase(base: int, max: int, log: seq<Action>)
    requires PhaseAfter(base, max, log).Some?
    ensures LivesIn(PhaseAfter(base, max, log).value, Live(log))
  {
    if log != [] {
      LiveByPhase(base, max, log[..|log| - 1]);
    }
  }

  lemma {:induction false} PrefixFollows(base: int, max: int, log: seq<Action>, k: nat)
    requires PhaseAfter(base, max, log).Some? && k <= |log|
    ensures PhaseAfter(base, max, log[..k]).Some?
  {
    if k < |log| {
      PrefixFollows(base, max, log[..|log| - 1], k);
      assert log[..|log| - 1][..k] == log[..k];
    } else {
      assert log[..k] == log;
    }
  }

  /** Never two live tunnels, and none left when Run has returned. */
  lemma OneTunnelAtMost(base: int, max: int, log: seq<Action>, k: nat)
    requires PhaseAfter(base, max, log).Some? && k <= |log|
    ensures |Live(log[..k])| <= 1
    ensures PhaseAfter(base, max, log) == Some(Stopped) ==> Live(log) == {}
  {
    PrefixFollows(base, max, log, k);
    LiveByPhase(base, max, log[..k]);
    LiveByPhase(base, max, log);
  }

  function CountOf(log: seq<Action>, a: Action): nat {
    if log == [] then 0 else CountOf(log[..|log| - 1], a) + (if log[|log| - 1] == a then 1 else 0)
  }

  /** Each outage is told once, then reported down once, then reported up at most
      once, before the next. */
  lemma {:induction false} OutagesAreReported(base: int, max: int, log: seq<Action>)
    requires PhaseAfter(base, max, log).Some?
    ensures var told, down, up := CountOf(log, OnExit), CountOf(log, ReportDown), CountOf(log, ReportUp);
            match PhaseAfter(base, max, log).value
            case Watching(_) => told == down == up
            case Lost(_) => told == down == up
            case Leaving => told == down == up
            case Told(_) => told == down + 1 && down == up
            case Stopped => told == down && up <= down <= up + 1
            case _ => told == down == up + 1
  {
    if log != [] {
      OutagesAreReported(base, max, log[..|log| - 1]);
    }
  }

  /** The failed starts of the outage the log is in. */
  function FailuresInOutage(log: seq<Action>): nat {
    if log == [] then 0
    else
      match log[|log| - 1]
      case Close(_) => 0
      case StartFailed(_) => FailuresInOutage(log[..|log| - 1]) + 1
      case _ => FailuresInOutage(log[..|log| - 1])
  }

  function Doubled(base: int, n: nat): int {
    if n == 0 then base else 2 * Doubled(base, n - 1)
  }

  lemma {:induction false} DoubledGrows(base: int, n: nat)
    requires base >= 0
    ensures Doubled(base, n) >= 0
  {
    if n > 0 {
      DoubledGrows(base, n - 1);
    }
  }

  /** The delay before jitter after n failed starts. */
  function DelayAfter(base: int, max: int, n: nat): int {
    if n == 0 then base else Min(Doubled(base, n), max)
  }

  lemma DelayDoubles(base: int, max: int, n: nat)
    requires base >= 0 && max >= 0
    ensures DelayAfter(base, max, n + 1) == Min(2 * DelayAfter(base, max, n), max)
  {
    DoubledGrows(base, n);
  }

  /** Every sleep of an outage, before jitter, is base doubled once per failed
      start and capped at max. */
  lemma {:induction false} DelayIsCapped(base: int, max: int, log: seq<Action>)
    requires PhaseAfter(base, max, log).Some? && base >= 0 && max >= 0
    ensures match PhaseAfter(base, max, log).value
            case Waiting(d) => d == DelayAfter(base, max, FailuresInOutage(log)) && d <= Max(base, max)
            case Sleeping(d) => d == DelayAfter(base, max, FailuresInOutage(log)) && d <= Max(base, max)
            case _ => true
  {
    if log != [] {
      var front := log[..|log| - 1];
      DelayIsCapped(base, max, front);
      DelayDoubles(base, max, FailuresInOutage(front));
    }
  }

  // ------------------------------------------------------------- what Run does

  function NextOf(script: seq<Answer>): Answer {
    if script == [] then Stops else script[0]
  }

  function RestOf(script: seq<Answer>): seq<Answer> {
    if script == [] then [] else script[1..]
  }

  /** The actions of Run from a running tunnel on, next the number of the tunnel
      a start would give. */
  function RunLog(base: int, max: int, script: seq<Answer>, running: nat, next: nat): seq<Action>
    decreases |script|, 0
  {
    match NextOf(script)
    case Exits(stopping) =>
      [Exited(running)] +
      (if stopping then [Return]
       else OutageLog(base, max, script[1..], running, next))
    case _ => [Close(running)] + [Return]
  }

  /** Its actions from an outage on. */
  function OutageLog(base: int, max: int, script: seq<Answer>, running: nat, next: nat): seq<Action>
    decreases |script|, 2
  {
    [OnExit] + ([ReportDown] + ([Close(running)] + RestartLog(base, max, base, script, next)))
  }

  /** Its actions from a wait of delay on. */
  function RestartLog(base: int, max: int, delay: int, script: seq<Answer>, next: nat): seq<Action>
    decreases |script|, 1
  {
    [Sleep(delay)] + AfterSleep(base, max, delay, script, next)
  }

  function AfterSleep(base: int, max: int, delay: int, script: seq<Answer>, next: nat): seq<Action>
    decreases |script|, 0
  {
    if NextOf(script) != Well then [Return]
    else if NextOf(script[1..]) == Well then [Started(next)] + ([ReportUp] + RunLog(base, max, script[2..], next, next + 1))
    else
      var longer := Min(2 * delay, max);
      [StartFailed(longer)] + RestartLog(base, max, longer, RestOf(script[1..]), next)
  }

  /** One more action of those to come. */
  lemma StepTaken(base: int, max: int, log: seq<Action>, a: Action, rest: seq<Action>, phase: Phase)
    requires PhaseAfter(base, max, log) == Some(phase)
    ensures PhaseAfter(base, max, log + [a]) == Step(base, max, phase, a)
    ensures log + ([a] + rest) == log + [a] + rest
  {
    assert (log + [a])[..|log|] == log;
  }

  lemma Returned(base: int, max: int, log: seq<Action>, phase: Phase)
    requires PhaseAfter(base, max, log) == Some(phase) && Step(base, max, phase, Return) == Some(Stopped)
    ensures PhaseAfter(base, max, log + [Return]) == Some(Stopped)
  {
    StepTaken(base, max, log, Return, [], phase);
  }

  /** What Run does follows the protocol to its end, whatever the world answers. */
  lemma {:induction false} RunFollows(base: int, max: int, log: seq<Action>, script: seq<Answer>, running: nat, next: nat)
    requires PhaseAfter(base, max, log) == Some(Watching(running))
    ensures PhaseAfter(base, max, log + RunLog(base, max, script, running, next)) == Some(Stopped)
    decreases |script|, 0
  {
    match NextOf(script)
    case Exits(stopping) =>
      var lost, outage := log + [Exited(running)], OutageLog(base, max, script[1..], running, next);
      StepTaken(base, max, log, Exited(running), if stopping then [Return] else outage, Watching(running));
      if stopping {
        Returned(base, max, lost, Lost(running));
      } else {
        OutageFollows(base, max, lost, script[1..], running, next);
      }
    case _ =>
      StepTaken(base, max, log, Close(running), [Return], Watching(running));
      Returned(base, max, log + [Close(running)], Leaving);
  }

  lemma {:induction false} OutageFollows(base: int, max: int, log: seq<Action>, script: seq<Answer>, running: nat, next: nat)
    requires PhaseAfter(base, max, log) == Some(Lost(running))
    ensures PhaseAfter(base, max, log + OutageLog(base, max, script, running, next)) == Some(Stopped)
    decreases |script|, 2
  {
    var restart := RestartLog(base, max, base, script, next);
    var told, down := log + [OnExit], log + [OnExit] + [ReportDown];
    StepTaken(base, max, log, OnExit, [ReportDown] + ([Close(running)] + restart), Lost(running));
    StepTaken(base, max, told, ReportDown, [Close(running)] + restart, Told(running));
    StepTaken(base, max, down, Close(running), restart, Reported(running));
    RestartFollows(base, max, down + [Close(running)], base, script, next);
  }

  lemma {:induction false} RestartFollows(base: int, max: int, log: seq<Action>, delay: int, script: seq<Answer>, next: nat)
    requires PhaseAfter(base, max, log) == Some(Waiting(delay))
    ensures PhaseAfter(base, max, log + RestartLog(base, max, delay, script, next)) == Some(Stopped)
    decreases |script|, 1
  {
    var slept, owed := log + [Sleep(delay)], AfterSleep(base, max, delay, script, next);
    StepTaken(base, max, log, Sleep(delay), owed, Waiting(delay));
    if NextOf(script) != Well {
      Returned(base, max, slept, Sleeping(delay));
    } else if NextOf(script[1..]) == Well {
      StartFollows(base, max, slept, delay, script, next);
    } else {
      var longer := Min(2 * delay, max);
      StepTaken(base, max, slept, StartFailed(longer), RestartLog(base, max, longer, RestOf(script[1..]), next), Sleeping(delay));
      RestartFollows(base, max, slept + [StartFailed(longer)], longer, RestOf(script[1..]), next);
    }
  }

  lemma {:induction false} StartFollows(base: int, max: int, log: seq<Action>, delay: int, script: seq<Answer>, next: nat)
    requires PhaseAfter(base, max, log) == Some(Sleeping(delay)) && |script| >= 2
    ensures PhaseAfter(base, max, log + ([Started(next)] + ([ReportUp] + RunLog(base, max, script[2..], next, next + 1)))) == Some(Stopped)
    decreases |script|, 0
  {
    var run := RunLog(base, max, script[2..], next, next + 1);
    StepTaken(base, max, log, Started(next), [ReportUp] + run, Sleeping(delay));
    StepTaken(base, max, log + [Started(next)], ReportUp, run, Restarted(next));
    RunFollows(base, max, log + [Started(next)] + [ReportUp], script[2..], next, next + 1);
  }

  /** Every run of Run: never two live tunnels on the way and none at its end. */
  lemma RunKeepsOneTunnel(base: int, max: int, script: seq<Answer>, k: nat)
    requires k <= |RunLog(base, max, script, 0, 1)|
    ensures |Live(RunLog(base, max, script, 0, 1)[..k])| <= 1 && Live(RunLog(base, max, script, 0, 1)) == {}
  {
    var log := RunLog(base, max, script, 0, 1);
    RunFollows(base, max, [], script, 0, 1);
    assert [] + log == log;
    OneTunnelAtMost(base, max, log, k);
  }

  /** The sources down once the reports of some actions are made. */
  function Sources(down: map<string, string>, actions: seq<Action>): map<string, string>
    decreases actions
  {
    if actions == [] then down
    else
      match actions[0]
      case ReportDown => Sources(down[BOOTSTRAP := SSH_BOOTSTRAP_FAILED], actions[1..])
      case ReportUp => Sources(down - {BOOTSTRAP}, actions[1..])
      case _ => Sources(down, actions[1..])
  }

  // ------------------------------------------------------------------ the code

  class Supervisor {
    const base: int
    const max: int
    const health: Health
    var script: seq<Answer>
    var log: seq<Action>
    var tunnels: nat

    constructor (base: int, max: int, health: Health, script: seq<Answer>)
      ensures this.base == base && this.max == max && this.health == health
      ensures this.script == script && log == [] && tunnels == 1
    {
      this.base := base;
      this.max := max;
      this.health := health;
      this.script := script;
      log := [];
      tunnels := 1;
    }

    method Hear() returns (answer: Answer)
      modifies this`script
      ensures answer == NextOf(old(script)) && script == RestOf(old(script))
    {
      if script == [] {
        return Stops;
      }
      answer := script[0];
      script := script[1..];
    }

    /** With the actions of rest the log is all, and the sources down are end. */
    ghost predicate Owes(all: seq<Action>, end: map<string, string>, rest: seq<Action>)
      reads this, health
    {
      log + rest == all && Sources(health.down, rest) == end
    }

    /** One action, the first of those owed. */
    method Do(a: Action, ghost all: seq<Action>, ghost end: map<string, string>, ghost rest: seq<Action>)
      requires Owes(all, end, [a] + rest)
      modifies this`log
      ensures log + rest == all
      ensures a != ReportDown && a != ReportUp ==> Owes(all, end, rest)
      ensures a == ReportDown ==> Sources(health.down[BOOTSTRAP := SSH_BOOTSTRAP_FAILED], rest) == end
      ensures a == ReportUp ==> Sources(health.down - {BOOTSTRAP}, rest) == end
    {
      assert log + ([a] + rest) == log + [a] + rest;
      assert ([a] + rest)[1..] == rest;
      log := log + [a];
    }

    /** Run, over the answers of a script: exactly the actions of RunLog, and the
        reports they stand for. */
    method Run()
      modifies this, health
      ensures log == old(log) + RunLog(base, max, old(script), 0, old(tunnels))
      ensures health.down == Sources(old(health.down), RunLog(base, max, old(script), 0, old(tunnels)))
    {
      ghost var actions := RunLog(base, max, script, 0, tunnels);
      ghost var all, end := log + actions, Sources(health.down, actions);
      var running := 0;
      while true
        invariant Owes(all, end, RunLog(base, max, script, running, tunnels))
        decreases |script|
      {
        var answer := Hear();
        if !answer.Exits? {
          Do(Close(running), all, end, [Return]);
          Leave(all, end);
          return;
        }
        Do(Exited(running), all, end, if answer.stopping then [Return] else OutageLog(base, max, script, running, tunnels));
        if answer.stopping {
          Leave(all, end);
          return;
        }
        var restarted := Recover(running, all, end);
        if restarted == None {
          Leave(all, end);
          return;
        }
        running := restarted.value;
      }
    }

    method Leave(ghost all: seq<Action>, ghost end: map<string, string>)
      requires Owes(all, end, [Return])
      modifies this`log
      ensures log == all && health.down == end
    {
      assert [Return] + [] == [Return];
      Do(Return, all, end, []);
      assert log + [] == log;
    }

    /** Run, from an outage to the restart that ends it. */
    method Recover(running: nat, ghost all: seq<Action>, ghost end: map<string, string>) returns (tunnel: Option<nat>)
      requires Owes(all, end, OutageLog(base, max, script, running, tunnels))
      modifies this, health
      ensures |script| <= old(|script|)
      ensures Owes(all, end, if tunnel.Some? then RunLog(base, max, script, tunnel.value, tunnels) else [Return])
    {
      ghost var restart := RestartLog(base, max, base, script, tunnels);
      Do(OnExit, all, end, [ReportDown] + ([Close(running)] + restart));
      Do(ReportDown, all, end, [Close(running)] + restart);
      health.Down(BOOTSTRAP, SSH_BOOTSTRAP_FAILED);
      Do(Close(running), all, end, restart);
      tunnel := Restart(all, end);
      if tunnel.Some? {
        Do(ReportUp, all, end, RunLog(base, max, script, tunnel.value, tunnels));
        health.Up(BOOTSTRAP);
      }
    }

    /** restart: None once serve stops. */
    method Restart(ghost all: seq<Action>, ghost end: map<string, string>) returns (tunnel: Option<nat>)
      requires Owes(all, end, RestartLog(base, max, base, script, tunnels))
      modifies this`log, this`script, this`tunnels
      ensures |script| <= old(|script|)
      ensures Owes(all, end, if tunnel.Some? then [ReportUp] + RunLog(base, max, script, tunnel.value, tunnels) else [Return])
    {
      var delay := base;
      while true
        invariant |script| <= old(|script|) && Owes(all, end, RestartLog(base, max, delay, script, tunnels))
        decreases |script|
      {
        Do(Sleep(delay), all, end, AfterSleep(base, max, delay, script, tunnels));
        var slept := Hear();
        if slept != Well {
          return None;
        }
        var started := Hear();
        if started == Well {
          tunnel := Some(tunnels);
          Do(Started(tunnels), all, end, [ReportUp] + RunLog(base, max, script, tunnels, tunnels + 1));
          tunnels := tunnels + 1;
          return;
        }
        delay := Min(2 * delay, max);
        Do(StartFailed(delay), all, end, RestartLog(base, max, delay, script, tunnels));
      }
    }
  }
}
