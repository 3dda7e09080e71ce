/** What the supervisor owes the world's answers: when it returns, when it starts
    again, and what every start comes to, over a script and the log of a run. */
module SupervisorAnswers {
  import opened Text
  import opened Supervisor

  /** The n-th answer of the world; it stops serve once the script is over. */
  function At(script: seq<Answer>, n: nat): Answer {
    if n < |script| then script[n] else Stops
  }

  /** The answers an action used up: an exit one, a start two, the sleep before it
      included. */
  function Used(a: Action): nat {
    match a
    case Exited(_) => 1
    case Started(_) => 2
    case StartFailed(_) => 2
    case _ => 0
  }

  function Heard(log: seq<Action>): nat {
    if log == [] then 0 else Heard(log[..|log| - 1]) + Used(log[|log| - 1])
  }

  /** A tunnel is watched until it exits or serve stops, and then closed. */
  predicate Watches(script: seq<Answer>, n: nat, rest: seq<Action>) {
    if At(script, n).Exits? then rest != [] && rest[0].Exited?
    else |rest| == 2 && rest[0].Close? && rest[1] == Return
  }

  /** An exit with serve stopping ends the run; any other is told, reported down,
      cleaned up after, and waited out. */
  predicate Handles(base: int, exit: Answer, rest: seq<Action>) {
    && exit.Exits?
    && if exit.stopping then rest == [Return]
       else |rest| > 3 && rest[0] == OnExit && rest[1] == ReportDown && rest[2].Close? && rest[3] == Sleep(base)
  }

  /** A sleep serve stopped ends the run; after any other comes a start, which is
      reported up where it succeeds and slept upon again where it does not. */
  predicate Retries(slept: Answer, started: Answer, rest: seq<Action>) {
    if slept != Well then rest == [Return]
    else if started == Well then |rest| > 1 && rest[0].Started? && rest[1] == ReportUp
    else |rest| > 1 && rest[0].StartFailed? && rest[1].Sleep?
  }

  /** The world stopped serve: while it slept, by the exit just seen, or while the
      tunnel was watched. */
  predicate MayReturn(script: seq<Answer>, n: nat, before: Action) {
    match before
    case Sleep(_) => At(script, n) != Well
    case Exited(_) => n > 0 && At(script, n - 1) == Exits(true)
    case Close(_) => !At(script, n).Exits?
    case _ => false
  }

  /** What is owed at one action: n answers are used up, before comes before it and
      rest after it. */
  predicate Owed(base: int, script: seq<Answer>, n: nat, before: Option<Action>, a: Action, rest: seq<Action>) {
    match a
    case Exited(_) => Handles(base, At(script, n), rest)
    case Sleep(_) => Retries(At(script, n), At(script, n + 1), rest)
    case ReportUp => Watches(script, n, rest)
    case Return => rest == [] && before.Some? && MayReturn(script, n, before.value)
    case _ => true
  }

  predicate AllOwed(base: int, script: seq<Answer>, n: nat, before: Option<Action>, actions: seq<Action>)
    decreases actions
  {
    actions == [] ||
    (Owed(base, script, n, before, actions[0], actions[1..])
     && AllOwed(base, script, n + Used(actions[0]), Some(actions[0]), actions[1..]))
  }

  /** The script from the n-th answer on. */
  function From(script: seq<Answer>, n: nat): seq<Answer> {
    if n <= |script| then script[n..] else []
  }

  lemma FromNext(script: seq<Answer>, n: nat)
    ensures NextOf(From(script, n)) == At(script, n) && RestOf(From(script, n)) == From(script, n + 1)
    ensures n < |script| ==> From(script, n)[1..] == From(script, n + 1)
  {}

  lemma FirstOwed(base: int, script: seq<Answer>, n: nat, before: Option<Action>, a: Action, rest: seq<Action>)
    requires Owed(base, script, n, before, a, rest) && AllOwed(base, script, n + Used(a), Some(a), rest)
    ensures AllOwed(base, script, n, before, [a] + rest)
  {
    assert ([a] + rest)[1..] == rest;
  }

  lemma ReturnOwed(base: int, script: seq<Answer>, n: nat, before: Action)
    requires MayReturn(script, n, before)
    ensures AllOwed(base, script, n, Some(before), [Return])
  {
    FirstOwed(base, script, n, Some(before), Return, []);
    assert [Return] + [] == [Return];
  }

  lemma {:induction false} RunOwes(base: int, max: int, script: seq<Answer>, n: nat, before: Option<Action>, running: nat, next: nat)
    ensures var log := RunLog(base, max, From(script, n), running, next);
            Watches(script, n, log) && AllOwed(base, script, n, before, log)
    decreases |From(script, n)|, 0
  {
    FromNext(script, n);
    match At(script, n)
    case Exits(stopping) =>
      var a := Exited(running);
      if stopping {
        ReturnOwed(base, script, n + 1, a);
        FirstOwed(base, script, n, before, a, [Return]);
      } else {
        var outage := OutageLog(base, max, From(script, n + 1), running, next);
        OutageOwes(base, max, script, n + 1, a, running, next);
        FirstOwed(base, script, n, before, a, outage);
      }
    case _ =>
      ReturnOwed(base, script, n, Close(running));
      FirstOwed(base, script, n, before, Close(running), [Return]);
  }

  lemma {:induction false} OutageOwes(base: int, max: int, script: seq<Answer>, n: nat, before: Action, running: nat, next: nat)
    ensures var log := OutageLog(base, max, From(script, n), running, next);
            Handles(base, Exits(false), log) && AllOwed(base, script, n, Some(before), log)
    decreases |From(script, n)|, 2
  {
    var restart := RestartLog(base, max, base, From(script, n), next);
    RestartOwes(base, max, base, script, n, Close(running), next);
    FirstOwed(base, script, n, Some(ReportDown), Close(running), restart);
    FirstOwed(base, script, n, Some(OnExit), ReportDown, [Close(running)] + restart);
    FirstOwed(base, script, n, Some(before), OnExit, [ReportDown] + ([Close(running)] + restart));
  }

  lemma {:induction false} RestartOwes(base: int, max: int, delay: int, script: seq<Answer>, n: nat, before: Action, next: nat)
    ensures AllOwed(base, script, n, Some(before), RestartLog(base, max, delay, From(script, n), next))
    decreases |From(script, n)|, 1
  {
    var a, rest := Sleep(delay), AfterSleep(base, max, delay, From(script, n), next);
    FromNext(script, n);
    FromNext(script, n + 1);
    if At(script, n) != Well {
      ReturnOwed(base, script, n, a);
    } else if At(script, n + 1) == Well {
      StartOwes(base, max, delay, script, n, next);
    } else {
      var longer := Min(2 * delay, max);
      RestartOwes(base, max, longer, script, n + 2, StartFailed(longer), next);
      FirstOwed(base, script, n, Some(a), StartFailed(longer), RestartLog(base, max, longer, From(script, n + 2), next));
    }
    FirstOwed(base, script, n, Some(before), a, rest);
  }

  lemma {:induction false} StartOwes(base: int, max: int, delay: int, script: seq<Answer>, n: nat, next: nat)
    requires At(script, n) == At(script, n + 1) == Well
    ensures AllOwed(base, script, n, Some(Sleep(delay)), AfterSleep(base, max, delay, From(script, n), next))
    ensures Retries(Well, Well, AfterSleep(base, max, delay, From(script, n), next))
    decreases |From(script, n)|, 0
  {
    var run := RunLog(base, max, From(script, n + 2), next, next + 1);
    FromNext(script, n);
    FromNext(script, n + 1);
    assert From(script, n)[2..] == From(script, n + 2);
    RunOwes(base, max, script, n + 2, Some(ReportUp), next, next + 1);
    FirstOwed(base, script, n + 2, Some(Started(next)), ReportUp, run);
    FirstOwed(base, script, n, Some(Sleep(delay)), Started(next), [ReportUp] + run);
  }

  // --------------------------------------------------------------- over the log

  /** What is owed at the k-th action of a log. */
  predicate OwedAt(base: int, script: seq<Answer>, log: seq<Action>, k: nat)
    requires k < |log|
  {
    Owed(base, script, Heard(log[..k]), if k == 0 then None else Some(log[k - 1]), log[k], log[k + 1..])
  }

  lemma {:induction false} OwedEverywhere(base: int, script: seq<Answer>, log: seq<Action>, j: nat, k: nat)
    requires j <= k < |log|
    requires AllOwed(base, script, Heard(log[..j]), if j == 0 then None else Some(log[j - 1]), log[j..])
    ensures OwedAt(base, script, log, k)
    decreases k - j
  {
    if j < k {
      assert log[j..][1..] == log[j + 1..];
      assert log[..j + 1][..j] == log[..j];
      OwedEverywhere(base, script, log, j + 1, k);
    } else {
      assert log[j..][1..] == log[j + 1..];
    }
  }

  /** Every action of every run is what its answers call for: Run returns only
      where the world stopped serve, an exit with serve going on is always waited
      out, every failed start is followed by another sleep, and every successful
      one by one Started and one report. */
  lemma RunAnswersTheWorld(base: int, max: int, script: seq<Answer>, k: nat)
    requires k < |RunLog(base, max, script, 0, 1)|
    ensures Watches(script, 0, RunLog(base, max, script, 0, 1))
    ensures OwedAt(base, script, RunLog(base, max, script, 0, 1), k)
  {
    var log := RunLog(base, max, script, 0, 1);
    assert From(script, 0) == script;
    RunOwes(base, max, script, 0, None, 0, 1);
    assert log[..0] == [] && log[0..] == log;
    OwedEverywhere(base, script, log, 0, k);
  }
}
