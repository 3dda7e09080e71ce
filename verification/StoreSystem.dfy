/** Any number of processes at the store: each waits for the lock, makes its file
    operations one by one, and may crash or give up; readers take no lock. */
module StoreSystem {
  import opened Text
  import opened Credentials
  import opened Profiles
  import opened StorePlanes

  /** A process of ts-bridge, as Update and lockStore drive it. */
  datatype Process =
    | Idle
    | Waiting(request: Request)
    | InLock(pc: Pc)
    | Ended(result: Result)
    | TimedOut
    | Crashed

  /** One holder's turn: its request, and which of its file operations failed. */
  datatype Turn = Turn(process: nat, request: Request, faults: seq<bool>)

  /** lock: the process whose open file holds it. log: the turns, in lock order. */
  datatype System = System(disk: Disk, lock: Option<nat>, processes: seq<Process>, log: seq<Turn>)

  datatype Event =
    | Begin(process: nat, request: Request)
    | Acquire(process: nat)
    | LockFails(process: nat)
    | TimeOut(process: nat)
    | Act(process: nat, fault: bool)
    | Release(process: nat)
    | Crash(process: nat)

  /** What a process may do next, by its own state and what tryLock answers. */
  predicate Enabled(s: System, e: Event) {
    && e.process < |s.processes|
    && var p := s.processes[e.process];
       match e
       case Begin(_, _) => p.Idle? || p.Ended? || p.TimedOut?
       case Acquire(_) => p.Waiting? && s.lock == None
       case LockFails(_) => p.Waiting?
       case TimeOut(_) => p.Waiting? && s.lock.Some?
       case Act(_, _) => p.InLock? && !p.pc.Finished?
       case Release(_) => p.InLock? && p.pc.Finished?
       case Crash(_) => !p.Crashed?
  }

  /** Closing a process's lock file releases the lock if it holds it. */
  function Closed(lock: Option<nat>, process: nat): Option<nat> {
    if lock == Some(process) then None else lock
  }

  function Extended(log: seq<Turn>, fault: bool): seq<Turn> {
    if log == [] then log
    else
      var last := log[|log| - 1];
      log[..|log| - 1] + [last.(faults := last.faults + [fault])]
  }

  function Next(canon: Canon, s: System, e: Event): System
    requires Enabled(s, e)
  {
    var i := e.process;
    var p := s.processes[i];
    match e
    case Begin(_, request) => s.(processes := s.processes[i := Waiting(request)])
    case Acquire(_) =>
      s.(lock := Some(i), processes := s.processes[i := InLock(Start(p.request))], log := s.log + [Turn(i, p.request, [])])
    case LockFails(_) => s.(processes := s.processes[i := Ended(Failed(IO))])
    case TimeOut(_) => s.(processes := s.processes[i := TimedOut])
    case Act(_, fault) =>
      var next := Step(canon, State(p.pc, s.disk), fault);
      s.(disk := next.disk, processes := s.processes[i := InLock(next.pc)], log := Extended(s.log, fault))
    case Release(_) => s.(lock := Closed(s.lock, i), processes := s.processes[i := Ended(p.pc.result)])
    case Crash(_) => s.(lock := Closed(s.lock, i), processes := s.processes[i := Crashed])
  }

  function Initial(d: Disk, n: nat): System {
    System(d, None, seq(n, _ => Idle), [])
  }

  // ------------------------------------------------------------- lock order

  /** One turn alone on a disk. */
  function Taken(canon: Canon, d: Disk, t: Turn): State {
    Run(canon, State(Start(t.request), d), t.faults)
  }

  /** The turns one after the other, each alone. */
  function Replay(canon: Canon, d: Disk, log: seq<Turn>): Disk {
    if log == [] then d else Taken(canon, Replay(canon, d, log[..|log| - 1]), log[|log| - 1]).disk
  }

  /** The map a process has loaded and not yet written is the one on disk, and
      what it will write changes one profile of it. */
  ghost predicate Fresh(pc: Pc, d: Disk) {
    match pc
    case Saving(loaded, changed, _) => loaded == d.profiles && OneChanged(loaded, changed)
    case BindSave(_, _, loaded, changed) => loaded == d.profiles && OneChanged(loaded, changed)
    case ClearSave(_, loaded, changed, _) => loaded == d.profiles && OneChanged(loaded, changed)
    case _ => true
  }

  ghost predicate OneChanged(loaded: Entries, changed: Entries) {
    exists name :: name in changed && changed == loaded[name := changed[name]]
  }

  lemma StepIsFresh(canon: Canon, s: State, fault: bool)
    ensures !s.pc.Finished? ==> Fresh(Step(canon, s, fault).pc, Step(canon, s, fault).disk)
  {
    match s.pc
    case Start(request) => StartIsFresh(canon, request, s.disk, fault);
    case BindLoad(b, previous) => AssociateIsFresh(canon, b, previous, s.disk, fault);
    case ClearLoad(clear, outcome) => ClearIsFresh(clear, outcome, s.disk, fault);
    case BindShare(b) => assert ShareStep(canon, b, s.disk, fault).Finished? || ShareStep(canon, b, s.disk, fault).BindRead?;
    case BindRead(b) => assert ReadStep(b, s.disk, fault).Finished? || ReadStep(b, s.disk, fault).BindStore?;
    case UnbindList(r, name) => ListIsFresh(r, name, s.disk, fault);
    case _ => WriteIsFresh(canon, s, fault);
  }

  lemma ListIsFresh(r: Removal, name: string, d: Disk, fault: bool)
    ensures Fresh(ListStep(r, name, d, fault), d)
  {}

  /** A write leaves nothing loaded. */
  lemma WriteIsFresh(canon: Canon, s: State, fault: bool)
    requires s.pc.Saving? || s.pc.BindStore? || s.pc.BindSave? || s.pc.BindRestore? || s.pc.UnbindRemove? || s.pc.ClearSave? || s.pc.Finished?
    ensures !s.pc.Finished? ==> Fresh(Step(canon, s, fault).pc, Step(canon, s, fault).disk)
  {}

  lemma PutIsFresh(canon: Canon, name: string, target: string, controlURL: string, runtime: Option<Runtime>, force: bool, d: Disk, fault: bool)
    ensures Fresh(PutStep(canon, name, target, controlURL, runtime, force, d, fault), d)
  {
    var pc := PutStep(canon, name, target, controlURL, runtime, force, d, fault);
    if pc.Saving? {
      assert name in pc.changed && pc.changed == d.profiles[name := pc.changed[name]];
    }
  }

  lemma ClearIsFresh(clear: seq<string>, outcome: Outcome, d: Disk, fault: bool)
    ensures Fresh(ClearStep(clear, outcome, d, fault), d)
  {
    var pc := ClearStep(clear, outcome, d, fault);
    if pc.ClearSave? {
      assert clear[0] in pc.changed && pc.changed == d.profiles[clear[0] := pc.changed[clear[0]]];
    }
  }

  lemma AssociateIsFresh(canon: Canon, b: Binding, previous: Option<Previous>, d: Disk, fault: bool)
    ensures Fresh(AssociateStep(canon, b, previous, d, fault), d)
  {
    var pc := AssociateStep(canon, b, previous, d, fault);
    if pc.BindSave? {
      assert b.profile in pc.changed && pc.changed == d.profiles[b.profile := pc.changed[b.profile]];
    }
  }

  lemma StartIsFresh(canon: Canon, request: Request, d: Disk, fault: bool)
    ensures Fresh(StartStep(canon, request, d, fault), d)
  {
    match request
    case Import(name, target, controlURL, force) => PutIsFresh(canon, name, target, controlURL, None, force, d, fault);
    case Set(name, target, controlURL) => PutIsFresh(canon, name, target, controlURL, None, false, d, fault);
    case Configure(name, target, controlURL, runtime, force) =>
      PutIsFresh(canon, name, target, controlURL, Some(runtime), force, d, fault);
    case Clear(profile) => ClearIsFresh([profile], Outcome.Cleared, d, fault);
    case Bind(_) =>
    case Unbind(_) =>
  }

  // ------------------------------------------------------------ the invariant

  /** At most one process is in the lock, and it is the holder. */
  predicate Exclusive(s: System) {
    && (forall i | 0 <= i < |s.processes| && s.processes[i].InLock? :: s.lock == Some(i))
    && (s.lock.Some? ==> s.lock.value < |s.processes| && s.processes[s.lock.value].InLock?)
  }

  /** The disk is what the turns so far leave, taken one after the other; the
      holder is where its own turn is, and knows the disk as it is. */
  ghost predicate Serial(canon: Canon, d: Disk, s: System) {
    && Exclusive(s)
    && s.disk == Replay(canon, d, s.log)
    && (s.lock.Some? ==>
          && s.log != [] && s.log[|s.log| - 1].process == s.lock.value
          && s.processes[s.lock.value].pc == Taken(canon, Replay(canon, d, s.log[..|s.log| - 1]), s.log[|s.log| - 1]).pc
          && Fresh(s.processes[s.lock.value].pc, s.disk))
  }

  lemma ActKeepsSerial(canon: Canon, d: Disk, s: System, e: Event)
    requires Serial(canon, d, s) && e.Act? && Enabled(s, e)
    ensures Serial(canon, d, Next(canon, s, e))
  {
    var n, front, last := |s.log| - 1, s.log[..|s.log| - 1], s.log[|s.log| - 1];
    var before := Replay(canon, d, front);
    var log := Next(canon, s, e).log;
    assert log[..|log| - 1] == front && log[|log| - 1] == last.(faults := last.faults + [e.fault]);
    OneMoreStep(canon, State(Start(last.request), before), last.faults, e.fault);
    assert Taken(canon, before, last) == State(s.processes[e.process].pc, s.disk);
    StepIsFresh(canon, Taken(canon, before, last), e.fault);
  }

  lemma AcquireKeepsSerial(canon: Canon, d: Disk, s: System, e: Event)
    requires Serial(canon, d, s) && e.Acquire? && Enabled(s, e)
    ensures Serial(canon, d, Next(canon, s, e))
  {
    var log := Next(canon, s, e).log;
    assert log[..|log| - 1] == s.log;
  }

  lemma NextKeepsSerial(canon: Canon, d: Disk, s: System, e: Event)
    requires Serial(canon, d, s) && Enabled(s, e)
    ensures Serial(canon, d, Next(canon, s, e))
  {
    if e.Act? {
      ActKeepsSerial(canon, d, s, e);
    } else if e.Acquire? {
      AcquireKeepsSerial(canon, d, s, e);
    }
  }

  // ----------------------------------------------------------------- all runs

  /** The events happen in turn. */
  predicate Possible(canon: Canon, s: System, events: seq<Event>)
    decreases events
  {
    events == [] || (Enabled(s, events[0]) && Possible(canon, Next(canon, s, events[0]), events[1..]))
  }

  function After(canon: Canon, s: System, events: seq<Event>): System
    requires Possible(canon, s, events)
    decreases events
  {
    if events == [] then s else After(canon, Next(canon, s, events[0]), events[1..])
  }

  lemma {:induction false} EventsKeepSerial(canon: Canon, d: Disk, s: System, events: seq<Event>)
    requires Serial(canon, d, s) && Possible(canon, s, events)
    ensures Serial(canon, d, After(canon, s, events))
    decreases events
  {
    if events != [] {
      NextKeepsSerial(canon, d, s, events[0]);
      EventsKeepSerial(canon, d, Next(canon, s, events[0]), events[1..]);
    }
  }

  /** Every interleaving is serial in lock order: one holder at most, whose
      loaded map is the disk's, and a disk that is the turns' taken one by one,
      so no update is lost and a reader sees whole writes only. */
  lemma StoreIsSerializable(canon: Canon, d: Disk, n: nat, events: seq<Event>)
    requires Possible(canon, Initial(d, n), events)
    ensures Serial(canon, d, After(canon, Initial(d, n), events))
  {
    EventsKeepSerial(canon, d, Initial(d, n), events);
  }

  lemma {:induction false} ReplayKeepsConsistent(canon: Canon, d: Disk, log: seq<Turn>)
    requires Consistent(canon, d)
    ensures Consistent(canon, Replay(canon, d, log))
  {
    if log != [] {
      var front := log[..|log| - 1];
      ReplayKeepsConsistent(canon, d, front);
      RunKeepsSound(canon, State(Start(log[|log| - 1].request), Replay(canon, d, front)), log[|log| - 1].faults);
    }
  }

  /** At every moment of every interleaving, crashes and failed writes included,
      each reference to a stored key is on the plane the key was issued for, and
      profiles that share a name are on one plane. */
  lemma StoreStaysConsistent(canon: Canon, d: Disk, n: nat, events: seq<Event>)
    requires Consistent(canon, d) && Possible(canon, Initial(d, n), events)
    ensures Consistent(canon, After(canon, Initial(d, n), events).disk)
  {
    StoreIsSerializable(canon, d, n, events);
    ReplayKeepsConsistent(canon, d, After(canon, Initial(d, n), events).log);
  }

  // --------------------------------------------- a process that never gets it

  function TurnsOf(log: seq<Turn>, process: nat): nat {
    if log == [] then 0 else TurnsOf(log[..|log| - 1], process) + (if log[|log| - 1].process == process then 1 else 0)
  }

  function AcquiresOf(events: seq<Event>, process: nat): nat {
    if events == [] then 0 else (if events[0] == Acquire(process) then 1 else 0) + AcquiresOf(events[1..], process)
  }

  lemma ExtendedTurns(log: seq<Turn>, fault: bool, process: nat)
    ensures TurnsOf(Extended(log, fault), process) == TurnsOf(log, process)
  {
    if log != [] {
      var longer := Extended(log, fault);
      assert longer[..|longer| - 1] == log[..|log| - 1];
    }
  }

  /** A process has a turn each time it gets the lock and never otherwise: one
      that only times out has no part in the disk. */
  lemma {:induction false} TurnsAreAcquires(canon: Canon, s: System, events: seq<Event>, process: nat)
    requires Possible(canon, s, events)
    ensures TurnsOf(After(canon, s, events).log, process) == TurnsOf(s.log, process) + AcquiresOf(events, process)
    decreases events
  {
    if events != [] {
      var e := events[0];
      var next := Next(canon, s, e);
      if e.Act? {
        ExtendedTurns(s.log, e.fault, process);
      } else if e.Acquire? {
        assert next.log[..|next.log| - 1] == s.log;
      }
      TurnsAreAcquires(canon, next, events[1..], process);
    }
  }
}
