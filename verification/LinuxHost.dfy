/** The Runner the steps act through, and the steps themselves: each reads the
    host, then issues its commands one by one and stops at the first failure. */
module LinuxHost {
  import opened Text
  import opened IptRules
  import opened IptDecide
  import opened IptLegacy
  import opened Ufw
  import opened HostState
  import opened LinuxSetup
  import opened Converge
  import opened SecondRun
  import opened SetupRun
  import opened Resume
  import XrdpIni

  /** A host reached through its tools. flaky: a command may fail for reasons of
      its own (no lock, no memory), and then changes nothing. */
  class Runner {
    var host: Host
    ghost var issued: seq<Command>
    const flaky: bool

    constructor (h: Host, flaky: bool)
      ensures host == h && issued == [] && this.flaky == flaky
    {
      host := h;
      issued := [];
      this.flaky := flaky;
    }

    /** Run and WriteFile. */
    method Run(c: Command) returns (ok: bool)
      modifies this
      ensures issued == old(issued) + [c]
      ensures ok ==> Accepts(old(host), c) && host == Effect(old(host), c)
      ensures !ok ==> host == old(host) && (flaky || !Accepts(host, c))
    {
      var fault: bool := *;
      issued := issued + [c];
      ok := Accepts(host, c) && !(flaky && fault);
      if ok {
        host := Effect(host, c);
      }
    }

    /** readIptables. */
    method ReadIptables(port: Port) returns (read: FirewallRead)
      ensures read == HostState.ReadIptables(host, port)
    {
      if !host.inputReadable {
        return UnknownRead(BackendIptables);
      }
      var input := CutRules(Listing(host.input));
      var lines := Split(input, '\n');
      var before, jump := BeforeQualifiedJump(lines);
      var diverted := exists line | line in before :: TSInputJump(line);
      var walked := before;
      if diverted {
        if !host.tsInput.ChainRules? {
          return UnknownRead(BackendIptables);
        }
        var chain := CutRules(Listing(host.tsInput.rules));
        SplitPartsHoldNoSeparator(input, '\n');
        BeforeJumpIsPart(lines);
        SplitOfJoin(before, '\n');
        var rules := InlineChain(Join(before, '\n'), chain);
        walked := Split(rules, '\n');
      }
      var state, rule := IptablesDecide(walked, port);
      if state == Absent && !jump && !diverted && TSInputUnreached(host) {
        return UnknownRead(BackendIptables);
      }
      if state == Absent && jump {
        return UnknownRead(BackendIptables);
      }
      var copies := CountCopies(lines, port);
      var unscoped := FindUnscoped(lines, port);
      var scoped := state == Present && Covers(Rest(walked, unscoped), port);
      var copiesAdmit := state == Present && copies > 0 && !Covers(StripLegacy(walked, port), port);
      read := FirewallRead(state, BackendIptables, rule, copies, Foreign(unscoped, port), scoped, copiesAdmit, false, false, false);
    }

    /** readUFW. */
    method ReadUfw(port: Port) returns (read: FirewallRead)
      ensures read == HostState.ReadUfw(host, port)
    {
      var active := UfwActive(host.ufwStatus);
      read := UnknownRead(BackendUfw).(ufwInactive := active == Some(false));
      if active != None && host.ufwAdded != None {
        var state, rule := WalkAdded(host.ufwAdded.value, port);
        read := read.(state := state, rule := rule, ufwAllows := state == Present);
      }
      if !host.hasIptables {
        return;
      }
      var ipt := ReadIptables(port);
      read := read.(copies := ipt.copies, copiesAdmit := ipt.copiesAdmit && read.state != Present);
      if read.state == Absent {
        read := read.(state := ipt.state, rule := ipt.rule, decidedByIptables := true);
      }
    }

    /** readLinuxFirewall. */
    method ReadFirewall(port: Port) returns (read: FirewallRead)
      ensures read == HostState.ReadFirewall(host, port)
    {
      if !host.elevated {
        return UnknownRead(NoBackend);
      }
      if host.hasUfw {
        read := ReadUfw(port);
      } else if !host.hasIptables {
        read := UnknownRead(NoBackend);
      } else {
        read := ReadIptables(port);
      }
    }

    /** iptLegacySetupStep: the scoped rule goes in first, and a failed add
        deletes nothing. */
    method ReplaceLegacy(read: FirewallRead, port: Port) returns (outcome: Outcome)
      modifies this
      ensures Ran(old(host), Plan(LegacyCommands(read, port), if |read.foreign| > 0 then Manual else Changed),
                  host, old(issued), issued, outcome, flaky)
    {
      var c, d := Iptables(ScopedRule(port)), Iptables(DeleteCommand(port));
      ghost var h, before := host, issued;
      var done := if |read.foreign| > 0 then Manual else Changed;
      if read.scoped {
        outcome := DeleteEach(d, read.copies, done);
        assert LegacyCommands(read, port) == Repeat(d, read.copies);
        return;
      }
      assert LegacyCommands(read, port) == [c] + Repeat(d, read.copies);
      var ok := Run(c);
      if !ok {
        RanNothing(h, c, Repeat(d, read.copies), done, before, flaky);
        return Failed;
      }
      outcome := DeleteEach(d, read.copies, done);
      RanAfterFirst(h, c, Repeat(d, read.copies), done, host, before, issued, outcome, flaky);
    }

    /** One delete per copy. */
    method DeleteEach(d: Command, n: nat, done: Outcome) returns (outcome: Outcome)
      modifies this
      ensures Ran(old(host), Plan(Repeat(d, n), done), host, old(issued), issued, outcome, flaky)
    {
      ghost var cs, h, before := Repeat(d, n), host, issued;
      for i := 0 to n
        invariant AcceptsAll(h, cs[..i]) && host == After(h, cs[..i])
        invariant issued == before + cs[..i]
      {
        var ok := Run(d);
        if !ok {
          RanUpTo(h, Plan(cs, done), i, host, before, issued, flaky);
          return Failed;
        }
        CarriedOneMore(h, cs, i);
        assert cs[..i + 1] == cs[..i] + [d];
      }
      assert cs[..n] == cs;
      RanToEnd(h, Plan(cs, done), host, before, issued, flaky);
      outcome := done;
    }

    /** firewallSetupStep. */
    method FirewallSetupStep(port: Port) returns (outcome: Outcome)
      modifies this
      ensures Ran(old(host), FirewallPlan(old(host), port), host, old(issued), issued, outcome, flaky)
    {
      var read := ReadFirewall(port);
      ghost var plan := FirewallPlan(host, port);
      if InactiveUfwDecides(read) {
        if InactiveUfwAdds(read) {
          outcome := RunOne(UfwAllow(AllowArgument(port)), Manual);
        } else {
          outcome := Manual;
          RanToEnd(host, plan, host, issued, issued, flaky);
        }
        return;
      }
      match read.state {
        case Present =>
          if HoldsLegacy(read) {
            outcome := ReplaceLegacy(read, port);
          } else {
            outcome := if read.copies > 0 then Manual else AlreadyOk;
            RanToEnd(host, plan, host, issued, issued, flaky);
          }
        case Blocked =>
          outcome := Manual;
          RanToEnd(host, plan, host, issued, issued, flaky);
        case Unknown =>
          outcome := Failed;
          RanToEnd(host, plan, host, issued, issued, flaky);
        case Absent =>
          var allow := if read.backend == BackendUfw then UfwAllow(AllowArgument(port)) else Iptables(ScopedRule(port));
          outcome := RunOne(allow, Changed);
      }
    }

    /** A step that issues one command. */
    method RunOne(c: Command, done: Outcome) returns (outcome: Outcome)
      modifies this
      ensures Ran(old(host), Plan([c], done), host, old(issued), issued, outcome, flaky)
    {
      ghost var h, before := host, issued;
      var ok := Run(c);
      assert [c][..0] == [] && [c][..1] == [c];
      if ok {
        CarriedOneMore(h, [c], 0);
        RanToEnd(h, Plan([c], done), host, before, issued, flaky);
        outcome := done;
      } else {
        RanUpTo(h, Plan([c], done), 0, host, before, issued, flaky);
        outcome := Failed;
      }
    }

    /** xrdpSetupStep. */
    method XrdpSetupStep() returns (outcome: Outcome)
      modifies this
      ensures Ran(old(host), XrdpPlan(old(host)), host, old(issued), issued, outcome, flaky)
    {
      var x := ReadXrdp(host);
      ghost var plan := XrdpPlan(host);
      if !XrdpMet(x) {
        outcome := Failed;
        RanToEnd(host, plan, host, issued, issued, flaky);
      } else if x.enabled && x.active {
        outcome := AlreadyOk;
        RanToEnd(host, plan, host, issued, issued, flaky);
      } else if x.masked {
        outcome := Failed;
        RanToEnd(host, plan, host, issued, issued, flaky);
      } else {
        outcome := RunOne(EnableXrdp, Changed);
      }
    }

    /** xrdpPortRead: the outcome, None when the step is not reported, and the
        listener read. */
    method ReadXrdpPort(declared: Port) returns (outcome: Option<Outcome>, listener: Option<XrdpIni.Listener>)
      ensures (outcome, listener) == XrdpPortRead(host, declared)
    {
      match host.ini {
        case Missing =>
          return (if declared == XrdpIni.DEFAULT_RDP_PORT then None else Some(Failed)), None;
        case Unreadable =>
          return Some(Failed), None;
        case File(text) =>
          var r := XrdpIni.ReadListener(text);
          if r.BadPort? {
            return Some(Failed), None;
          }
          var l := r.value;
          if l.found.port == declared {
            return (if declared == XrdpIni.DEFAULT_RDP_PORT then None else Some(AlreadyOk)), Some(l);
          }
          return Some(if XrdpIni.HasPlace(l) then Changed else Failed), Some(l);
      }
    }

    /** xrdpPortSetupStep: write the file, then restart xrdp. */
    method XrdpPortSetupStep(declared: Port) returns (outcome: Option<Outcome>)
      modifies this
      ensures XrdpPortPlan(old(host), declared) == None ==> outcome == None && host == old(host) && issued == old(issued)
      ensures XrdpPortPlan(old(host), declared).Some? ==>
                outcome.Some? &&
                Ran(old(host), XrdpPortPlan(old(host), declared).value, host, old(issued), issued, outcome.value, flaky)
    {
      ghost var h, before := host, issued;
      var read, listener := ReadXrdpPort(declared);
      if read != Some(Changed) {
        if read.Some? {
          RanToEnd(h, XrdpPortPlan(h, declared).value, host, before, issued, flaky);
        }
        return read;
      }
      XrdpIni.ReadIsInRange(host.ini.text);
      var write := WriteIni(XrdpIni.WithPort(listener.value, declared));
      assert XrdpPortPlan(h, declared) == Some(Plan([write, RestartXrdp], Changed));
      var done := WriteThenRestart(write);
      return Some(done);
    }

    method WriteThenRestart(write: Command) returns (outcome: Outcome)
      modifies this
      ensures Ran(old(host), Plan([write, RestartXrdp], Changed), host, old(issued), issued, outcome, flaky)
    {
      ghost var h, before, plan := host, issued, Plan([write, RestartXrdp], Changed);
      assert plan.commands[..0] == [] && plan.commands[..1] == [write] && plan.commands[..2] == plan.commands;
      var ok := Run(write);
      if !ok {
        RanUpTo(h, plan, 0, host, before, issued, flaky);
        return Failed;
      }
      CarriedOneMore(h, plan.commands, 0);
      ok := Run(RestartXrdp);
      if !ok {
        RanUpTo(h, plan, 1, host, before, issued, flaky);
        return Failed;
      }
      CarriedOneMore(h, plan.commands, 1);
      RanToEnd(h, plan, host, before, issued, flaky);
      return Changed;
    }

    /** The service step, and the port step where a port is declared. */
    method XrdpSteps(cfg: Config) returns (outcomes: seq<Outcome>)
      modifies this
      ensures XrdpRan(old(host), cfg, host, outcomes, old(issued), issued, flaky)
    {
      ghost var h, before := host, issued;
      var service := XrdpSetupStep();
      outcomes := [service];
      ghost var mid := Mid(host, issued);
      if cfg.portDeclared {
        var ported := XrdpPortSetupStep(LinuxPort(cfg));
        if ported.Some? {
          outcomes := [service, ported.value];
        }
      }
      assert XrdpRanBy(h, cfg, host, outcomes, before, issued, flaky, mid);
    }

    /** setupLinux: every step in turn, whatever became of the ones before it. */
    method SetupLinux(cfg: Config) returns (outcomes: seq<Outcome>)
      modifies this
      ensures outcomes != []
      ensures SetupRan(old(host), cfg, host, outcomes[..|outcomes| - 1], outcomes[|outcomes| - 1], old(issued), issued, flaky)
    {
      ghost var h, before := host, issued;
      outcomes := XrdpSteps(cfg);
      ghost var mid, first := Mid(host, issued), outcomes;
      var firewall := FirewallSetupStep(LinuxPort(cfg));
      outcomes := outcomes + [firewall];
      assert outcomes[..|outcomes| - 1] == first;
      assert SetupRanBy(h, cfg, host, first, firewall, before, issued, flaky, mid);
    }

    /** checkLinux: the same reads, and no command. */
    method CheckLinux(cfg: Config) returns (outcomes: seq<Outcome>)
      ensures outcomes == SetupRun.CheckLinux(host, cfg)
    {
      var port := LinuxPort(cfg);
      outcomes := [XrdpCheck(host)];
      if cfg.portDeclared {
        var step, _ := ReadXrdpPort(port);
        if step.Some? {
          outcomes := outcomes + [step.value];
        }
      }
      var read := ReadFirewall(port);
      outcomes := outcomes + [FirewallCheck(read)];
    }
  }

  // ------------------------------------------------------ steps against plans

  /** The run left g, reported outcomes, and issued what was added to before. */
  ghost predicate Reached(f: Finish, g: Host, outcomes: seq<Outcome>, before: seq<Command>, issued: seq<Command>) {
    before <= issued && f == Finish(g, outcomes, issued[|before|..])
  }

  lemma OneAfterOther(one: Finish, g: Host, first: seq<Outcome>, start: seq<Command>, mid: seq<Command>,
                      two: Finish, g': Host, second: seq<Outcome>, end: seq<Command>)
    requires Reached(one, g, first, start, mid) && Reached(two, g', second, mid, end)
    ensures Reached(Then(one, two), g', first + second, start, end)
  {
    assert end[|start|..] == mid[|start|..] + end[|mid|..];
  }

  /** The step went through the plan's commands up to the first failure: g is h
      after the ones that succeeded, and issued grew by the ones issued. */
  ghost predicate Ran(h: Host, plan: Plan, g: Host, before: seq<Command>, issued: seq<Command>, outcome: Outcome, flaky: bool) {
    exists k | 0 <= k <= |plan.commands| :: RanFor(h, plan, k, g, before, issued, outcome, flaky)
  }

  ghost predicate RanFor(h: Host, plan: Plan, k: nat, g: Host, before: seq<Command>, issued: seq<Command>, outcome: Outcome, flaky: bool)
    requires k <= |plan.commands|
  {
    var cs := plan.commands;
    && AcceptsAll(h, cs[..k]) && g == After(h, cs[..k])
    && (if k == |cs| then issued == before + cs && outcome == plan.outcome
        else issued == before + cs[..k + 1] && outcome == Failed && (flaky || !Accepts(g, cs[k])))
  }

  /** The host and the commands issued between two steps. */
  datatype Mid = Mid(host: Host, issued: seq<Command>)

  /** The xrdp steps left g: each went through its plan up to its first failure. */
  ghost predicate XrdpRan(h: Host, cfg: Config, g: Host, outcomes: seq<Outcome>, before: seq<Command>, issued: seq<Command>, flaky: bool) {
    exists mid: Mid :: XrdpRanBy(h, cfg, g, outcomes, before, issued, flaky, mid)
  }

  ghost predicate XrdpRanBy(h: Host, cfg: Config, g: Host, outcomes: seq<Outcome>, before: seq<Command>, issued: seq<Command>, flaky: bool, mid: Mid) {
    var ported := if cfg.portDeclared then XrdpPortPlan(mid.host, LinuxPort(cfg)) else None;
    && outcomes != [] && Ran(h, XrdpPlan(h), mid.host, before, mid.issued, outcomes[0], flaky)
    && match ported
       case None => |outcomes| == 1 && g == mid.host && issued == mid.issued
       case Some(plan) => |outcomes| == 2 && Ran(mid.host, plan, g, mid.issued, issued, outcomes[1], flaky)
  }

  /** A whole run of setup left g, with commands failing anywhere where flaky: first
      are the outcomes of the xrdp steps, last that of the firewall step. */
  ghost predicate SetupRan(h: Host, cfg: Config, g: Host, first: seq<Outcome>, last: Outcome, before: seq<Command>, issued: seq<Command>, flaky: bool) {
    exists mid: Mid :: SetupRanBy(h, cfg, g, first, last, before, issued, flaky, mid)
  }

  ghost predicate SetupRanBy(h: Host, cfg: Config, g: Host, first: seq<Outcome>, last: Outcome, before: seq<Command>, issued: seq<Command>, flaky: bool, mid: Mid) {
    && XrdpRan(h, cfg, mid.host, first, before, mid.issued, flaky)
    && Ran(mid.host, FirewallPlan(mid.host, LinuxPort(cfg)), g, mid.issued, issued, last, flaky)
  }

  lemma RanToEnd(h: Host, plan: Plan, g: Host, before: seq<Command>, issued: seq<Command>, flaky: bool)
    requires AcceptsAll(h, plan.commands) && g == After(h, plan.commands) && issued == before + plan.commands
    ensures Ran(h, plan, g, before, issued, plan.outcome, flaky)
  {
    assert plan.commands[..|plan.commands|] == plan.commands;
    assert RanFor(h, plan, |plan.commands|, g, before, issued, plan.outcome, flaky);
  }

  lemma RanUpTo(h: Host, plan: Plan, k: nat, g: Host, before: seq<Command>, issued: seq<Command>, flaky: bool)
    requires k < |plan.commands| && AcceptsAll(h, plan.commands[..k]) && g == After(h, plan.commands[..k])
    requires issued == before + plan.commands[..k] + [plan.commands[k]] && (flaky || !Accepts(g, plan.commands[k]))
    ensures Ran(h, plan, g, before, issued, Failed, flaky)
  {
    assert plan.commands[..k] + [plan.commands[k]] == plan.commands[..k + 1];
    assert RanFor(h, plan, k, g, before, issued, Failed, flaky);
  }

  lemma RanNothing(h: Host, c: Command, cs: seq<Command>, done: Outcome, before: seq<Command>, flaky: bool)
    requires flaky || !Accepts(h, c)
    ensures Ran(h, Plan([c] + cs, done), h, before, before + [c], Failed, flaky)
  {
    var all := [c] + cs;
    assert all[..0] == [] && before + [] + [c] == before + [c];
    RanUpTo(h, Plan(all, done), 0, h, before, before + [c], flaky);
  }

  lemma RanAfterFirst(h: Host, c: Command, cs: seq<Command>, done: Outcome, g: Host, before: seq<Command>, issued: seq<Command>, outcome: Outcome, flaky: bool)
    requires Accepts(h, c) && Ran(Effect(h, c), Plan(cs, done), g, before + [c], issued, outcome, flaky)
    ensures Ran(h, Plan([c] + cs, done), g, before, issued, outcome, flaky)
  {
    var k :| 0 <= k <= |cs| && RanFor(Effect(h, c), Plan(cs, done), k, g, before + [c], issued, outcome, flaky);
    var all := [c] + cs;
    OneThenRest(h, c, cs[..k]);
    OneMoreIssued(c, cs, k, before);
    if k < |cs| {
      OneMoreIssued(c, cs, k + 1, before);
      assert all[k + 1] == cs[k];
    } else {
      assert cs[..k] == cs && all[..k + 1] == all;
    }
    assert RanFor(h, Plan(all, done), k + 1, g, before, issued, outcome, flaky);
  }

  lemma OneMoreIssued(c: Command, cs: seq<Command>, k: nat, before: seq<Command>)
    requires k <= |cs|
    ensures ([c] + cs)[..k + 1] == [c] + cs[..k]
    ensures before + [c] + cs[..k] == before + ([c] + cs)[..k + 1]
  {}

  lemma CarriedOneMore(h: Host, cs: seq<Command>, k: nat)
    requires k < |cs| && AcceptsAll(h, cs[..k]) && Accepts(After(h, cs[..k]), cs[k])
    ensures AcceptsAll(h, cs[..k + 1]) && After(h, cs[..k + 1]) == Effect(After(h, cs[..k]), cs[k])
  {
    assert cs[..k + 1] == cs[..k] + [cs[k]];
    OneCommand(After(h, cs[..k]), cs[k]);
    AfterOfConcat(h, cs[..k], [cs[k]]);
  }

  /** Where tools do what they accept, a step is its plan's run. */
  lemma RanIsRunPlan(h: Host, plan: Plan, g: Host, before: seq<Command>, issued: seq<Command>, outcome: Outcome)
    requires Ran(h, plan, g, before, issued, outcome, false)
    ensures before <= issued
    ensures RunPlan(h, plan) == Finish(g, [outcome], issued[|before|..])
  {
    var cs := plan.commands;
    var k :| 0 <= k <= |cs| && RanFor(h, plan, k, g, before, issued, outcome, false);
    CarriedPrefix(h, cs, k);
  }

  lemma {:induction false} CarriedPrefix(h: Host, cs: seq<Command>, k: nat)
    requires k <= |cs| && AcceptsAll(h, cs[..k]) && (k < |cs| ==> !Accepts(After(h, cs[..k]), cs[k]))
    ensures Carried(h, cs) == After(h, cs[..k])
    ensures Issued(h, cs) == cs[..if k < |cs| then k + 1 else k]
    ensures AcceptsAll(h, cs) <==> k == |cs|
    decreases k
  {
    if k > 0 {
      assert cs[..k][1..] == cs[1..][..k - 1];
      CarriedPrefix(Effect(h, cs[0]), cs[1..], k - 1);
    }
  }

  // --------------------------------------------- whole runs, reliable or not

  /** Where tools do what they accept, the xrdp steps are those of the specification. */
  lemma {:induction false} ReliableXrdp(h: Host, cfg: Config, g: Host, outcomes: seq<Outcome>, before: seq<Command>, issued: seq<Command>)
    requires XrdpRan(h, cfg, g, outcomes, before, issued, false)
    ensures Reached(SetupRun.XrdpSteps(h, cfg), g, outcomes, before, issued)
  {
    var mid: Mid :| XrdpRanBy(h, cfg, g, outcomes, before, issued, false, mid);
    RanIsRunPlan(h, XrdpPlan(h), mid.host, before, mid.issued, outcomes[0]);
    var service := RunPlan(h, XrdpPlan(h));
    if cfg.portDeclared && XrdpPortPlan(mid.host, LinuxPort(cfg)).Some? {
      var plan := XrdpPortPlan(mid.host, LinuxPort(cfg)).value;
      RanIsRunPlan(mid.host, plan, g, mid.issued, issued, outcomes[1]);
      OneAfterOther(service, mid.host, [outcomes[0]], before, mid.issued, RunPlan(mid.host, plan), g, [outcomes[1]], issued);
    } else {
      OneAfterOther(service, mid.host, [outcomes[0]], before, mid.issued, Untouched(g), g, [], issued);
      assert [outcomes[0]] + [] == outcomes;
    }
  }

  /** Where tools do what they accept, a whole run is that of the specification. */
  lemma ReliableSetup(h: Host, cfg: Config, g: Host, first: seq<Outcome>, last: Outcome, before: seq<Command>, issued: seq<Command>)
    requires SetupRan(h, cfg, g, first, last, before, issued, false)
    ensures Reached(SetupRun.SetupLinux(h, cfg), g, first + [last], before, issued)
  {
    var mid: Mid :| SetupRanBy(h, cfg, g, first, last, before, issued, false, mid);
    ReliableXrdp(h, cfg, mid.host, first, before, mid.issued);
    ReliableFirewall(h, cfg, mid, first, last, g, before, issued);
  }

  lemma ReliableFirewall(h: Host, cfg: Config, mid: Mid, first: seq<Outcome>, last: Outcome, g: Host, before: seq<Command>, issued: seq<Command>)
    requires Reached(SetupRun.XrdpSteps(h, cfg), mid.host, first, before, mid.issued)
    requires Ran(mid.host, FirewallPlan(mid.host, LinuxPort(cfg)), g, mid.issued, issued, last, false)
    ensures Reached(SetupRun.SetupLinux(h, cfg), g, first + [last], before, issued)
  {
    FirewallLast(SetupRun.XrdpSteps(h, cfg), FirewallPlan(mid.host, LinuxPort(cfg)), mid, first, before, g, last, issued);
    SetupIsThen(h, cfg, mid.host);
  }

  lemma FirewallLast(xrdp: Finish, plan: Plan, mid: Mid, first: seq<Outcome>, before: seq<Command>, g: Host, last: Outcome, issued: seq<Command>)
    requires Reached(xrdp, mid.host, first, before, mid.issued) && Ran(mid.host, plan, g, mid.issued, issued, last, false)
    ensures Reached(Then(xrdp, RunPlan(mid.host, plan)), g, first + [last], before, issued)
  {
    RanIsRunPlan(mid.host, plan, g, mid.issued, issued, last);
    OneAfterOther(xrdp, mid.host, first, before, mid.issued, RunPlan(mid.host, plan), g, [last], issued);
  }

  lemma SetupIsThen(h: Host, cfg: Config, mid: Host)
    requires SetupRun.XrdpSteps(h, cfg).host == mid
    ensures SetupRun.SetupLinux(h, cfg) == Then(SetupRun.XrdpSteps(h, cfg), RunPlan(mid, FirewallPlan(mid, LinuxPort(cfg))))
  {}

  /** The xrdp commands leave the firewall alone. */
  lemma {:induction false} AfterKeepsFirewall(h: Host, cs: seq<Command>)
    requires AcceptsAll(h, cs) && forall c | c in cs :: c.EnableXrdp? || c.RestartXrdp? || c.WriteIni?
    ensures SameFirewall(h, After(h, cs))
    decreases cs
  {
    if cs != [] {
      assert cs[0] in cs && forall c | c in cs[1..] :: c in cs;
      AfterKeepsFirewall(Effect(h, cs[0]), cs[1..]);
    }
  }

  lemma XrdpCommands(h: Host, port: Port)
    ensures forall c | c in XrdpPlan(h).commands :: c.EnableXrdp?
    ensures XrdpPortPlan(h, port).Some? ==> forall c | c in XrdpPortPlan(h, port).value.commands :: c.RestartXrdp? || c.WriteIni?
  {
    if XrdpPortPlan(h, port).Some? && XrdpPortPlan(h, port).value.commands != [] {
      PortPlanIsTwoCommands(h, port);
    }
  }

  lemma RanKeepsFirewall(h: Host, plan: Plan, g: Host, before: seq<Command>, issued: seq<Command>, outcome: Outcome, flaky: bool)
    requires Ran(h, plan, g, before, issued, outcome, flaky)
    requires forall c | c in plan.commands :: c.EnableXrdp? || c.RestartXrdp? || c.WriteIni?
    ensures SameFirewall(h, g)
  {
    var cs := plan.commands;
    var k :| 0 <= k <= |cs| && RanFor(h, plan, k, g, before, issued, outcome, flaky);
    assert forall c | c in cs[..k] :: c in cs;
    AfterKeepsFirewall(h, cs[..k]);
  }

  lemma XrdpRanKeepsFirewall(h: Host, cfg: Config, g: Host, outcomes: seq<Outcome>, before: seq<Command>, issued: seq<Command>, flaky: bool)
    requires XrdpRan(h, cfg, g, outcomes, before, issued, flaky)
    ensures SameFirewall(h, g)
  {
    var mid: Mid :| XrdpRanBy(h, cfg, g, outcomes, before, issued, flaky, mid);
    XrdpCommands(h, LinuxPort(cfg));
    XrdpCommands(mid.host, LinuxPort(cfg));
    RanKeepsFirewall(h, XrdpPlan(h), mid.host, before, mid.issued, outcomes[0], flaky);
    if cfg.portDeclared && XrdpPortPlan(mid.host, LinuxPort(cfg)).Some? {
      RanKeepsFirewall(mid.host, XrdpPortPlan(mid.host, LinuxPort(cfg)).value, g, mid.issued, issued, outcomes[1], flaky);
    }
  }

  lemma SameFirewallSameReplacement(h: Host, g: Host, port: Port)
    requires SameFirewall(h, g)
    ensures Replaces(g, port) == Replaces(h, port) && KeepsOpen(g, port) == KeepsOpen(h, port)
  {
    SameFirewallSameReads(h, g, port);
    assert BareWalk(g, port) == BareWalk(h, port);
  }

  lemma SameFirewallSameReads(h: Host, g: Host, port: Port)
    requires SameFirewall(h, g)
    ensures InputLines(g) == InputLines(h) && ChainOf(g) == ChainOf(h) && WellPrinted(g) == WellPrinted(h)
    ensures HostState.ReadIptables(g, port) == HostState.ReadIptables(h, port)
    ensures HostState.ReadFirewall(g, port) == HostState.ReadFirewall(h, port)
  {
    assert InputLines(g) == InputLines(h);
  }

  /** However many of the replacement's commands go through, failures included,
      the port stays open whenever KeepsOpen held before the first one. */
  lemma FailuresNeverClose(h: Host, g: Host, port: Port, before: seq<Command>, issued: seq<Command>, outcome: Outcome, flaky: bool)
    requires Replaces(h, port) && KeepsOpen(h, port)
    requires Ran(h, FirewallPlan(h, port), g, before, issued, outcome, flaky)
    ensures HostState.ReadFirewall(g, port).state == Present
  {
    var cs := FirewallPlan(h, port).commands;
    var k :| 0 <= k <= |cs| && RanFor(h, FirewallPlan(h, port), k, g, before, issued, outcome, flaky);
    ReplacementNeverCloses(h, port);
    assert PresentAfter(h, cs, k, port);
  }

  /** The same of a whole run: whichever commands of whichever steps fail, the port
      stays open. */
  lemma SetupNeverCloses(h: Host, cfg: Config, g: Host, first: seq<Outcome>, last: Outcome, before: seq<Command>, issued: seq<Command>, flaky: bool)
    requires Replaces(h, LinuxPort(cfg)) && KeepsOpen(h, LinuxPort(cfg))
    requires SetupRan(h, cfg, g, first, last, before, issued, flaky)
    ensures HostState.ReadFirewall(g, LinuxPort(cfg)).state == Present
  {
    var mid: Mid :| SetupRanBy(h, cfg, g, first, last, before, issued, flaky, mid);
    XrdpRanKeepsFirewall(h, cfg, mid.host, first, before, mid.issued, flaky);
    SameFirewallSameReplacement(h, mid.host, LinuxPort(cfg));
    FailuresNeverClose(mid.host, g, LinuxPort(cfg), mid.issued, issued, last, flaky);
  }

  /** Wherever a failed replacement stopped, running the firewall step again on
      tools that work ends where the whole replacement does: where a scoped rule was
      seen, or the one appended takes effect (exactly there, ReplacementIsResumable). */
  lemma FailedReplacementResumes(h: Host, g: Host, port: Port, before: seq<Command>, issued: seq<Command>, outcome: Outcome, flaky: bool)
    requires Replaces(h, port) && (ReadFirewall(h, port).scoped || AppendTakesEffect(h, port))
    requires Ran(h, FirewallPlan(h, port), g, before, issued, outcome, flaky)
    ensures Finishes(g, Replacement(h, port), port)
  {
    var cs := FirewallPlan(h, port).commands;
    var k :| 0 <= k <= |cs| && RanFor(h, FirewallPlan(h, port), k, g, before, issued, outcome, flaky);
    PrefixFinishes(h, port, k);
  }
}
