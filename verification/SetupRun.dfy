/** A whole run of setup and of check on one host: they agree step by step, and
    setup is idempotent. */
module SetupRun {
  import opened Text
  import opened IptDecide
  import opened IptLegacy
  import opened HostState
  import opened LinuxSetup
  import opened Converge
  import opened SecondRun
  import XrdpIni

  // ------------------------------------------------------------ the whole run

  /** A run of setup: the host it leaves, the outcome of each step reported and
      every command issued. A step stops at its first command that fails. */
  datatype Finish = Finish(host: Host, outcomes: seq<Outcome>, issued: seq<Command>)

  /** The commands of a plan that are issued: up to the first one that fails. */
  function Issued(h: Host, cs: seq<Command>): seq<Command>
    decreases cs
  {
    if cs == [] then []
    else if !Accepts(h, cs[0]) then [cs[0]]
    else [cs[0]] + Issued(Effect(h, cs[0]), cs[1..])
  }

  function Carried(h: Host, cs: seq<Command>): Host
    decreases cs
  {
    if cs == [] || !Accepts(h, cs[0]) then h else Carried(Effect(h, cs[0]), cs[1..])
  }

  function RunPlan(h: Host, plan: Plan): Finish {
    Finish(Carried(h, plan.commands), [if AcceptsAll(h, plan.commands) then plan.outcome else Failed], Issued(h, plan.commands))
  }

  function Then(r: Finish, next: Finish): Finish {
    Finish(next.host, r.outcomes + next.outcomes, r.issued + next.issued)
  }

  function Untouched(h: Host): Finish {
    Finish(h, [], [])
  }

  /** The service step, then the port step where a port is declared. */
  function XrdpSteps(h: Host, cfg: Config): Finish {
    var service := RunPlan(h, XrdpPlan(h));
    Then(service,
         if !cfg.portDeclared || XrdpPortPlan(service.host, LinuxPort(cfg)) == None then Untouched(service.host)
         else RunPlan(service.host, XrdpPortPlan(service.host, LinuxPort(cfg)).value))
  }

  /** setupLinux, on a host whose tools do what they accept. */
  function SetupLinux(h: Host, cfg: Config): Finish {
    var xrdp := XrdpSteps(h, cfg);
    Then(xrdp, RunPlan(xrdp.host, FirewallPlan(xrdp.host, LinuxPort(cfg))))
  }

  /** The firewall's state, which the xrdp steps do not touch. */
  predicate SameFirewall(h: Host, g: Host) {
    g == h.(systemd := g.systemd, ini := g.ini)
  }

  lemma SameFirewallSamePlan(h: Host, g: Host, port: Port)
    requires SameFirewall(h, g)
    ensures FirewallPlan(g, port) == FirewallPlan(h, port) && (WellPrinted(g) <==> WellPrinted(h))
    ensures Settles(g, port) == Settles(h, port)
  {
    assert InputLines(g) == InputLines(h);
    assert ReadFirewall(g, port) == ReadFirewall(h, port);
  }

  lemma {:induction false} FirewallCommandsKeepXrdp(h: Host, cs: seq<Command>)
    requires forall c | c in cs :: c.UfwAllow? || c.Iptables?
    ensures Carried(h, cs).systemd == h.systemd && Carried(h, cs).ini == h.ini
    decreases cs
  {
    if cs != [] && Accepts(h, cs[0]) {
      assert cs[0] in cs;
      assert forall c | c in cs[1..] :: c in cs;
      FirewallCommandsKeepXrdp(Effect(h, cs[0]), cs[1..]);
    }
  }

  lemma FirewallPlanCommands(h: Host, port: Port)
    ensures forall c | c in FirewallPlan(h, port).commands :: c.UfwAllow? || c.Iptables?
  {
    var read := ReadFirewall(h, port);
    var deletes := Repeat(Iptables(DeleteCommand(port)), read.copies);
    forall c | c in FirewallPlan(h, port).commands
      ensures c.UfwAllow? || c.Iptables?
    {
      if c in deletes {
        var i :| 0 <= i < |deletes| && deletes[i] == c;
      }
    }
  }

  lemma {:induction false} CarriedIsAfter(h: Host, cs: seq<Command>)
    requires AcceptsAll(h, cs)
    ensures Carried(h, cs) == After(h, cs)
    decreases cs
  {
    if cs != [] {
      CarriedIsAfter(Effect(h, cs[0]), cs[1..]);
    }
  }

  /** Enabling xrdp leaves the service step nothing to do. */
  lemma ServiceSecondRun(h: Host)
    ensures XrdpPlan(Carried(h, XrdpPlan(h).commands)).commands == []
    ensures SameFirewall(h, Carried(h, XrdpPlan(h).commands)) && Carried(h, XrdpPlan(h).commands).ini == h.ini
  {
    var cs := XrdpPlan(h).commands;
    if cs != [] {
      assert cs[1..] == [];
      assert Accepts(h, EnableXrdp);
      var g := Effect(h, EnableXrdp);
      TrimmedIsFixed("active");
      TrimmedIsFixed("enabled");
      assert Carried(h, cs) == g;
    }
  }

  /** A unit that is-enabled calls disabled while is-active answers nothing: the
      service step cannot read it, and a restart makes it readable. */
  predicate HiddenUnit(h: Host) {
    h.systemd.Systemctl? && TrimSpace(h.systemd.isActive) == "" && TrimSpace(h.systemd.isEnabled) in {"disabled", "enabled-runtime"}
  }

  lemma RestartKeepsService(h: Host)
    requires Accepts(h, RestartXrdp) && XrdpPlan(h).commands == []
    ensures XrdpPlan(Effect(h, RestartXrdp)).commands == [] <==> !HiddenUnit(h)
  {
    TrimmedIsFixed("active");
  }

  lemma PortPlanIsTwoCommands(h: Host, port: Port)
    requires XrdpPortPlan(h, port).Some? && XrdpPortPlan(h, port).value.commands != []
    ensures var cs := XrdpPortPlan(h, port).value.commands;
            |cs| == 2 && cs[0].WriteIni? && cs[1] == RestartXrdp && Accepts(h, cs[0])
  {}

  lemma WrittenPortIsRead(h: Host, g: Host, port: Port)
    requires XrdpPortPlan(h, port).Some? && XrdpPortPlan(h, port).value.commands != []
    requires XrdpPortPlan(h, port).value.commands[0].WriteIni?
    requires g.ini == File(XrdpPortPlan(h, port).value.commands[0].text)
    ensures XrdpPortPlan(g, port).Some? ==> XrdpPortPlan(g, port).value.commands == []
  {
    var l := XrdpPortRead(h, port).1.value;
    assert XrdpIni.Read(h.ini.text) == XrdpIni.Ok(l) && XrdpIni.HasPlace(l);
    XrdpIni.RewriteRoundTrip(h.ini.text, l, port);
    assert g.ini.text == XrdpIni.WithPort(l, port);
    MovedPortIsLeft(g, XrdpIni.Rewritten(l, port), port);
  }

  lemma MovedPortIsLeft(g: Host, l: XrdpIni.Listener, port: Port)
    requires g.ini.File? && XrdpIni.Read(g.ini.text) == XrdpIni.Ok(l) && l.found.port == port
    ensures XrdpPortPlan(g, port).Some? ==> XrdpPortPlan(g, port).value.commands == []
  {}

  lemma CarriedTwo(h: Host, c: Command, d: Command)
    requires Accepts(h, c)
    ensures Carried(h, [c, d]) == if Accepts(Effect(h, c), d) then Effect(Effect(h, c), d) else Effect(h, c)
  {
    var w := Effect(h, c);
    assert [c, d][1..] == [d] && [d][1..] == [];
    assert Carried(w, [d]) == if Accepts(w, d) then Effect(w, d) else w;
  }

  lemma WriteThenRestart(h: Host, write: Command)
    requires write.WriteIni? && Accepts(h, write) && XrdpPlan(h).commands == []
    ensures var g := Carried(h, [write, RestartXrdp]);
            && g.ini == File(write.text) && SameFirewall(h, g)
            && (XrdpPlan(g).commands == [] <==> !HiddenUnit(h))
  {
    var w := Effect(h, write);
    CarriedTwo(h, write, RestartXrdp);
    assert XrdpPlan(w) == XrdpPlan(h) && HiddenUnit(w) == HiddenUnit(h);
    if Accepts(w, RestartXrdp) {
      RestartKeepsService(w);
    }
  }

  /** Once written, the file lists the declared port, whether or not the restart
      succeeds. */
  lemma PortSecondRun(h: Host, port: Port)
    requires XrdpPortPlan(h, port).Some? && XrdpPlan(h).commands == []
    ensures var cs := XrdpPortPlan(h, port).value.commands;
            var g := Carried(h, cs);
            && (XrdpPortPlan(g, port).Some? ==> XrdpPortPlan(g, port).value.commands == [])
            && SameFirewall(h, g)
            && (XrdpPlan(g).commands == [] <==> cs == [] || !HiddenUnit(h))
  {
    var cs := XrdpPortPlan(h, port).value.commands;
    if cs != [] {
      PortPlanIsTwoCommands(h, port);
      WrittenPortIsRead(h, Carried(h, cs), port) by { WriteThenRestart(h, cs[0]); assert cs == [cs[0], RestartXrdp]; }
      WriteThenRestart(h, cs[0]);
      assert cs == [cs[0], RestartXrdp];
    }
  }

  /** The first run restarts a unit its service step could not read. */
  predicate RevealsUnit(h: Host, cfg: Config) {
    RewritesPort(h, cfg) && HiddenUnit(h)
  }

  /** The host after the xrdp steps. */
  function AfterXrdp(h: Host, cfg: Config): Host {
    var a := Carried(h, XrdpPlan(h).commands);
    if !cfg.portDeclared || XrdpPortPlan(a, LinuxPort(cfg)) == None then a
    else Carried(a, XrdpPortPlan(a, LinuxPort(cfg)).value.commands)
  }

  lemma PortPlanOfSameFile(h: Host, g: Host, port: Port)
    requires g.ini == h.ini
    ensures XrdpPortPlan(g, port) == XrdpPortPlan(h, port)
  {}

  lemma HiddenUnitStays(h: Host)
    ensures HiddenUnit(Carried(h, XrdpPlan(h).commands)) == HiddenUnit(h)
  {
    var cs := XrdpPlan(h).commands;
    if cs != [] {
      assert cs[1..] == [] && Accepts(h, EnableXrdp);
      TrimmedIsFixed("active");
      assert Carried(h, cs) == Effect(h, EnableXrdp);
    }
  }

  lemma XrdpSecondRun(h: Host, cfg: Config)
    ensures var b := AfterXrdp(h, cfg);
            && SameFirewall(h, b)
            && (XrdpPlan(b).commands == [] <==> !RevealsUnit(h, cfg))
            && (cfg.portDeclared && XrdpPortPlan(b, LinuxPort(cfg)).Some? ==>
                  XrdpPortPlan(b, LinuxPort(cfg)).value.commands == [])
  {
    var port := LinuxPort(cfg);
    var a := Carried(h, XrdpPlan(h).commands);
    ServiceSecondRun(h);
    HiddenUnitStays(h);
    PortPlanOfSameFile(h, a, port);
    if cfg.portDeclared && XrdpPortPlan(a, port).Some? {
      PortSecondRun(a, port);
    }
  }

  /** Setup is idempotent, over every combination of systemd, xrdp.ini, ufw and
      iptables state: a second run issues no Run and no WriteFile exactly when
      the firewall's Settles held before the first one and the first one did not
      reveal a unit it could not read. */
  lemma SetupIsIdempotent(h: Host, cfg: Config)
    requires WellPrinted(h)
    ensures SetupLinux(SetupLinux(h, cfg).host, cfg).issued == [] <==> Settles(h, LinuxPort(cfg)) && !RevealsUnit(h, cfg)
  {
    var port, b := LinuxPort(cfg), AfterXrdp(h, cfg);
    XrdpSecondRun(h, cfg);
    SameFirewallSamePlan(h, b, port);
    FirewallSecondRun(b, port);
    CarriedIsAfter(b, FirewallPlan(b, port).commands);
    FirewallPlanCommands(b, port);
    FirewallCommandsKeepXrdp(b, FirewallPlan(b, port).commands);
    LastStepKeepsXrdp(b, SetupLinux(h, cfg).host, cfg);
  }

  /** The firewall step leaves xrdp's part of a second run as it was. */
  lemma LastStepKeepsXrdp(b: Host, c: Host, cfg: Config)
    requires c.systemd == b.systemd && c.ini == b.ini
    requires cfg.portDeclared && XrdpPortPlan(b, LinuxPort(cfg)).Some? ==> XrdpPortPlan(b, LinuxPort(cfg)).value.commands == []
    ensures SetupLinux(c, cfg).issued == [] <==> XrdpPlan(b).commands == [] && FirewallPlan(c, LinuxPort(cfg)).commands == []
  {
    assert XrdpPlan(c) == XrdpPlan(b);
    PortPlanOfSameFile(b, c, LinuxPort(cfg));
    IssuedIsEmpty(c, XrdpPlan(c).commands);
    if XrdpPlan(c).commands == [] {
      UntouchedSetup(c, cfg);
    }
  }

  /** Where the xrdp steps issue nothing, setup issues the firewall's commands. */
  lemma UntouchedSetup(h: Host, cfg: Config)
    requires XrdpPlan(h).commands == []
    requires cfg.portDeclared && XrdpPortPlan(h, LinuxPort(cfg)).Some? ==> XrdpPortPlan(h, LinuxPort(cfg)).value.commands == []
    ensures SetupLinux(h, cfg).issued == Issued(h, FirewallPlan(h, LinuxPort(cfg)).commands)
  {
    assert XrdpSteps(h, cfg).host == h && XrdpSteps(h, cfg).issued == [];
  }

  lemma IssuedIsEmpty(h: Host, cs: seq<Command>)
    ensures Issued(h, cs) == [] <==> cs == []
  {}

  // ------------------------------------------------------------ setup and check

  /** The steps checkLinux reports, in order. */
  function CheckLinux(h: Host, cfg: Config): seq<Outcome> {
    var port := LinuxPort(cfg);
    [XrdpCheck(h)]
    + (if cfg.portDeclared && XrdpPortRead(h, port).0.Some? then [XrdpPortRead(h, port).0.value] else [])
    + [FirewallCheck(ReadFirewall(h, port))]
  }

  /** Every step check reports is one setup reports: the service and firewall
      steps agree, and the port step reads the same file and says the same. */
  predicate RunAgrees(setup: seq<Outcome>, check: seq<Outcome>) {
    && |setup| == |check| >= 2
    && Agrees(setup[0], check[0])
    && Agrees(setup[|setup| - 1], check[|check| - 1])
    && setup[1..|setup| - 1] == check[1..|check| - 1]
  }

  /** systemctl restarts xrdp. */
  predicate RestartGoesThrough(h: Host) {
    h.systemd.Systemctl? && TrimSpace(h.systemd.isEnabled) != "masked"
  }

  /** The port step writes xrdp.ini and restarts. */
  predicate RewritesPort(h: Host, cfg: Config) {
    var plan := XrdpPortPlan(h, LinuxPort(cfg));
    cfg.portDeclared && plan.Some? && plan.value.commands != []
  }

  lemma XrdpPlanAccepted(h: Host)
    ensures AcceptsAll(h, XrdpPlan(h).commands)
  {
    var cs := XrdpPlan(h).commands;
    if cs != [] {
      assert cs[1..] == [] && Accepts(h, EnableXrdp);
    }
  }

  lemma PortPlanAccepted(h: Host, port: Port)
    requires XrdpPortPlan(h, port).Some?
    ensures var cs := XrdpPortPlan(h, port).value.commands;
            AcceptsAll(h, cs) <==> cs == [] || RestartGoesThrough(h)
  {
    var cs := XrdpPortPlan(h, port).value.commands;
    if cs != [] {
      PortPlanIsTwoCommands(h, port);
      assert cs == [cs[0], RestartXrdp];
      TwoAccepted(h, cs[0], RestartXrdp);
      assert Accepts(Effect(h, cs[0]), RestartXrdp) == RestartGoesThrough(h);
    }
  }

  lemma TwoAccepted(h: Host, c: Command, d: Command)
    ensures AcceptsAll(h, [c, d]) <==> Accepts(h, c) && Accepts(Effect(h, c), d)
  {
    assert [c, d][1..] == [d] && [d][1..] == [];
    if Accepts(h, c) {
      assert AcceptsAll(Effect(h, c), [d]) == Accepts(Effect(h, c), d);
    }
  }

  lemma PortPlanOutcome(h: Host, port: Port)
    ensures XrdpPortPlan(h, port).Some? == XrdpPortRead(h, port).0.Some?
    ensures XrdpPortPlan(h, port).Some? ==>
              && XrdpPortPlan(h, port).value.outcome == XrdpPortRead(h, port).0.value
              && (XrdpPortPlan(h, port).value.commands != [] <==> XrdpPortRead(h, port).0 == Some(Changed))
  {}

  lemma ServiceKeepsRestart(h: Host)
    ensures RestartGoesThrough(Carried(h, XrdpPlan(h).commands)) == RestartGoesThrough(h)
  {
    var cs := XrdpPlan(h).commands;
    if cs != [] {
      assert cs[1..] == [] && Accepts(h, EnableXrdp);
      TrimmedIsFixed("enabled");
      assert Carried(h, cs) == Effect(h, EnableXrdp);
    }
  }

  /** What the port step reports: what its read says, or Failed once the restart
      does not go through. */
  function PortOutcomes(h: Host, cfg: Config): seq<Outcome> {
    var read := XrdpPortRead(h, LinuxPort(cfg)).0;
    if !cfg.portDeclared || read == None then []
    else if read == Some(Changed) && !RestartGoesThrough(h) then [Failed]
    else [read.value]
  }

  lemma SetupAfterXrdp(h: Host, cfg: Config)
    ensures var port, b := LinuxPort(cfg), AfterXrdp(h, cfg);
            SetupLinux(h, cfg).outcomes
            == [XrdpPlan(h).outcome] + PortOutcomes(h, cfg) + RunPlan(b, FirewallPlan(b, port)).outcomes
  {
    var port := LinuxPort(cfg);
    var a := Carried(h, XrdpPlan(h).commands);
    XrdpPlanAccepted(h);
    ServiceSecondRun(h);
    ServiceKeepsRestart(h);
    PortPlanOfSameFile(h, a, port);
    PortPlanOutcome(h, port);
    if cfg.portDeclared && XrdpPortPlan(a, port).Some? {
      PortPlanAccepted(a, port);
    }
  }

  /** Setup does what check announces, exactly on a host with an unmasked xrdp
      unit whose restart goes through where one is planned: check ok iff setup
      ok, changed iff changed, manual iff manual, unverified iff failed. */
  lemma SetupAndCheckAgree(h: Host, cfg: Config)
    requires WellPrinted(h)
    ensures RunAgrees(SetupLinux(h, cfg).outcomes, CheckLinux(h, cfg)) <==>
              ReadXrdp(h).installed && !ReadXrdp(h).masked && (RewritesPort(h, cfg) ==> RestartGoesThrough(h))
  {
    var port, b := LinuxPort(cfg), AfterXrdp(h, cfg);
    SetupAfterXrdp(h, cfg);
    XrdpSetupAndCheckAgree(h);
    XrdpSecondRun(h, cfg);
    SameFirewallSamePlan(h, b, port);
    FirewallSecondRun(b, port);
    FirewallSetupAndCheckAgree(h, port);
    PortPlanOutcome(h, port);
    assert RunPlan(b, FirewallPlan(b, port)).outcomes == [FirewallPlan(h, port).outcome];
    OutcomesAgree(XrdpPlan(h).outcome, PortOutcomes(h, cfg), FirewallPlan(h, port).outcome,
                  XrdpCheck(h), if cfg.portDeclared && XrdpPortRead(h, port).0.Some? then [XrdpPortRead(h, port).0.value] else [],
                  FirewallCheck(ReadFirewall(h, port)));
  }

  lemma OutcomesAgree(first: Outcome, middle: seq<Outcome>, last: Outcome, first': Outcome, middle': seq<Outcome>, last': Outcome)
    ensures RunAgrees([first] + middle + [last], [first'] + middle' + [last'])
       <==> Agrees(first, first') && middle == middle' && Agrees(last, last')
  {
    var setup, check := [first] + middle + [last], [first'] + middle' + [last'];
    assert setup[1..|setup| - 1] == middle && check[1..|check| - 1] == middle';
  }
}
