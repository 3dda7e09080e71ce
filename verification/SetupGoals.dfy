/** What setup is for: what each of its steps does on which answers of the host,
    and that the step's goal holds once its commands are carried out. */
module SetupGoals {
  import opened Text
  import opened IptRules
  import opened IptDecide
  import opened IptLegacy
  import opened Ufw
  import opened UfwPrinted
  import opened HostState
  import opened LinuxSetup
  import opened Converge
  import opened SecondRun

  // ------------------------------------------------------------------- service

  /** systemd's words, as it prints them. */
  predicate Answers(h: Host, enabled: string, active: string) {
    h.systemd.Systemctl? && TrimSpace(h.systemd.isEnabled) == enabled && TrimSpace(h.systemd.isActive) == active
  }

  predicate StartsAtBoot(enabled: string) {
    enabled == "enabled" || enabled == "static"
  }

  predicate CanBeEnabled(enabled: string) {
    enabled == "disabled" || enabled == "enabled-runtime"
  }

  /** A unit that will not start at boot, or is not running, and that systemd
      would start. */
  predicate NeedsEnabling(enabled: string, active: string) {
    active != "" && (CanBeEnabled(enabled) || (StartsAtBoot(enabled) && active != "active"))
  }

  /** Setup enables a unit exactly where it does not start at boot or does not
      run, is done exactly where it does both, and fails on any other answer. */
  lemma ServiceByAnswers(h: Host, enabled: string, active: string)
    requires Answers(h, enabled, active)
    ensures XrdpPlan(h)
         == if StartsAtBoot(enabled) && active == "active" then Plan([], AlreadyOk)
            else if NeedsEnabling(enabled, active) then Plan([EnableXrdp], Changed)
            else Plan([], Failed)
  {}

  /** Check says the same, tells a masked unit from a missing one, and an answer
      it cannot interpret from both. */
  lemma ServiceCheckByAnswers(h: Host, enabled: string, active: string)
    requires Answers(h, enabled, active)
    ensures XrdpCheck(h)
         == if enabled == "not-found" then Failed
            else if StartsAtBoot(enabled) && active == "active" then AlreadyOk
            else if NeedsEnabling(enabled, active) then Changed
            else if enabled == "masked" && active != "" then Manual
            else Unverified
  {}

  lemma NoSystemdNoService(h: Host)
    requires h.systemd.NoSystemctl?
    ensures XrdpPlan(h) == Plan([], Failed)
    ensures XrdpCheck(h) == if h.systemd.xrdpOnPath then Unverified else Failed
  {}

  /** Once enabled, the unit starts at boot and runs. */
  lemma EnabledServiceIsOk(h: Host)
    requires EnableXrdp in XrdpPlan(h).commands
    ensures XrdpPlan(h).commands == [EnableXrdp] && Accepts(h, EnableXrdp)
    ensures var s := Effect(h, EnableXrdp).systemd; StartsAtBoot(TrimSpace(s.isEnabled)) && s.isActive == "active"
    ensures XrdpPlan(Effect(h, EnableXrdp)) == Plan([], AlreadyOk)
  {
    TrimmedIsFixed("active");
    TrimmedIsFixed("enabled");
  }

  // ---------------------------------------------------------------- xrdp's port

  /** The port step, by what the file says: left alone where it lists the declared
      port, rewritten so that it does where it lists another one and has a place
      for it, and failed on every other file. */
  lemma PortStepMeans(h: Host, declared: Port)
    ensures match XrdpPortPlan(h, declared)
            case None =>
              declared == 3389 && (h.ini.Missing? || (h.ini.File? && ListsPort(h.ini.text, declared)))
            case Some(plan) =>
              match plan.outcome
              case AlreadyOk => plan.commands == [] && h.ini.File? && ListsPort(h.ini.text, declared) && declared != 3389
              case Changed =>
                && h.ini.File? && ListsAnother(h.ini.text, declared)
                && |plan.commands| == 2 && plan.commands[0].WriteIni? && plan.commands[1] == RestartXrdp
                && ListsPort(plan.commands[0].text, declared)
              case Failed =>
                && plan.commands == []
                && (h.ini.Unreadable? || (h.ini.Missing? && declared != 3389) || (h.ini.File? && !ListsPort(h.ini.text, declared)))
              case _ => false
  {
    if h.ini.File? && XrdpIni.Read(h.ini.text).Ok? {
      var l := XrdpIni.Read(h.ini.text).value;
      XrdpIni.ReadIsInRange(h.ini.text);
      if XrdpIni.HasPlace(l) {
        XrdpIni.RewriteRoundTrip(h.ini.text, l, declared);
      }
    }
  }

  predicate ListsPort(text: string, port: Port) {
    XrdpIni.Read(text).Ok? && XrdpIni.Read(text).value.found.port == port
  }

  predicate ListsAnother(text: string, port: Port) {
    XrdpIni.Read(text).Ok? && XrdpIni.Read(text).value.found.port != port
  }

  // ----------------------------------------------------------------------- ufw

  lemma {:induction false} TrimRightOfConcat(a: string, b: string)
    ensures TrimRightSpace(a + b) == if TrimRightSpace(b) == "" then TrimRightSpace(a) else a + TrimRightSpace(b)
    decreases |b|
  {
    if b == "" {
      assert a + b == a;
    } else if IsSpace(b[|b| - 1]) {
      assert (a + b)[..|a + b| - 1] == a + b[..|b| - 1];
      TrimRightOfConcat(a, b[..|b| - 1]);
    }
  }

  lemma {:induction false} TrimRightIsPrefix(s: string)
    ensures TrimRightSpace(s) <= s
  {
    if s != "" && IsSpace(s[|s| - 1]) {
      TrimRightIsPrefix(s[..|s| - 1]);
    }
  }

  /** Whatever follows it, the first line of `ufw status` decides. */
  lemma FirstLineDecides(first: string, rest: string)
    requires first != "" && '\n' !in first && Trimmed(first)
    ensures UfwActive(Some(first + "\n" + rest))
         == if first == "Status: active" then Some(true) else if first == "Status: inactive" then Some(false) else None
  {
    var tail := "\n" + rest;
    var cut := TrimRightSpace(tail);
    assert first + "\n" + rest == first + tail;
    assert TrimLeftSpace(first + tail) == first + tail;
    TrimRightOfConcat(first, tail);
    TrimRightIsPrefix(tail);
    TrimmedIsFixed(first);
    if cut == "" {
      SplitOfOnePart(first, '\n');
    } else {
      assert cut == ['\n'] + cut[1..];
      CutAtFirst(first, cut[1..], '\n');
      assert first + ['\n'] + cut[1..] == first + cut;
    }
  }

  /** ufw's own rules decide first, and iptables' where none of them does. */
  lemma UfwThenIptables(h: Host, rules: seq<UfwRule>, port: Port)
    requires h.elevated && h.hasUfw && UfwActive(h.ufwStatus).Some?
    requires (forall r | r in rules :: UfwPrinted.WellFormed(r)) && h.ufwAdded == Some(UfwTexts(rules))
    ensures var state := ReadFirewall(h, port).state;
            || (exists i: nat | i < |rules| :: DecidesFirst(UfwAnswers(rules, port), i) && state == UfwSays(rules[i], port))
            || ((forall r | r in rules :: UfwSays(r, port) == Absent)
                && state == if h.hasIptables then ReadIptables(h, port).state else Absent)
  {
    AddedRulesDecide(rules, port);
    var answers := UfwAnswers(rules, port);
    var a := UfwDecide(h.ufwAdded.value, port);
    if i: nat :| i < |answers| && DecidesFirst(answers, i) && a == answers[i] {
      assert ReadFirewall(h, port).state == UfwSays(rules[i], port);
    } else {
      forall r | r in rules
        ensures UfwSays(r, port) == Absent
      {
        var i :| 0 <= i < |rules| && rules[i] == r;
        assert answers[i].state == Absent;
      }
    }
  }

  /** ufw that cannot be read leaves the port unknown, whatever iptables holds. */
  lemma UnreadUfwIsUnknown(h: Host, port: Port)
    requires h.elevated && h.hasUfw && (UfwActive(h.ufwStatus) == None || h.ufwAdded == None)
    ensures ReadFirewall(h, port).state == Unknown && FirewallPlan(h, port) == Plan([], Failed)
  {}

  // ------------------------------------------------------------------ firewall

  /** Every outcome of the firewall step, by what was read. */
  lemma FirewallOutcomes(h: Host, port: Port)
    ensures var read, outcome := ReadFirewall(h, port), FirewallPlan(h, port).outcome;
            && (outcome == Failed <==> read.state == Unknown)
            && (outcome == AlreadyOk <==> read.state == Present && read.copies == 0 && read.foreign == [] && !read.ufwInactive)
            && (outcome == Changed <==>
                  !read.ufwInactive
                  && (read.state == Absent || (read.state == Present && !h.hasUfw && read.copies > 0 && read.foreign == [])))
            && (outcome == Manual <==> outcome !in {Failed, AlreadyOk, Changed})
  {
    if ReadFirewall(h, port).state == Absent {
      AbsentHoldsNoCopies(h, port);
    }
  }

  /** The firewall is touched only where nothing decides the port, or where
      iptables holds an unscoped allow that setup can replace or must shadow. */
  lemma FirewallTouched(h: Host, port: Port)
    ensures var read, cs := ReadFirewall(h, port), FirewallPlan(h, port).commands;
            cs == [] <==>
              && read.state != Absent
              && (read.state == Present && !h.hasUfw ==> read.copies == 0 && (read.foreign == [] || read.scoped))
  {
    if ReadFirewall(h, port).state == Absent {
      AbsentHoldsNoCopies(h, port);
    }
  }

  /** Where nothing decides the port, setup issues one command, and after it the
      port reads present. */
  lemma SetupOpensThePort(h: Host, port: Port)
    requires WellPrinted(h) && ReadFirewall(h, port).state == Absent
    ensures FirewallPlan(h, port).commands
         == [if h.hasUfw then UfwAllow(Itoa(port) + "/tcp")
             else Iptables(["-A", "INPUT", "-i", "tailscale0", "-p", "tcp", "--dport", Itoa(port), "-j", "ACCEPT"])]
    ensures AcceptsAll(h, FirewallPlan(h, port).commands)
    ensures var read := ReadFirewall(After(h, FirewallPlan(h, port).commands), port);
            && read.state == Present && read.copies == 0 && read.foreign == []
            && read.ufwInactive == ReadFirewall(h, port).ufwInactive
  {
    if h.hasUfw {
      UfwOpens(h, port);
      OneCommand(h, UfwAllow(AllowArgument(port)));
    } else {
      IptablesOpens(h, port);
      OneCommand(h, Iptables(ScopedRule(port)));
    }
  }

  lemma UfwOpens(h: Host, port: Port)
    requires h.elevated && h.hasUfw && ReadFirewall(h, port).state == Absent
    ensures Accepts(h, UfwAllow(AllowArgument(port)))
    ensures var read := ReadFirewall(Effect(h, UfwAllow(AllowArgument(port))), port);
            && read.state == Present && read.copies == 0 && read.foreign == []
            && read.ufwInactive == ReadFirewall(h, port).ufwInactive
  {
    var line := AddedLine(AllowArgument(port));
    assert line == AllowLine(port);
    AllowLineAdmits(port);
    UfwDecideOfConcat(h.ufwAdded.value, [line], port);
    assert UfwDecide([line], port).state == Present;
    if line in h.ufwAdded.value {
      UfwDecidedByMember(h.ufwAdded.value, line, port);
    }
    AbsentHoldsNoCopies(h, port);
    SameIptables(h, Effect(h, UfwAllow(AllowArgument(port))), port);
  }

  lemma SameIptables(h: Host, g: Host, port: Port)
    requires g == h.(ufwAdded := g.ufwAdded)
    ensures ReadIptables(g, port) == ReadIptables(h, port)
  {
    assert InputLines(g) == InputLines(h);
    assert TSInputUnreached(g) == TSInputUnreached(h);
  }

  lemma IptablesOpens(h: Host, port: Port)
    requires WellPrinted(h) && h.elevated && !h.hasUfw && h.hasIptables && ReadFirewall(h, port).state == Absent
    ensures Accepts(h, Iptables(ScopedRule(port)))
    ensures var read := ReadFirewall(Effect(h, Iptables(ScopedRule(port))), port);
            && read.state == Present && read.copies == 0 && read.foreign == [] && !read.ufwInactive
  {
    AppendStage(h, port);
    var g := Effect(h, Iptables(ScopedRule(port)));
    AbsentIptablesHoldsNothing(h, port);
    LinesOf(h, port);
    LinesOf(g, port);
    AppendDecides(h, g, port);
    NothingForeign(h, g, port);
  }

  /** A read setup leaves as it is. */
  predicate IsOk(read: FirewallRead) {
    read.state == Present && read.copies == 0 && read.foreign == [] && !read.ufwInactive
  }

  /** Where setup reports that it changed the firewall, it has nothing left to do
      afterwards, provided a replacement keeps the port open. */
  lemma ChangedIsOk(h: Host, port: Port)
    requires WellPrinted(h) && FirewallPlan(h, port).outcome == Changed
    requires Replaces(h, port) ==> KeepsOpen(h, port)
    ensures AcceptsAll(h, FirewallPlan(h, port).commands)
    ensures FirewallPlan(After(h, FirewallPlan(h, port).commands), port) == Plan([], AlreadyOk)
  {
    FirewallOutcomes(h, port);
    if ReadFirewall(h, port).state == Absent {
      SetupOpensThePort(h, port);
    } else {
      ReplacedIsOk(h, port);
    }
    OkIsLeft(After(h, FirewallPlan(h, port).commands), port);
  }

  lemma OkIsLeft(h: Host, port: Port)
    requires IsOk(ReadFirewall(h, port))
    ensures FirewallPlan(h, port) == Plan([], AlreadyOk)
  {}

  lemma ReplacedIsOk(h: Host, port: Port)
    requires Replaces(h, port) && KeepsOpen(h, port) && ReadFirewall(h, port).foreign == []
    requires !ReadFirewall(h, port).ufwInactive
    ensures AcceptsAll(h, FirewallPlan(h, port).commands)
    ensures IsOk(ReadFirewall(After(h, FirewallPlan(h, port).commands), port))
  {
    var read := ReadFirewall(h, port);
    var cs := LegacyCommands(read, port);
    PresentIsCovered(h, port);
    LinesOf(h, port);
    ReplacementLeaves(h, port);
    ReplacementPrefix(h, port, |cs|);
    ReplacementStage(h, read, port, |cs|);
    assert cs[..|cs|] == cs;
    if |cs| == 0 {
      StageStart(h, port);
    }
    var g := After(h, cs);
    StageIsReplaced(h, g, !read.scoped, 0, port);
    SameForeign(InputLines(h), InputLines(g), port);
    PresentIsCovered(g, port);
  }
}
