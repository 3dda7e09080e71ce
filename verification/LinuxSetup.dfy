/** The setup steps of a Linux host and the check that reads the same state. */
module LinuxSetup {
  import opened Text
  import opened IptDecide
  import opened IptLegacy
  import opened Ufw
  import opened HostState
  import XrdpIni

  datatype Outcome = AlreadyOk | Changed | Failed | Manual | Unverified

  /** What a setup step issues, and its outcome once every command succeeds. */
  datatype Plan = Plan(commands: seq<Command>, outcome: Outcome)

  datatype Config = Config(port: Port, portDeclared: bool)

  function LinuxPort(cfg: Config): Port {
    if cfg.port == 0 then XrdpIni.DEFAULT_RDP_PORT else cfg.port
  }

  // -------------------------------------------------------------------- xrdp

  predicate XrdpMet(x: XrdpState) {
    x.installed && x.undecided == "" && x.readable
  }

  function XrdpPlan(h: Host): Plan {
    var x := ReadXrdp(h);
    if !XrdpMet(x) then Plan([], Failed)
    else if x.enabled && x.active then Plan([], AlreadyOk)
    else if x.masked then Plan([], Failed)
    else Plan([EnableXrdp], Changed)
  }

  function XrdpCheck(h: Host): Outcome {
    var x := ReadXrdp(h);
    if !x.installed then Failed
    else if !XrdpMet(x) then Unverified
    else if x.enabled && x.active then AlreadyOk
    else if x.masked then Manual
    else Changed
  }

  // --------------------------------------------------------------- xrdp port

  /** The port step's outcome, None when it is not reported, and the listener. */
  function XrdpPortRead(h: Host, declared: Port): (Option<Outcome>, Option<XrdpIni.Listener>) {
    match h.ini
    case Missing => (if declared == XrdpIni.DEFAULT_RDP_PORT then None else Some(Failed), None)
    case Unreadable => (Some(Failed), None)
    case File(text) =>
      match XrdpIni.Read(text)
      case BadPort(_) => (Some(Failed), None)
      case Ok(l) =>
        if l.found.port == declared then (if declared == XrdpIni.DEFAULT_RDP_PORT then None else Some(AlreadyOk), Some(l))
        else if !XrdpIni.HasPlace(l) then (Some(Failed), Some(l))
        else (Some(Changed), Some(l))
  }

  /** The port step: None when it is not reported. */
  function XrdpPortPlan(h: Host, declared: Port): Option<Plan> {
    var (outcome, listener) := XrdpPortRead(h, declared);
    match outcome
    case None => None
    case Some(Changed) =>
      var l := listener.value;
      assert XrdpIni.InRange(l) by { XrdpIni.ReadIsInRange(h.ini.text); }
      Some(Plan([WriteIni(XrdpIni.WithPort(l, declared)), RestartXrdp], Changed))
    case Some(other) => Some(Plan([], other))
  }

  // ---------------------------------------------------------------- firewall

  /** The read is an inactive ufw's to report. */
  predicate InactiveUfwDecides(read: FirewallRead) {
    read.ufwInactive && read.state != Unknown && (read.state != Blocked || !read.decidedByIptables)
  }

  /** Whether setup adds ufw's allow on an inactive ufw. */
  predicate InactiveUfwAdds(read: FirewallRead) {
    read.state != Blocked && !read.ufwAllows && read.state != Present
  }

  /** An iptables host holds an unscoped allow for the port. */
  predicate HoldsLegacy(read: FirewallRead) {
    read.backend == BackendIptables && read.state == Present && (read.copies > 0 || |read.foreign| > 0)
  }

  function Repeat(c: Command, n: nat): (cs: seq<Command>)
    ensures |cs| == n && forall i | 0 <= i < n :: cs[i] == c
  {
    if n == 0 then [] else [c] + Repeat(c, n - 1)
  }

  /** The scoped rule first, then one delete per copy. */
  function LegacyCommands(read: FirewallRead, port: Port): seq<Command> {
    (if read.scoped then [] else [Iptables(ScopedRule(port))]) + Repeat(Iptables(DeleteCommand(port)), read.copies)
  }

  function PlanFor(read: FirewallRead, port: Port): Plan {
    if InactiveUfwDecides(read) then
      Plan(if InactiveUfwAdds(read) then [UfwAllow(AllowArgument(port))] else [], Manual)
    else
      match read.state
      case Present =>
        if HoldsLegacy(read) then Plan(LegacyCommands(read, port), if |read.foreign| > 0 then Manual else Changed)
        else if read.copies > 0 then Plan([], Manual)
        else Plan([], AlreadyOk)
      case Blocked => Plan([], Manual)
      case Unknown => Plan([], Failed)
      case Absent =>
        Plan([if read.backend == BackendUfw then UfwAllow(AllowArgument(port)) else Iptables(ScopedRule(port))], Changed)
  }

  function FirewallPlan(h: Host, port: Port): Plan {
    PlanFor(ReadFirewall(h, port), port)
  }

  function FirewallCheck(read: FirewallRead): Outcome {
    if read.state == Unknown then Unverified
    else if InactiveUfwDecides(read) then Manual
    else if read.state == Blocked then Manual
    else if HoldsLegacy(read) then if |read.foreign| > 0 then Manual else Changed
    else if read.copies > 0 then Manual
    else if read.state == Present then AlreadyOk
    else Changed
  }

  // -------------------------------------------------- setup and check agree

  /** Setup did what check announced. */
  predicate Agrees(setup: Outcome, check: Outcome) {
    match setup
    case AlreadyOk => check == AlreadyOk
    case Changed => check == Changed
    case Manual => check == Manual
    case Failed => check == Unverified
    case Unverified => false
  }

  /** An undecided walk saw every rule of INPUT, so INPUT holds no unscoped allow. */
  lemma UndecidedHoldsNoUnscoped(lines: seq<string>, chain: seq<string>, port: Port)
    requires !HasQualifiedJump(lines)
    requires Decide(Inline(lines, chain), port).state == Absent
    ensures forall line | line in lines :: !IsUnscoped(line, port)
  {
    forall line | line in lines
      ensures !IsUnscoped(line, port)
    {
      if IsUnscoped(line, port) {
        UnscopedAdmits(line, port);
        if TSInputJump(line) {
          JumpIsNoAccept(line);
        }
        InlineKeeps(lines, chain, line);
        DecidedByMember(Inline(lines, chain), line, port);
      }
    }
  }

  lemma {:induction false} InlineKeeps(lines: seq<string>, chain: seq<string>, line: string)
    requires line in lines && !TSInputJump(line)
    ensures line in Inline(lines, chain)
  {
    if lines[0] != line {
      InlineKeeps(lines[1..], chain, line);
    }
  }

  lemma {:induction false} BeforeNoJump(lines: seq<string>)
    requires !HasQualifiedJump(lines)
    ensures BeforeJump(lines) == lines
  {
    if lines != [] {
      assert lines[0] in lines;
      assert forall line | line in lines[1..] :: line in lines;
      BeforeNoJump(lines[1..]);
    }
  }

  /** The walk as an inlining, diverted or not. */
  lemma WalkedIsInline(lines: seq<string>, tsInput: Chain)
    requires Diverted(lines) ==> tsInput.ChainRules?
    ensures Walked(lines, tsInput) == Inline(BeforeJump(lines), if tsInput.ChainRules? then ChainLines(tsInput.rules) else [])
  {
    if !Diverted(lines) {
      InlineWithoutJump(BeforeJump(lines), if tsInput.ChainRules? then ChainLines(tsInput.rules) else []);
    }
  }

  lemma NoUnscopedNoTexts(lines: seq<string>, port: Port)
    requires forall line | line in lines :: !IsUnscoped(line, port)
    ensures Unscoped(lines, port) == [] && LegacyCopies(lines, port) == 0
  {
    UnscopedTexts(lines, port);
    if Unscoped(lines, port) != [] {
      assert Unscoped(lines, port)[0] in Unscoped(lines, port);
    }
    forall line | line in lines
      ensures !IsLegacy(line, port)
    {
      if IsLegacy(line, port) {
        LegacyLine(line, port);
      }
    }
    NoCopyCounted(lines, port);
  }

  /** A read that answers "absent" counts no copy and no foreign allow. */
  lemma AbsentIptablesHoldsNothing(h: Host, port: Port)
    requires ReadIptables(h, port).state == Absent
    ensures ReadIptables(h, port).copies == 0 && ReadIptables(h, port).foreign == []
    ensures !HasQualifiedJump(InputLines(h))
  {
    var lines := InputLines(h);
    WalkedIsInline(lines, h.tsInput);
    BeforeNoJump(lines);
    UndecidedHoldsNoUnscoped(lines, if h.tsInput.ChainRules? then ChainLines(h.tsInput.rules) else [], port);
    NoUnscopedNoTexts(lines, port);
  }

  lemma AbsentHoldsNoCopies(h: Host, port: Port)
    requires ReadFirewall(h, port).state == Absent
    ensures ReadFirewall(h, port).copies == 0
  {
    if h.hasIptables {
      AbsentIptablesHoldsNothing(h, port);
    }
  }

  /** Run as root on the same host, the firewall half of setup and check agree
      on every state ufw and iptables can be in. */
  lemma FirewallSetupAndCheckAgree(h: Host, port: Port)
    ensures Agrees(FirewallPlan(h, port).outcome, FirewallCheck(ReadFirewall(h, port)))
  {
    if ReadFirewall(h, port).state == Absent {
      AbsentHoldsNoCopies(h, port);
    }
  }

  /** The xrdp half agrees exactly on an installed unit systemd does not mask:
      check calls a missing xrdp failed too, and a masked one manual. */
  lemma XrdpSetupAndCheckAgree(h: Host)
    ensures Agrees(XrdpPlan(h).outcome, XrdpCheck(h)) <==> ReadXrdp(h).installed && !ReadXrdp(h).masked
  {}
}
