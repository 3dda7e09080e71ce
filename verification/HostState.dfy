/** The Linux host setup and check see through their Runner: what its tools
    answer, and what each command setup issues does to it. */
module HostState {
  import opened Text
  import opened IptRules
  import opened IptDecide
  import opened IptLegacy
  import opened Ufw
  import XrdpIni

  /** systemd's two answers about the xrdp unit as printed, or, without
      systemctl, whether the binary is on PATH. */
  datatype Systemd = NoSystemctl(xrdpOnPath: bool) | Systemctl(isEnabled: string, isActive: string)

  datatype IniFile = Missing | Unreadable | File(text: string)

  /** `iptables -S ts-input`: the chain's rules (its `-N` line included), iptables'
      own words for a chain that does not exist, or any other failure. */
  datatype Chain = NoChain | ChainUnread | ChainRules(rules: seq<string>)

  /** `nft list chain ip filter ts-input`. */
  datatype Nft = NoNft | NftNoChain | NftUnread | NftOutput(text: string)

  datatype Host = Host(
    elevated: bool,
    systemd: Systemd,
    ini: IniFile,
    hasUfw: bool,
    ufwStatus: Option<string>,         // `ufw status`, None when it fails
    ufwAdded: Option<seq<string>>,     // the lines of `ufw show added`
    hasIptables: bool,
    inputReadable: bool,
    input: seq<string>,                // INPUT, one text per rule as `iptables -S` prints it
    tsInput: Chain,
    nft: Nft)

  /** iptables prints each rule whole (IptRules.PrintedRuleIsWhole), and
      `-S ts-input` lists that chain's rules only. */
  predicate WellPrinted(h: Host) {
    && AllWhole(h.input)
    && (h.tsInput.ChainRules? ==> forall line | line in ChainLines(h.tsInput.rules) :: OwnLine(line))
  }

  predicate OwnLine(line: string) {
    |Fields(line)| >= 2 ==> Fields(line)[1] == TS_INPUT
  }

  // ---------------------------------------------------------------- commands

  /** A mutation issued through the Runner: Run, or WriteFile of xrdp.ini. */
  datatype Command =
    | EnableXrdp
    | RestartXrdp
    | WriteIni(text: string)
    | UfwAllow(argument: string)
    | Iptables(args: seq<string>)

  predicate Matches(rule: string, words: seq<string>) {
    Fields(Flat(rule)) == words
  }

  predicate Holds(rules: seq<string>, words: seq<string>) {
    exists rule | rule in rules :: Matches(rule, words)
  }

  /** `iptables -D`: the first rule that is exactly the given one. */
  function DeleteFirst(rules: seq<string>, words: seq<string>): (left: seq<string>)
    ensures forall rule | rule in left :: rule in rules
  {
    if rules == [] then []
    else if Matches(rules[0], words) then rules[1..]
    else [rules[0]] + DeleteFirst(rules[1..], words)
  }

  /** The rule a `-D` command names, as iptables lists it. */
  function DeletedWords(args: seq<string>): seq<string>
    requires args != [] && HasProtocol(["-A"] + args[1..])
  {
    Printed(["-A"] + args[1..])
  }

  predicate IsAppend(args: seq<string>) {
    |args| > 1 && args[0] == "-A" && args[1] == "INPUT" && HasProtocol(args)
  }

  predicate IsDelete(args: seq<string>) {
    |args| > 1 && args[0] == "-D" && args[1] == "INPUT" && HasProtocol(["-A"] + args[1..])
  }

  /** Whether the tool carries the command out on this host. */
  predicate Accepts(h: Host, c: Command) {
    match c
    case EnableXrdp => h.systemd.Systemctl? && TrimSpace(h.systemd.isEnabled) != "masked"
    case RestartXrdp => h.systemd.Systemctl? && TrimSpace(h.systemd.isEnabled) != "masked"
    case WriteIni(_) => h.ini.File?
    case UfwAllow(_) => h.hasUfw && h.ufwAdded.Some?
    case Iptables(args) => h.hasIptables && (IsAppend(args) || (IsDelete(args) && Holds(h.input, DeletedWords(args))))
  }

  /** `enable` leaves a unit with no [Install] section static. */
  function EnabledWord(isEnabled: string): string {
    if TrimSpace(isEnabled) == "static" then isEnabled else "enabled"
  }

  /** The line `ufw show added` lists for an allow. */
  function AddedLine(argument: string): string {
    Join(["ufw", "allow", argument], ' ')
  }

  function Effect(h: Host, c: Command): Host
    requires Accepts(h, c)
  {
    match c
    case EnableXrdp => h.(systemd := Systemctl(EnabledWord(h.systemd.isEnabled), "active"))
    case RestartXrdp => h.(systemd := h.systemd.(isActive := "active"))
    case WriteIni(text) => h.(ini := File(text))
    case UfwAllow(argument) =>
      // ufw skips a rule it already holds.
      var line := AddedLine(argument);
      if line in h.ufwAdded.value then h else h.(ufwAdded := Some(h.ufwAdded.value + [line]))
    case Iptables(args) =>
      if IsAppend(args) then h.(input := h.input + [Join(Printed(args), ' ')])
      else h.(input := DeleteFirst(h.input, DeletedWords(args)))
  }

  /** Every command of the list is carried out in turn. */
  predicate AcceptsAll(h: Host, cs: seq<Command>)
    decreases cs
  {
    cs == [] || (Accepts(h, cs[0]) && AcceptsAll(Effect(h, cs[0]), cs[1..]))
  }

  function After(h: Host, cs: seq<Command>): Host
    requires AcceptsAll(h, cs)
    decreases cs
  {
    if cs == [] then h else After(Effect(h, cs[0]), cs[1..])
  }

  lemma {:induction false} AfterOfConcat(h: Host, a: seq<Command>, b: seq<Command>)
    requires AcceptsAll(h, a)
    ensures AcceptsAll(h, a + b) <==> AcceptsAll(After(h, a), b)
    ensures AcceptsAll(h, a + b) ==> After(h, a + b) == After(After(h, a), b)
    decreases a
  {
    if a == [] {
      assert a + b == b;
    } else {
      assert (a + b)[1..] == a[1..] + b;
      AfterOfConcat(Effect(h, a[0]), a[1..], b);
    }
  }

  // ------------------------------------------------------------ firewall read

  datatype Backend = NoBackend | BackendUfw | BackendIptables

  /** One read of the firewall for a port. decidedByIptables: iptables' rules
      decided state on a ufw host. */
  datatype FirewallRead = FirewallRead(
    state: RuleState,
    backend: Backend,
    rule: string,
    copies: nat,
    foreign: seq<string>,
    scoped: bool,
    copiesAdmit: bool,
    decidedByIptables: bool,
    ufwInactive: bool,
    ufwAllows: bool)

  function UnknownRead(backend: Backend): FirewallRead {
    FirewallRead(Unknown, backend, "", 0, [], false, false, false, false, false)
  }

  /** INPUT, one rule per line. */
  function InputLines(h: Host): seq<string> {
    Split(Rules(Listing(h.input)), '\n')
  }

  /** The lines inlined for a jump: the chain's listing without its last newlines. */
  function ChainLines(rules: seq<string>): seq<string> {
    Split(TrimRightOf(Rules(Listing(rules)), {'\n'}), '\n')
  }

  predicate Diverted(lines: seq<string>) {
    exists line | line in BeforeJump(lines) :: TSInputJump(line)
  }

  /** The rules walked: INPUT up to the first qualified jump, ts-input inlined. */
  function Walked(lines: seq<string>, tsInput: Chain): seq<string>
    requires Diverted(lines) ==> tsInput.ChainRules?
  {
    if Diverted(lines) then Inline(BeforeJump(lines), ChainLines(tsInput.rules)) else BeforeJump(lines)
  }

  /** Whether ts-input exists where an INPUT without a jump to it hides it, or
      cannot be looked for. */
  predicate TSInputUnreached(h: Host) {
    match h.tsInput
    case ChainUnread => true
    case ChainRules(rules) => "-N ts-input" in Split(Rules(Listing(rules)), '\n') || TSInputInNft(h.nft)
    case NoChain => TSInputInNft(h.nft)
  }

  predicate TSInputInNft(nft: Nft) {
    match nft
    case NftUnread => true
    case NftOutput(text) => Contains(text, "chain ts-input")
    case NoNft => false
    case NftNoChain => false
  }

  function Foreign(texts: seq<string>, port: Port): seq<string> {
    if texts == [] then []
    else if IsLegacy(texts[0], port) then Foreign(texts[1..], port)
    else [texts[0]] + Foreign(texts[1..], port)
  }

  /** readIptables once both chains are read. */
  function DecidedRead(lines: seq<string>, walked: seq<string>, port: Port): FirewallRead {
    var a := Decide(walked, port);
    var unscoped := Unscoped(lines, port);
    var copies := LegacyCopies(lines, port);
    FirewallRead(a.state, BackendIptables, a.rule, copies, Foreign(unscoped, port),
                 a.state == Present && Covers(Rest(walked, unscoped), port),
                 a.state == Present && copies > 0 && !Covers(StripLegacy(walked, port), port),
                 false, false, false)
  }

  function ReadIptables(h: Host, port: Port): FirewallRead {
    var lines := InputLines(h);
    if !h.inputReadable || (Diverted(lines) && !h.tsInput.ChainRules?) then UnknownRead(BackendIptables)
    else
      var walked := Walked(lines, h.tsInput);
      var undecided := Decide(walked, port).state == Absent;
      if undecided && HasQualifiedJump(lines) then UnknownRead(BackendIptables)
      else if undecided && !Diverted(lines) && TSInputUnreached(h) then UnknownRead(BackendIptables)
      else DecidedRead(lines, walked, port)
  }

  /** The first line of `ufw status`: Some(active), or None when it says neither. */
  function UfwActive(status: Option<string>): Option<bool> {
    match status
    case None => None
    case Some(text) =>
      var (first, _, _) := Cut(TrimSpace(text), '\n');
      if TrimSpace(first) == "Status: active" then Some(true)
      else if TrimSpace(first) == "Status: inactive" then Some(false)
      else None
  }

  function ReadUfw(h: Host, port: Port): FirewallRead {
    var active := UfwActive(h.ufwStatus);
    var a := if active == None || h.ufwAdded == None then Answer(Unknown, "") else UfwDecide(h.ufwAdded.value, port);
    var read := UnknownRead(BackendUfw).(state := a.state, rule := a.rule, ufwInactive := active == Some(false), ufwAllows := a.state == Present);
    if !h.hasIptables then read
    else
      var ipt := ReadIptables(h, port);
      var counted := read.(copies := ipt.copies, copiesAdmit := ipt.copiesAdmit && a.state != Present);
      if a.state == Absent then counted.(state := ipt.state, rule := ipt.rule, decidedByIptables := true) else counted
  }

  function ReadFirewall(h: Host, port: Port): FirewallRead {
    if !h.elevated then UnknownRead(NoBackend)
    else if h.hasUfw then ReadUfw(h, port)
    else if !h.hasIptables then UnknownRead(NoBackend)
    else ReadIptables(h, port)
  }

  // ---------------------------------------------------------------- xrdp read

  datatype XrdpState = XrdpState(installed: bool, readable: bool, enabled: bool, active: bool, masked: bool, undecided: string)

  const NO_XRDP := XrdpState(false, false, false, false, false, "")

  function ReadXrdp(h: Host): XrdpState {
    match h.systemd
    case NoSystemctl(onPath) => NO_XRDP.(installed := onPath)
    case Systemctl(isEnabled, isActive) =>
      var e, a := TrimSpace(isEnabled), TrimSpace(isActive);
      if e == "not-found" then NO_XRDP
      else if e == "" || a == "" then NO_XRDP.(installed := true)
      else if e == "enabled" || e == "static" then XrdpState(true, true, true, a == "active", false, "")
      else if e == "masked" then XrdpState(true, true, false, a == "active", true, "")
      else if e == "disabled" || e == "enabled-runtime" then XrdpState(true, true, false, a == "active", false, "")
      else XrdpState(true, false, false, a == "active", false, e)
  }
}
