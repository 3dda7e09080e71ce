/** Where a second run of setup does not settle: hosts to which every run appends
    another rule, and a host whose first run shows it more to do. */
module Repeating {
  import opened Text
  import opened IptRules
  import opened IptDecide
  import opened IptLegacy
  import opened HostState
  import opened LinuxSetup
  import opened Converge
  import opened SecondRun
  import opened SetupRun
  import opened Closing
  import XrdpIni

  function ScopedLines(port: Port, n: nat): seq<string> {
    seq(n, _ => ScopedLine(port))
  }

  /** h with n scoped rules appended. */
  function WithScoped(h: Host, port: Port, n: nat): Host {
    h.(input := h.input + ScopedLines(port, n))
  }

  predicate OnIptables(h: Host) {
    WellPrinted(h) && h.elevated && !h.hasUfw && h.hasIptables && h.inputReadable
  }

  /** What the walk over lines answers when only a foreign allow keeps the port open. */
  predicate HangsOnForeign(lines: seq<string>, chain: seq<string>, port: Port) {
    var walk := Inline(BeforeJump(lines), chain);
    && !Diverted(lines) && Covers(walk, port) && !Covers(Rest(walk, Unscoped(lines, port)), port)
    && LegacyCopies(lines, port) == 0 && Foreign(Unscoped(lines, port), port) != []
  }

  /** However many scoped rules are appended, a foreign allow alone keeps the port open. */
  ghost predicate StaysForeign(h: Host, port: Port) {
    forall n: nat :: HangsOnForeign(InputLines(WithScoped(h, port, n)), ChainOf(h), port)
  }

  // ---------------------------------------------------------- one more each run

  lemma ForeignRead(h: Host, port: Port)
    requires h.inputReadable && HangsOnForeign(InputLines(h), ChainOf(h), port)
    ensures var read := ReadIptables(h, port);
            read.state == Present && read.copies == 0 && read.foreign != [] && !read.scoped
  {
    PresentIsCovered(h, port);
  }

  lemma WithScopedIsPrinted(h: Host, port: Port, n: nat)
    requires OnIptables(h)
    ensures OnIptables(WithScoped(h, port, n))
    ensures WithScoped(h, port, n + 1).input == WithScoped(h, port, n).input + [ScopedLine(port)]
  {
    ScopedLineIsFlat(port);
    assert ScopedLines(port, n + 1) == ScopedLines(port, n) + [ScopedLine(port)];
  }

  lemma ForeignPlan(h: Host, port: Port)
    requires OnIptables(h) && HangsOnForeign(InputLines(h), ChainOf(h), port)
    ensures FirewallPlan(h, port).commands == [Iptables(ScopedRule(port))]
  {
    ForeignRead(h, port);
    NoDeletes(ReadFirewall(h, port), port);
  }

  lemma NoDeletes(read: FirewallRead, port: Port)
    requires read.copies == 0 && !read.scoped
    ensures LegacyCommands(read, port) == [Iptables(ScopedRule(port))]
  {
    assert Repeat(Iptables(DeleteCommand(port)), 0) == [];
  }

  /** Setup appends one more scoped rule to such a host, and leaves such a host. */
  lemma SetupAppendsOneMore(h: Host, port: Port, n: nat)
    requires OnIptables(h) && StaysForeign(h, port)
    ensures var g := WithScoped(h, port, n);
            && FirewallPlan(g, port).commands != []
            && AcceptsAll(g, FirewallPlan(g, port).commands)
            && After(g, FirewallPlan(g, port).commands) == WithScoped(h, port, n + 1)
  {
    var g := WithScoped(h, port, n);
    WithScopedIsPrinted(h, port, n);
    assert HangsOnForeign(InputLines(g), ChainOf(h), port);
    ForeignPlan(g, port);
    AppendStage(g, port);
    OneCommand(g, Iptables(ScopedRule(port)));
  }

  /** The host after n runs of the firewall step. */
  function SetupTimes(h: Host, port: Port, n: nat): Host {
    if n == 0 then h else SetupOnce(SetupTimes(h, port, n - 1), port)
  }

  function SetupOnce(h: Host, port: Port): Host {
    Carried(h, FirewallPlan(h, port).commands)
  }

  lemma OnceAppendsOneMore(h: Host, port: Port, n: nat)
    requires OnIptables(h) && StaysForeign(h, port)
    ensures SetupOnce(WithScoped(h, port, n), port) == WithScoped(h, port, n + 1)
  {
    SetupAppendsOneMore(h, port, n);
    CarriedIsAfter(WithScoped(h, port, n), FirewallPlan(WithScoped(h, port, n), port).commands);
  }

  lemma {:induction false} Iterated(h: Host, port: Port, n: nat)
    requires forall k: nat :: SetupOnce(WithScoped(h, port, k), port) == WithScoped(h, port, k + 1)
    ensures SetupTimes(h, port, n) == WithScoped(h, port, n)
  {
    if n == 0 {
      NoneScoped(h, port);
    } else {
      Iterated(h, port, n - 1);
    }
  }

  /** Setup is not idempotent there: INPUT gains one scoped rule on every run. */
  lemma {:induction false} EveryRunAppends(h: Host, port: Port, n: nat)
    requires OnIptables(h) && StaysForeign(h, port)
    ensures SetupTimes(h, port, n) == WithScoped(h, port, n)
  {
    forall k: nat
      ensures SetupOnce(WithScoped(h, port, k), port) == WithScoped(h, port, k + 1)
    {
      OnceAppendsOneMore(h, port, k);
    }
    Iterated(h, port, n);
  }

  /** So Settles does not hold of it. */
  lemma ForeignDoesNotSettle(h: Host, port: Port)
    requires OnIptables(h) && StaysForeign(h, port)
    ensures !Settles(h, port) && AcceptsAll(h, FirewallPlan(h, port).commands)
    ensures FirewallPlan(After(h, FirewallPlan(h, port).commands), port).commands != []
  {
    NoneScoped(h, port);
    SetupAppendsOneMore(h, port, 0);
    StillAppends(h, port, 1);
    DoesNotSettle(h, WithScoped(h, port, 1), port);
  }

  lemma StillAppends(h: Host, port: Port, n: nat)
    requires OnIptables(h) && StaysForeign(h, port)
    ensures FirewallPlan(WithScoped(h, port, n), port).commands != []
  {
    SetupAppendsOneMore(h, port, n);
  }

  lemma NoneScoped(h: Host, port: Port)
    ensures WithScoped(h, port, 0) == h
  {
    assert h.input + ScopedLines(port, 0) == h.input;
  }

  lemma DoesNotSettle(h: Host, g: Host, port: Port)
    requires WellPrinted(h) && AcceptsAll(h, FirewallPlan(h, port).commands)
    requires After(h, FirewallPlan(h, port).commands) == g && FirewallPlan(g, port).commands != []
    ensures !Settles(h, port)
  {
    FirewallSecondRun(h, port);
  }

  // ------------------------------------------- a foreign allow, then a deny

  /** A foreign unscoped allow: not the rule setup wrote. */
  predicate ForeignAllow(line: string, port: Port) {
    IsUnscoped(line, port) && !IsLegacy(line, port) && !Jumps(line)
  }

  lemma RestFromDeny(l: string, m: string, rest: seq<string>, u: seq<string>, port: Port)
    requires TrimSpace(l) in u && TrimSpace(m) !in u && Denies(m, port)
    ensures !Covers(Rest([l, m] + rest, u), port)
  {
    assert [l, m] + rest == [l] + ([m] + rest);
    RestDrops(l, [m] + rest, u);
    RestStarts([m] + rest, u, port);
  }

  lemma RestDrops(l: string, more: seq<string>, u: seq<string>)
    requires TrimSpace(l) in u
    ensures Rest([l] + more, u) == Rest(more, u)
  {
    assert ([l] + more)[1..] == more;
  }

  lemma ForeignIsCounted(l: string, lines: seq<string>, port: Port)
    requires l in lines && ForeignAllow(l, port)
    ensures TrimSpace(l) in Unscoped(lines, port) && Foreign(Unscoped(lines, port), port) != []
  {
    UnscopedMember(l, lines, port);
    LegacyByTrimmed(l, port);
    ForeignIsEmpty(Unscoped(lines, port), port);
  }

  lemma DenyIsNotCounted(m: string, lines: seq<string>, port: Port)
    requires Denies(m, port)
    ensures TrimSpace(m) !in Unscoped(lines, port)
  {
    if TrimSpace(m) in Unscoped(lines, port) {
      UnscopedTextIsUnscoped(m, lines, port);
    }
  }

  lemma ForeignCovers(l: string, rest: seq<string>, port: Port)
    requires ForeignAllow(l, port)
    ensures Covers([l] + rest, port)
  {
    UnscopedAdmits(l, port);
    FirstDecides([l] + rest, port);
  }

  lemma HangsFrom(lines: seq<string>, chain: seq<string>, port: Port)
    requires forall line | line in lines :: !Jumps(line) && !IsLegacy(line, port)
    requires Covers(lines, port) && !Covers(Rest(lines, Unscoped(lines, port)), port) && Foreign(Unscoped(lines, port), port) != []
    ensures HangsOnForeign(lines, chain, port)
  {
    JumpFree(lines, chain);
    NoCopyCounted(lines, port);
  }

  lemma ForeignThenDeny(l: string, m: string, rest: seq<string>, chain: seq<string>, port: Port)
    requires ForeignAllow(l, port) && Denies(m, port)
    requires forall line | line in rest :: !Jumps(line) && !IsLegacy(line, port)
    ensures HangsOnForeign([l, m] + rest, chain, port)
  {
    ForeignRest(l, m, rest, port);
    ForeignOpens(l, m, rest, port);
    NoJumpsIn(l, m, rest, port);
    HangsFrom([l, m] + rest, chain, port);
  }

  lemma ForeignRest(l: string, m: string, rest: seq<string>, port: Port)
    requires ForeignAllow(l, port) && Denies(m, port)
    ensures !Covers(Rest([l, m] + rest, Unscoped([l, m] + rest, port)), port)
  {
    ForeignIsCounted(l, [l, m] + rest, port);
    DenyIsNotCounted(m, [l, m] + rest, port);
    RestFromDeny(l, m, rest, Unscoped([l, m] + rest, port), port);
  }

  lemma ForeignOpens(l: string, m: string, rest: seq<string>, port: Port)
    requires ForeignAllow(l, port)
    ensures Covers([l, m] + rest, port) && Foreign(Unscoped([l, m] + rest, port), port) != []
  {
    ForeignIsCounted(l, [l, m] + rest, port);
    assert [l, m] + rest == [l] + ([m] + rest);
    ForeignCovers(l, [m] + rest, port);
  }

  lemma NoJumpsIn(l: string, m: string, rest: seq<string>, port: Port)
    requires !Jumps(l) && !IsLegacy(l, port) && !Jumps(m) && !IsLegacy(m, port)
    requires forall line | line in rest :: !Jumps(line) && !IsLegacy(line, port)
    ensures forall line | line in [l, m] + rest :: !Jumps(line) && !IsLegacy(line, port)
  {
    assert forall line | line in [l, m] + rest :: line == l || line == m || line in rest;
  }

  lemma {:induction false} FlatScopedLines(port: Port, n: nat)
    ensures FlatAll(ScopedLines(port, n)) == ScopedLines(port, n)
    ensures forall line | line in ScopedLines(port, n) + [""] :: line == ScopedLine(port) || line == ""
  {
    ScopedLineIsFlat(port);
  }

  lemma PlainLines(port: Port)
    ensures !Jumps(ScopedLine(port)) && !IsLegacy(ScopedLine(port), port) && !Jumps("") && !IsLegacy("", port)
  {
    ScopedLineFacts(port);
    BlankIsIdle(port);
  }

  lemma {:induction false} LinesWithScoped(h: Host, a: string, d: string, port: Port, n: nat)
    requires OnIptables(h) && h.input == [a, d]
    ensures InputLines(WithScoped(h, port, n)) == [Flat(a), Flat(d)] + (ScopedLines(port, n) + [""])
  {
    var g, tail := WithScoped(h, port, n), ScopedLines(port, n);
    WithScopedIsPrinted(h, port, n);
    LinesOf(g, port);
    FlatScopedLines(port, n);
    FlatOfTwo(a, d, tail);
  }

  lemma FlatOfTwo(a: string, d: string, tail: seq<string>)
    requires FlatAll(tail) == tail
    ensures FlatAll([a, d] + tail) + [""] == [Flat(a), Flat(d)] + (tail + [""])
  {
    assert FlatAll([a, d] + tail) == [Flat(a), Flat(d)] + FlatAll(tail);
  }

  /** An INPUT of one foreign unscoped allow followed by a deny. */
  lemma ForeignStays(h: Host, a: string, d: string, port: Port)
    requires OnIptables(h) && h.input == [a, d] && ForeignAllow(Flat(a), port) && Denies(Flat(d), port)
    ensures StaysForeign(h, port)
  {
    forall n: nat
      ensures HangsOnForeign(InputLines(WithScoped(h, port, n)), ChainOf(h), port)
    {
      LinesWithScoped(h, a, d, port, n);
      FlatScopedLines(port, n);
      PlainLines(port);
      ForeignThenDeny(Flat(a), Flat(d), ScopedLines(port, n) + [""], ChainOf(h), port);
    }
  }

  // ---------------------------------------------------------- one such host

  /** An allow of a list of ports, which setup never writes. */
  function MultiportWords(n: string): seq<string> {
    ["-A", "INPUT", "-p", "tcp", "-m", "multiport", "--dports", n, "-j", "ACCEPT"]
  }

  function MultiportText(port: Port): string {
    Join(MultiportWords(Itoa(port)), ' ')
  }

  lemma MultiportIsPlain(n: string)
    requires IsDigits(n)
    ensures forall w | w in MultiportWords(n) :: PlainWord(w)
  {
    var f := MultiportWords(n);
    FlagWords();
    forall w | w in f
      ensures PlainWord(w)
    {
      var i :| 0 <= i < |f| && f[i] == w;
      if i != 7 {
        assert w in FLAG_WORDS;
      }
    }
  }

  lemma MultiportFlags(n: string)
    requires Numeral(n)
    ensures Flag(MultiportWords(n), "-p") == "tcp" && Flag(MultiportWords(n), "--dports") == n && Flag(MultiportWords(n), "-j") == "ACCEPT"
  {
    var f := MultiportWords(n);
    FlagIs(f, "-p", 2);
    FlagIs(f, "--dports", 6);
    FlagIs(f, "-j", 8);
  }

  lemma MultiportScope(n: string)
    requires Numeral(n)
    ensures !HasScope(MultiportWords(n)) && TS_INPUT !in MultiportWords(n) && !Loopback(MultiportWords(n))
  {
    MultiportHoldsNoScope(n);
    NoScopeNoLoopback(MultiportWords(n));
  }

  lemma MultiportHoldsNoScope(n: string)
    requires Numeral(n)
    ensures !HasScope(MultiportWords(n)) && TS_INPUT !in MultiportWords(n)
  {}

  /** A loopback scope is a scope. */
  lemma NoScopeNoLoopback(f: seq<string>)
    requires !HasScope(f)
    ensures !Loopback(f)
  {
    forall i | 0 <= i < |f| - 1
      ensures !LoopbackScope(f[i], f[i + 1])
    {
      assert f[i] in f;
    }
  }

  lemma MultiportCovers(f: seq<string>, port: Port)
    requires Flag(f, "-p") == "tcp" && Flag(f, "--dports") == Itoa(port)
    ensures PortCovers(f, port)
  {
    PortListOfItoa(port);
    assert DEST_PORT_FLAGS[1] == "--dports";
  }

  lemma MultiportIsForeign(line: string, port: Port)
    requires Fields(line) == Words(line) == MultiportWords(Itoa(port))
    ensures ForeignAllow(line, port)
  {
    var f, n := Words(line), Itoa(port);
    ItoaStartsWithDigit(port);
    MultiportFlags(n);
    MultiportScope(n);
    MultiportCovers(f, port);
    assert |f| == 10 && f[0] == "-A" && f[1] == "INPUT" && f[5] == "multiport";
    MultiportIsUnscoped(line, port);
    NoQualifiedJump(line);
  }

  lemma MultiportIsUnscoped(line: string, port: Port)
    requires var f := Words(line);
             && |f| == 10 && f[0] == "-A" && f[1] == "INPUT" && f[5] != "tcp" && Flag(f, "-j") == "ACCEPT"
             && PortCovers(f, port) && !Loopback(f) && !HasScope(f)
    requires Fields(line) == Words(line)
    ensures IsUnscoped(line, port) && !IsLegacy(line, port) && !TSInputJump(line)
  {}

  /** A root shell on a host with that INPUT and no ts-input. */
  function RepeatingHost(port: Port): Host {
    ClosingHost(port).(input := [MultiportText(port), Join(DENY, ' ')])
  }

  lemma RepeatingTexts(port: Port)
    ensures Whole(MultiportText(port)) && ForeignAllow(Flat(MultiportText(port)), port)
    ensures Whole(Join(DENY, ' ')) && Denies(Flat(Join(DENY, ' ')), port)
  {
    MultiportIsPlain(Itoa(port));
    JoinedLine(MultiportWords(Itoa(port)));
    MultiportIsForeign(MultiportText(port), port);
    DenyIsPlain();
    JoinedLine(DENY);
    DenyLine(Join(DENY, ' '), port);
  }

  lemma RepeatingHostRepeats(port: Port)
    ensures OnIptables(RepeatingHost(port)) && StaysForeign(RepeatingHost(port), port)
  {
    InputRepeats(RepeatingHost(port), port);
  }

  lemma InputRepeats(h: Host, port: Port)
    requires h.elevated && !h.hasUfw && h.hasIptables && h.inputReadable && h.tsInput.NoChain?
    requires h.input == [MultiportText(port), Join(DENY, ' ')]
    ensures OnIptables(h) && StaysForeign(h, port)
  {
    RepeatingTexts(port);
    TwoPrinted(h, MultiportText(port), Join(DENY, ' '));
    ForeignStays(h, MultiportText(port), Join(DENY, ' '), port);
  }

  lemma TwoPrinted(h: Host, a: string, d: string)
    requires h.tsInput.NoChain? && h.input == [a, d] && Whole(a) && Whole(d)
    ensures WellPrinted(h)
  {}

  /** A concrete host on which every run of setup appends another scoped rule. */
  lemma SetupNeverSettles(port: Port, n: nat)
    ensures SetupTimes(RepeatingHost(port), port, n) == WithScoped(RepeatingHost(port), port, n)
    ensures WellPrinted(RepeatingHost(port)) && !Settles(RepeatingHost(port), port)
  {
    RepeatingHostRepeats(port);
    EveryRunAppends(RepeatingHost(port), port, n);
    ForeignDoesNotSettle(RepeatingHost(port), port);
  }

  // ---------------------------- a unit the first run's restart makes readable

  /** xrdp disabled, is-active answering nothing, and a bare [Globals] section. */
  function HiddenUnitHost(): Host {
    Host(true, Systemctl("disabled", ""), File(XrdpIni.GLOBALS), false, None, None, false, false, [], NoChain, NoNft)
  }

  lemma GlobalsIsHeader()
    ensures '\n' !in XrdpIni.GLOBALS && XrdpIni.KindOf(XrdpIni.GLOBALS) == XrdpIni.Header(XrdpIni.GLOBALS)
  {
    TrimmedIsFixed(XrdpIni.GLOBALS);
  }

  /** A file of one [Globals] header reads as xrdp's own port. */
  lemma {:induction false} HeaderRead(text: string)
    requires '\n' !in text && XrdpIni.KindOf(text) == XrdpIni.Header(XrdpIni.GLOBALS)
    ensures XrdpIni.Read(text) == XrdpIni.Ok(XrdpIni.Listener([text], XrdpIni.NOTHING_FOUND.(globals := Some(0))))
  {
    SplitOfOnePart(text, '\n');
    var kinds := XrdpIni.Kinds([text]);
    var found := XrdpIni.NOTHING_FOUND.(globals := Some(0));
    assert kinds == [XrdpIni.Header(XrdpIni.GLOBALS)] && kinds[1..] == [];
    assert XrdpIni.ScanLine(kinds[0], 0, "", XrdpIni.NOTHING_FOUND) == XrdpIni.Ok((XrdpIni.GLOBALS, found));
    assert XrdpIni.Scan(kinds[1..], 1, XrdpIni.GLOBALS, found) == XrdpIni.Ok(found);
  }

  lemma OtherPortIsRewritten(h: Host, cfg: Config, l: XrdpIni.Listener)
    requires cfg.portDeclared && h.ini.File? && XrdpIni.Read(h.ini.text) == XrdpIni.Ok(l)
    requires XrdpIni.HasPlace(l) && l.found.port != LinuxPort(cfg)
    ensures RewritesPort(h, cfg)
  {}

  lemma NoFirewallSettles(h: Host, port: Port)
    requires !h.hasUfw && !h.hasIptables
    ensures Settles(h, port)
  {}

  lemma UnitIsHidden()
    ensures HiddenUnit(HiddenUnitHost())
  {
    TrimmedIsFixed("disabled");
    TrimmedIsFixed("");
  }

  /** With any port declared but xrdp's own, the first run of setup leaves a host
      on which a second run enables xrdp. */
  lemma FirstRunRevealsUnit(cfg: Config)
    requires cfg.portDeclared && LinuxPort(cfg) != XrdpIni.DEFAULT_RDP_PORT
    ensures var h := HiddenUnitHost();
            && WellPrinted(h) && RevealsUnit(h, cfg) && Settles(h, LinuxPort(cfg))
            && SetupLinux(SetupLinux(h, cfg).host, cfg).issued != []
  {
    var h := HiddenUnitHost();
    GlobalsIsHeader();
    HeaderRead(h.ini.text);
    OtherPortIsRewritten(h, cfg, XrdpIni.Listener([h.ini.text], XrdpIni.NOTHING_FOUND.(globals := Some(0))));
    UnitIsHidden();
    NoFirewallSettles(h, LinuxPort(cfg));
    SetupIsIdempotent(h, cfg);
  }
}
