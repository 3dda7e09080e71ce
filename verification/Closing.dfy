/** Where replacing the unscoped rule does close the port. */
module Closing {
  import opened Text
  import opened IptRules
  import opened IptDecide
  import opened IptLegacy
  import opened HostState
  import opened LinuxSetup
  import opened Converge
  import opened SecondRun

  /** A rule that denies every packet. */
  const DENY := ["-A", "INPUT", "-j", "DROP"]

  function LegacyText(port: Port): string {
    Join(LegacyWords(Itoa(port)), ' ')
  }

  /** A line joined from plain words is one rule, and its words are they. */
  lemma JoinedLine(words: seq<string>)
    requires forall w | w in words :: PlainWord(w)
    ensures Whole(Join(words, ' ')) && Flat(Join(words, ' ')) == Join(words, ' ')
    ensures Fields(Join(words, ' ')) == Words(Join(words, ' ')) == words
  {
    var line := Join(words, ' ');
    JoinHolds(words, '"');
    JoinHolds(words, '\n');
    PlainStaysOutside(line);
    FieldsOfJoin(words);
    WordsOfUnquoted(line);
  }

  /** A plain rule that denies the port to everyone. */
  predicate Denies(line: string, port: Port) {
    && Verdict(line, port).state == Blocked && !IsLegacy(line, port) && !IsUnscoped(line, port)
    && !OffTailnet(line) && !TSInputJump(line) && !QualifiedJump(line)
  }

  lemma DenyFlags(f: seq<string>)
    requires f == DENY
    ensures Flag(f, "-j") == "DROP" && Flag(f, "-p") == ""
  {
    FlagIs(f, "-j", 2);
    FlagIsNone(f, "-p");
  }

  lemma DenyScope(f: seq<string>)
    requires f == DENY
    ensures !HasScope(f) && !Loopback(f) && TS_INPUT !in f
  {}

  lemma DenyMatches(f: seq<string>, port: Port)
    requires f == DENY
    ensures MatchesPort(f, port)
  {
    assert f[2..][0] == "-j" && f[2..][2..] == [];
    assert PortlessCovers(f[2..]);
  }

  /** A rule that matches every packet of the port and drops it. */
  lemma DropDenies(line: string, port: Port)
    requires var f := Words(line);
             && |f| > 2 && f[0] == "-A" && Flag(f, "-j") == "DROP"
             && !HasScope(f) && !Loopback(f) && TS_INPUT !in f && MatchesPort(f, port)
    ensures Denies(line, port)
  {
    NoQualifiedJump(line);
    if TSInputJump(line) {
      PlainJumpNamesChain(line);
    }
    if IsLegacy(line, port) {
      LegacyLine(line, port);
    }
  }

  lemma PlainJumpNamesChain(line: string)
    requires TSInputJump(line)
    ensures TS_INPUT in Words(line)
  {
    WordsOfUnquoted(line);
    assert Words(line)[3] == TS_INPUT;
  }

  lemma DenyLine(line: string, port: Port)
    requires Words(line) == DENY
    ensures Denies(line, port)
  {
    var f := Words(line);
    DenyFlags(f);
    DenyScope(f);
    DenyMatches(f, port);
    assert |f| == 4 && f[0] == "-A";
    DropDenies(line, port);
  }

  /** An INPUT of one unscoped allow and a deny: the scoped rule lands behind
      the deny, and the port closes once the copy is gone. */
  lemma ReplacementCanClose(h: Host, a: string, d: string, port: Port)
    requires WellPrinted(h) && h.elevated && !h.hasUfw && h.hasIptables && h.inputReadable
    requires h.input == [a, d] && IsLegacy(Flat(a), port) && Denies(Flat(d), port)
    ensures Replaces(h, port) && !KeepsOpen(h, port)
    ensures AcceptsAll(h, FirewallPlan(h, port).commands)
    ensures ReadFirewall(After(h, FirewallPlan(h, port).commands), port).state != Present
  {
    ReadOfTwo(h, a, d, port);
    var read := ReadFirewall(h, port);
    var cs := FirewallPlan(h, port).commands;
    ReplacementNeverCloses(h, port);
    assert cs == LegacyCommands(read, port);
    LinesOf(h, port);
    ReplacementStage(h, read, port, |cs|);
    assert cs[..|cs|] == cs;
    StagePresent(h, After(h, cs), 0, port);
  }

  /** A root shell on a host with that INPUT and no ts-input. */
  function ClosingHost(port: Port): Host {
    Host(true, NoSystemctl(true), Missing, false, None, None, true, true,
         [LegacyText(port), Join(DENY, ' ')], NoChain, NoNft)
  }

  lemma SetupClosesThePort(port: Port)
    ensures var h := ClosingHost(port);
            && ReadFirewall(h, port).state == Present
            && AcceptsAll(h, FirewallPlan(h, port).commands)
            && ReadFirewall(After(h, FirewallPlan(h, port).commands), port).state != Present
  {
    TextsFit(port);
    ReplacementCanClose(ClosingHost(port), LegacyText(port), Join(DENY, ' '), port);
  }

  lemma TextsFit(port: Port)
    ensures Whole(LegacyText(port)) && IsLegacy(Flat(LegacyText(port)), port)
    ensures Whole(Join(DENY, ' ')) && Denies(Flat(Join(DENY, ' ')), port)
  {
    LegacyWordsAreWords(Itoa(port));
    JoinedLine(LegacyWords(Itoa(port)));
    DenyIsPlain();
    JoinedLine(DENY);
    DenyLine(Join(DENY, ' '), port);
  }

  lemma DenyIsPlain()
    ensures forall w | w in DENY :: PlainWord(w)
  {
    FlagWords();
    assert forall w | w in DENY :: w in FLAG_WORDS;
  }

  lemma ReadOfTwo(h: Host, a: string, d: string, port: Port)
    requires WellPrinted(h) && h.inputReadable
    requires h.input == [a, d] && IsLegacy(Flat(a), port) && Denies(Flat(d), port)
    ensures ReadIptables(h, port).state == Present && ReadIptables(h, port).copies == 1 && !ReadIptables(h, port).scoped
    ensures Decide(BareWalk(h, port), port).state == Blocked
  {
    LinesOf(h, port);
    assert [a, d][1..] == [d] && [d][1..] == [];
    assert InputLines(h) == [Flat(a), Flat(d), ""];
    BlankIsIdle(port);
    OpenByCopy(Flat(a), Flat(d), "", ChainOf(h), port);
    OpenButUnscoped(h, port);
  }

  /** What the walk over lines answers when only its copies of the unscoped rule
      keep the port open. */
  predicate HangsOnCopies(lines: seq<string>, chain: seq<string>, port: Port) {
    var walk := Inline(BeforeJump(lines), chain);
    && !Diverted(lines) && Covers(walk, port) && !Covers(Rest(walk, Unscoped(lines, port)), port)
    && LegacyCopies(lines, port) == 1
    && Decide(Inline(BeforeJump(StripLegacy(lines, port)), chain), port).state == Blocked
  }

  lemma LegacyPlain(line: string, port: Port)
    requires IsLegacy(line, port)
    ensures Verdict(line, port).state == Present && !Jumps(line)
  {
    LegacyLine(line, port);
  }

  lemma OpenByCopy(l: string, m: string, b: string, chain: seq<string>, port: Port)
    requires IsLegacy(l, port) && Denies(m, port) && Idle(b, port)
    ensures HangsOnCopies([l, m, b], chain, port)
  {
    LegacyPlain(l, port);
    WalkOfTwo(l, m, b, chain, port);
    RestOfTwo(l, m, b, port);
  }

  lemma OpenButUnscoped(h: Host, port: Port)
    requires h.inputReadable && HangsOnCopies(InputLines(h), ChainOf(h), port)
    ensures ReadIptables(h, port).state == Present && ReadIptables(h, port).copies == 1 && !ReadIptables(h, port).scoped
    ensures Decide(BareWalk(h, port), port).state == Blocked
  {
    PresentIsCovered(h, port);
  }

  /** A line that is no rule for the port. */
  predicate Idle(line: string, port: Port) {
    Verdict(line, port).state == Absent && !IsLegacy(line, port) && !TSInputJump(line) && !QualifiedJump(line)
  }

  lemma BlankIsIdle(port: Port)
    ensures Idle("", port)
  {
    BlankLineIsNothing(port);
    assert Fields("") == [];
  }

  predicate Jumps(line: string) {
    TSInputJump(line) || QualifiedJump(line)
  }

  lemma WalkOfTwo(l: string, m: string, b: string, chain: seq<string>, port: Port)
    requires !Jumps(l) && !Jumps(m) && !Jumps(b)
    requires Verdict(l, port).state == Present && Verdict(m, port).state == Blocked
    requires IsLegacy(l, port) && !IsLegacy(m, port) && !IsLegacy(b, port)
    ensures var lines := [l, m, b];
            && !Diverted(lines) && LegacyCopies(lines, port) == 1
            && Decide(Inline(BeforeJump(lines), chain), port).state == Present
            && Inline(BeforeJump(lines), chain) == lines
            && Decide(Inline(BeforeJump(StripLegacy(lines, port)), chain), port).state == Blocked
  {
    JumpsOfTwo(l, m, b, chain);
    CopiesOfTwo(l, m, b, port);
    FirstDecides([l, m, b], port);
    FirstDecides([m, b], port);
  }

  lemma FirstDecides(lines: seq<string>, port: Port)
    requires lines != [] && Verdict(lines[0], port).state != Absent
    ensures Decide(lines, port).state == Verdict(lines[0], port).state
  {}

  lemma JumpsOfTwo(l: string, m: string, b: string, chain: seq<string>)
    requires !Jumps(l) && !Jumps(m) && !Jumps(b)
    ensures BeforeJump([l, m, b]) == [l, m, b] && Inline([l, m, b], chain) == [l, m, b] && !Diverted([l, m, b])
    ensures BeforeJump([m, b]) == [m, b] && Inline([m, b], chain) == [m, b]
  {
    JumpFree([l, m, b], chain);
    assert forall line | line in [m, b] :: line in [l, m, b];
    JumpFree([m, b], chain);
  }

  lemma {:induction false} JumpFree(lines: seq<string>, chain: seq<string>)
    requires forall line | line in lines :: !Jumps(line)
    ensures BeforeJump(lines) == lines && Inline(lines, chain) == lines
  {
    if lines != [] {
      assert lines[0] in lines && forall line | line in lines[1..] :: line in lines;
      JumpFree(lines[1..], chain);
    }
  }

  lemma CopiesOfTwo(l: string, m: string, b: string, port: Port)
    requires IsLegacy(l, port) && !IsLegacy(m, port) && !IsLegacy(b, port)
    ensures LegacyCopies([l, m, b], port) == 1 && StripLegacy([l, m, b], port) == [m, b]
  {
    assert [l, m, b][1..] == [m, b] && [m, b][1..] == [b] && [b][1..] == [];
    assert LegacyCopies([b], port) == 0 && StripLegacy([b], port) == [b];
    assert LegacyCopies([m, b], port) == 0 && StripLegacy([m, b], port) == [m, b];
  }

  lemma RestOfTwo(l: string, m: string, b: string, port: Port)
    requires IsLegacy(l, port) && Denies(m, port)
    ensures Decide(Rest([l, m, b], Unscoped([l, m, b], port)), port).state == Blocked
  {
    UnscopedTexts([l, m, b], port);
    var lines := [l, m, b];
    var u := Unscoped(lines, port);
    LegacyLine(l, port);
    assert l in lines && TrimSpace(l) in u;
    if TrimSpace(m) in u {
      UnscopedTextIsUnscoped(m, lines, port);
    }
    assert lines[1..] == [m, b];
    RestStarts([m, b], u, port);
    assert Rest(lines, u) == Rest([m, b], u);
  }

  lemma RestStarts(lines: seq<string>, u: seq<string>, port: Port)
    requires lines != [] && Denies(lines[0], port) && TrimSpace(lines[0]) !in u
    ensures Decide(Rest(lines, u), port).state == Blocked
  {
    assert Rest(lines, u)[0] == lines[0];
  }
}
