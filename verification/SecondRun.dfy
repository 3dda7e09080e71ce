/** When a second run of the firewall step has nothing left to issue. */
module SecondRun {
  import opened Text
  import opened IptRules
  import opened IptDecide
  import opened IptLegacy
  import opened Ufw
  import opened HostState
  import opened LinuxSetup
  import opened Converge

  // ------------------------------------------------------- the firewall step

  /** The walk without the unscoped allows and the off-tailnet ACCEPTs. */
  function RestWalk(h: Host, port: Port): seq<string> {
    Rest(Walk(h), Unscoped(InputLines(h), port))
  }

  /** The rule setup appends is reached, and no deny stands in front of it once
      the unscoped allows are gone. */
  predicate AppendTakesEffect(h: Host, port: Port) {
    !QualifiedJumpIn(h) && Decide(RestWalk(h, port), port).state != Blocked
  }

  /** An append that takes effect keeps the port open while the copies go. */
  lemma AppendTakesEffectKeepsOpen(h: Host, port: Port)
    requires Replaces(h, port) && AppendTakesEffect(h, port)
    ensures KeepsOpen(h, port)
  {
    PresentIsCovered(h, port);
    if !ReadIptables(h, port).scoped {
      BareRest(h, port);
      UnscopedAreAcceptTexts(InputLines(h), port);
      RestWidens(BareWalk(h, port), Unscoped(InputLines(h), port));
      WideningKeepsPresent(RestWalk(h, port), BareWalk(h, port), port);
    }
  }

  lemma BareRest(h: Host, port: Port)
    ensures Rest(BareWalk(h, port), Unscoped(InputLines(h), port)) == RestWalk(h, port)
  {
    BeforeJumpOfStripped(InputLines(h), port);
    BeforeJumpIsPart(InputLines(h));
    RestOfStripped(BeforeJump(InputLines(h)), InputLines(h), ChainOf(h), port);
  }

  /** A second run repeats itself only when the first found a foreign unscoped
      allow, no scoped rule, and appended one that does not take effect while
      the port stays open through the foreign allow. */
  predicate Settles(h: Host, port: Port) {
    var read := ReadFirewall(h, port);
    HoldsLegacy(read) ==> |read.foreign| == 0 || read.scoped || !KeepsOpen(h, port) || AppendTakesEffect(h, port)
  }

  // ---- what the second read counts

  lemma UnscopedByWords(a: string, b: string, port: Port)
    requires Words(a) == Words(b)
    ensures IsUnscoped(a, port) == IsUnscoped(b, port)
  {}

  /** Whether a text is that of an unscoped allow depends on its words. */
  lemma UnscopedTextIsUnscoped(line: string, lines: seq<string>, port: Port)
    requires TrimSpace(line) in Unscoped(lines, port)
    ensures IsUnscoped(line, port)
  {
    UnscopedTexts(lines, port);
    var other :| other in lines && IsUnscoped(other, port) && TrimSpace(line) == TrimSpace(other);
    WordsOfTrimmed(line);
    WordsOfTrimmed(other);
    UnscopedByWords(line, other, port);
  }

  lemma LegacyByTrimmed(line: string, port: Port)
    ensures IsLegacy(TrimSpace(line), port) == IsLegacy(line, port)
  {
    WordsOfTrimmed(line);
  }

  lemma {:induction false} KeptByStrip(lines: seq<string>, line: string, port: Port)
    requires line in lines && !IsLegacy(line, port)
    ensures line in StripLegacy(lines, port)
  {
    if lines[0] != line {
      KeptByStrip(lines[1..], line, port);
    }
  }

  /** INPUT some commands into the replacement: what is kept, perhaps the scoped
      rule, and perhaps copies. */
  predicate Replaced(before: seq<string>, after: seq<string>, port: Port) {
    && (forall line | line in StripLegacy(before, port) :: line in after)
    && (forall line | line in after :: line in StripLegacy(before, port) || line == ScopedLine(port) || IsLegacy(line, port))
  }

  lemma StageIsReplaced(h: Host, g: Host, appended: bool, copies: nat, port: Port)
    requires Stage(h, g, appended, copies, port)
    ensures Replaced(InputLines(h), InputLines(g), port)
  {
    var before, after := InputLines(h), InputLines(g);
    LinesOf(h, port);
    StageLines(h, g, appended, copies, port);
    SameKept(FlatAll(Kept(h.input, port)), StripLegacy(after, port), appended, port);
    forall line | line in after && !IsLegacy(line, port)
      ensures line in StripLegacy(after, port)
    {
      KeptByStrip(after, line, port);
    }
  }

  lemma SameKept(kept: seq<string>, lines: seq<string>, appended: bool, port: Port)
    requires lines == kept + (if appended then [ScopedLine(port)] else []) + [""]
    ensures forall line | line in kept + [""] :: line in lines
    ensures forall line | line in lines :: line in kept + [""] || line == ScopedLine(port)
  {}

  lemma UnscopedWitness(line: string, lines: seq<string>, port: Port) returns (other: string)
    requires TrimSpace(line) in Unscoped(lines, port)
    ensures other in lines && IsUnscoped(other, port) && TrimSpace(other) == TrimSpace(line)
    ensures IsLegacy(other, port) == IsLegacy(line, port)
  {
    UnscopedTexts(lines, port);
    other :| other in lines && IsUnscoped(other, port) && TrimSpace(line) == TrimSpace(other);
    LegacyByTrimmed(line, port);
    LegacyByTrimmed(other, port);
  }

  lemma UnscopedMember(line: string, lines: seq<string>, port: Port)
    requires line in lines && IsUnscoped(line, port)
    ensures TrimSpace(line) in Unscoped(lines, port)
  {
    UnscopedTexts(lines, port);
  }

  /** For a line that is no copy, being an unscoped allow's text did not change. */
  lemma SameUnscopedTexts(before: seq<string>, after: seq<string>, line: string, port: Port)
    requires Replaced(before, after, port) && !IsLegacy(line, port)
    ensures TrimSpace(line) in Unscoped(after, port) <==> TrimSpace(line) in Unscoped(before, port)
  {
    if TrimSpace(line) in Unscoped(after, port) {
      var other := UnscopedWitness(line, after, port);
      ScopedIsScoped(port);
      UnscopedMember(other, before, port);
    }
    if TrimSpace(line) in Unscoped(before, port) {
      var other := UnscopedWitness(line, before, port);
      KeptByStrip(before, other, port);
      UnscopedMember(other, after, port);
    }
  }

  lemma ScopedIsScoped(port: Port)
    ensures !IsUnscoped(ScopedLine(port), port)
  {
    ScopedLineFacts(port);
  }

  lemma {:induction false} SameRest(walked: seq<string>, before: seq<string>, after: seq<string>, port: Port)
    requires Replaced(before, after, port) && forall line | line in walked :: !IsLegacy(line, port)
    ensures Rest(walked, Unscoped(after, port)) == Rest(walked, Unscoped(before, port))
  {
    if walked != [] {
      assert walked[0] in walked;
      assert forall line | line in walked[1..] :: line in walked;
      SameUnscopedTexts(before, after, walked[0], port);
      SameRest(walked[1..], before, after, port);
    }
  }

  lemma {:induction false} ForeignIsEmpty(texts: seq<string>, port: Port)
    ensures Foreign(texts, port) == [] <==> forall text | text in texts :: IsLegacy(text, port)
  {
    if texts != [] {
      ForeignIsEmpty(texts[1..], port);
      assert texts == [texts[0]] + texts[1..];
    }
  }

  lemma SameForeign(before: seq<string>, after: seq<string>, port: Port)
    requires Replaced(before, after, port)
    ensures Foreign(Unscoped(after, port), port) == [] <==> Foreign(Unscoped(before, port), port) == []
  {
    UnscopedTexts(before, port);
    UnscopedTexts(after, port);
    ForeignIsEmpty(Unscoped(after, port), port);
    ForeignIsEmpty(Unscoped(before, port), port);
    forall text | text in Unscoped(before, port) || text in Unscoped(after, port)
      ensures !IsLegacy(text, port) ==> (text in Unscoped(before, port) && text in Unscoped(after, port))
    {
      var line :| (line in before || line in after) && TrimSpace(line) == text;
      LegacyByTrimmed(line, port);
      if !IsLegacy(text, port) {
        SameUnscopedTexts(before, after, line, port);
      }
    }
  }

  /** Nothing the bare walk meets is a copy: ts-input lists its own rules only. */
  lemma BareWalkHoldsNoCopy(h: Host, port: Port)
    requires WellPrinted(h)
    ensures forall line | line in BareWalk(h, port) :: !IsLegacy(line, port)
  {
    ChainHoldsNoCopy(h, port);
    BeforeJumpIsPart(StripLegacy(InputLines(h), port));
    InlineHoldsNoCopy(BeforeJump(StripLegacy(InputLines(h), port)), ChainOf(h), port);
  }

  lemma {:induction false} InlineHoldsNoCopy(lines: seq<string>, chain: seq<string>, port: Port)
    requires forall line | line in lines :: !IsLegacy(line, port)
    requires forall line | line in chain :: !IsLegacy(line, port)
    ensures forall line | line in Inline(lines, chain) :: !IsLegacy(line, port)
  {
    if lines != [] {
      assert lines[0] in lines;
      assert forall line | line in lines[1..] :: line in lines;
      InlineHoldsNoCopy(lines[1..], chain, port);
    }
  }

  /** The scoped rule and the blank line survive the dropping of unscoped allows. */
  lemma RestOfTail(lines: seq<string>, port: Port)
    ensures Rest([""], Unscoped(lines, port)) == [""]
    ensures Rest([ScopedLine(port), ""], Unscoped(lines, port)) == [ScopedLine(port), ""]
  {
    var s, u := ScopedLine(port), Unscoped(lines, port);
    BlankLineIsNothing(port);
    ScopedLineFacts(port);
    if TrimSpace("") in u {
      UnscopedTextIsUnscoped("", lines, port);
    }
    if TrimSpace(s) in u {
      UnscopedTextIsUnscoped(s, lines, port);
    }
    assert Rest([""][1..], u) == [];
    assert [s, ""][1..] == [""];
  }

  /** The rest of the walk at any stage of the replacement, from that of the host
      setup found. */
  lemma RestOfStage(h: Host, g: Host, appended: bool, copies: nat, port: Port)
    requires Stage(h, g, appended, copies, port)
    ensures Decide(RestWalk(g, port), port).state
         == if appended && !QualifiedJumpIn(h) && Decide(RestWalk(h, port), port).state == Absent then Present
            else Decide(RestWalk(h, port), port).state
  {
    var before, after := InputLines(h), InputLines(g);
    StageIsReplaced(h, g, appended, copies, port);
    BareWalkHoldsNoCopy(g, port);
    SameRest(BareWalk(g, port), before, after, port);
    BareRest(h, port);
    BareRest(g, port);
    BareWalkOfStage(h, g, appended, copies, port);
    if appended && !QualifiedJumpIn(h) {
      RestWithTail(Inline(FlatAll(Kept(h.input, port)), ChainOf(h)), before, port);
    }
  }

  lemma RestWithTail(front: seq<string>, lines: seq<string>, port: Port)
    ensures var u := Unscoped(lines, port);
            Decide(Rest(front + [ScopedLine(port), ""], u), port).state
            == if Decide(Rest(front + [""], u), port).state == Absent then Present else Decide(Rest(front + [""], u), port).state
  {
    var u := Unscoped(lines, port);
    RestOfTail(lines, port);
    RestOfConcat(front, [""], u);
    RestOfConcat(front, [ScopedLine(port), ""], u);
    DecideOfTail(Rest(front, u), port);
  }

  /** The second run over a replacement. */
  lemma ReplacementSecondRun(h: Host, g: Host, port: Port)
    requires Replaces(h, port) && Stage(h, g, !ReadIptables(h, port).scoped, 0, port)
    ensures FirewallPlan(g, port).commands == [] <==> Settles(h, port)
  {
    var appended := !ReadIptables(h, port).scoped;
    StageIsReplaced(h, g, appended, 0, port);
    LinesOf(g, port);
    SameForeign(InputLines(h), InputLines(g), port);
    RestOfStage(h, g, appended, 0, port);
    BareWalkNarrows(g, port);
    StagePresent(h, g, 0, port);
    PresentIsCovered(h, port);
    PresentIsCovered(g, port);
    BareWalkOfStage(h, g, appended, 0, port);
    BareWalkAnswers(h, g, appended, 0, port);
    if ReadIptables(h, port).scoped {
      ScopedCoversBareWalk(h, port);
    }
    UndecidedWalk(g, port);
  }

  lemma UndecidedWalk(h: Host, port: Port)
    ensures ReadIptables(h, port).state == Absent ==> Decide(Walk(h), port).state == Absent && !QualifiedJumpIn(h)
  {
    if Readable(h) {
      WalkedIsInline(InputLines(h), h.tsInput);
    }
  }

  /** The rule appended to an undecided INPUT decides the port. */
  lemma AppendDecides(h: Host, g: Host, port: Port)
    requires WellPrinted(h) && ReadIptables(h, port).state == Absent
    requires Stage(h, g, true, 0, port) && g.input == h.input + [ScopedLine(port)] && CopiesIn(h.input, port) == 0
    ensures ReadIptables(g, port) == DecidedRead(InputLines(g), Walk(g), port)
    ensures ReadIptables(g, port).state == Present
  {
    UndecidedWalk(h, port);
    LinesOf(h, port);
    LinesOf(g, port);
    AppendedRule(h.input, port);
    var lines := FlatAll(h.input);
    assert InputLines(g) == lines + [ScopedLine(port)] + [""];
    BeforeJumpOfConcat(lines, [""]);
    WalkOfAppended(lines, ChainOf(h), port);
    DivertedOfStage(h, g, true, 0, port);
    PresentIsCovered(g, port);
  }

  /** The second run over an appended rule: it decides what nothing decided. */
  lemma AppendSecondRun(h: Host, port: Port)
    requires WellPrinted(h) && h.elevated && !h.hasUfw && h.hasIptables && ReadFirewall(h, port).state == Absent
    ensures Accepts(h, Iptables(ScopedRule(port)))
    ensures FirewallPlan(Effect(h, Iptables(ScopedRule(port))), port).commands == []
  {
    AppendStage(h, port);
    var g := Effect(h, Iptables(ScopedRule(port)));
    AbsentIptablesHoldsNothing(h, port);
    LinesOf(h, port);
    LinesOf(g, port);
    AppendDecides(h, g, port);
    NothingForeign(h, g, port);
    SettledRead(ReadFirewall(g, port), port);
  }

  lemma SettledRead(read: FirewallRead, port: Port)
    requires read.state == Present && read.copies == 0 && read.foreign == []
    ensures PlanFor(read, port).commands == []
  {}

  lemma NothingForeign(h: Host, g: Host, port: Port)
    requires Stage(h, g, true, 0, port) && ReadIptables(h, port).state == Absent
    ensures Foreign(Unscoped(InputLines(g), port), port) == []
  {
    AbsentIptablesHoldsNothing(h, port);
    StageIsReplaced(h, g, true, 0, port);
    SameForeign(InputLines(h), InputLines(g), port);
  }

  /** The second run over an allow added to ufw. */
  lemma UfwSecondRun(h: Host, port: Port)
    requires h.elevated && h.hasUfw && ReadFirewall(h, port).state == Absent
    ensures Accepts(h, UfwAllow(AllowArgument(port)))
    ensures FirewallPlan(Effect(h, UfwAllow(AllowArgument(port))), port).commands == []
  {
    var line := AddedLine(AllowArgument(port));
    assert line == AllowLine(port);
    AllowLineAdmits(port);
    UfwDecideOfConcat(h.ufwAdded.value, [line], port);
    assert UfwDecide([line], port).state == Present;
    var g := Effect(h, UfwAllow(AllowArgument(port)));
    if line in h.ufwAdded.value {
      UfwDecidedByMember(h.ufwAdded.value, line, port);
    }
  }

  lemma {:induction false} UfwDecidedByMember(lines: seq<string>, line: string, port: Port)
    requires line in lines && UfwVerdict(line, port).state != Absent
    ensures UfwDecide(lines, port).state != Absent
  {
    if lines[0] != line {
      UfwDecidedByMember(lines[1..], line, port);
    }
  }

  lemma LegacySecondRun(h: Host, port: Port)
    requires Replaces(h, port)
    ensures AcceptsAll(h, FirewallPlan(h, port).commands)
    ensures FirewallPlan(After(h, FirewallPlan(h, port).commands), port).commands == [] <==> Settles(h, port)
  {
    var read := ReadFirewall(h, port);
    var cs := LegacyCommands(read, port);
    PresentIsCovered(h, port);
    LinesOf(h, port);
    ReplacementStage(h, read, port, |cs|);
    assert cs[..|cs|] == cs;
    if |cs| == 0 {
      StageStart(h, port);
    }
    ReplacementSecondRun(h, After(h, cs), port);
  }

  lemma OneCommand(h: Host, c: Command)
    requires Accepts(h, c)
    ensures AcceptsAll(h, [c]) && After(h, [c]) == Effect(h, c)
  {
    assert [c][1..] == [];
  }

  /** Every command of the firewall step succeeds on the host it read, and a
      second run issues none exactly when Settles held. */
  lemma FirewallSecondRun(h: Host, port: Port)
    requires WellPrinted(h)
    ensures AcceptsAll(h, FirewallPlan(h, port).commands)
    ensures FirewallPlan(After(h, FirewallPlan(h, port).commands), port).commands == [] <==> Settles(h, port)
  {
    var read := ReadFirewall(h, port);
    if HoldsLegacy(read) && !InactiveUfwDecides(read) {
      LegacySecondRun(h, port);
    } else if FirewallPlan(h, port).commands != [] {
      if h.hasUfw {
        UfwSecondRun(h, port);
        OneCommand(h, UfwAllow(AllowArgument(port)));
      } else {
        AppendSecondRun(h, port);
        OneCommand(h, Iptables(ScopedRule(port)));
      }
    }
  }
}
