/** Where a replacement that stopped partway can be finished by running setup
    again. */
module Resume {
  import opened Text
  import opened IptRules
  import opened IptDecide
  import opened IptLegacy
  import opened HostState
  import opened LinuxSetup
  import opened Converge
  import opened SecondRun

  /** The host a replacement nothing interrupts leaves (ReplacementLeaves). */
  function Replacement(h: Host, port: Port): Host {
    h.(input := Kept(h.input, port) + (if ReadFirewall(h, port).scoped then [] else [ScopedLine(port)]))
  }

  /** Run again after the replacement's first k commands, setup ends where the
      whole replacement does. */
  predicate RerunFinishes(h: Host, port: Port, k: nat)
    requires k <= |FirewallPlan(h, port).commands|
  {
    var cs := FirewallPlan(h, port).commands;
    AcceptsAll(h, cs[..k]) && Finishes(After(h, cs[..k]), Replacement(h, port), port)
  }

  predicate Finishes(g: Host, end: Host, port: Port) {
    var again := FirewallPlan(g, port).commands;
    AcceptsAll(g, again) && After(g, again) == end
  }

  lemma WholeRunFinishes(h: Host, port: Port)
    requires Replaces(h, port)
    ensures Finishes(h, Replacement(h, port), port)
  {
    ReplacementLeaves(h, port);
  }

  /** A stage at which the rule appended is seen: all that is left is to delete. */
  lemma StageFinishes(h: Host, g: Host, copies: nat, port: Port)
    requires Replaces(h, port) && (ReadFirewall(h, port).scoped || AppendTakesEffect(h, port))
    requires Stage(h, g, !ReadIptables(h, port).scoped, copies, port)
    ensures Finishes(g, Replacement(h, port), port)
  {
    StageSeesScoped(h, g, copies, port);
    LinesOf(g, port);
    PresentIsCovered(g, port);
    if HoldsLegacy(ReadFirewall(g, port)) {
      ReplacementLeaves(g, port);
      NothingAppended(Kept(g.input, port));
    } else {
      NoCopyKeepsAll(g.input, port);
    }
    NothingAppended(Kept(h.input, port));
  }

  lemma StageSeesScoped(h: Host, g: Host, copies: nat, port: Port)
    requires Replaces(h, port) && (ReadFirewall(h, port).scoped || AppendTakesEffect(h, port))
    requires Stage(h, g, !ReadIptables(h, port).scoped, copies, port)
    ensures ReadFirewall(g, port).state == Present && ReadFirewall(g, port).scoped
  {
    if !ReadFirewall(h, port).scoped {
      AppendTakesEffectKeepsOpen(h, port);
    }
    StagePresent(h, g, copies, port);
    PresentIsCovered(h, port);
    PresentIsCovered(g, port);
    RestOfStage(h, g, !ReadIptables(h, port).scoped, copies, port);
  }

  /** Appending never closes a port that reads open. */
  lemma AppendKeepsPresent(h: Host, g: Host, copies: nat, port: Port)
    requires Stage(h, g, true, copies, port) && g.input == h.input + [ScopedLine(port)] && ReadIptables(h, port).state == Present
    ensures ReadIptables(g, port).state == Present
  {
    var lines := FlatAll(h.input);
    PresentIsCovered(h, port);
    PresentIsCovered(g, port);
    DivertedOfStage(h, g, true, copies, port);
    LinesOf(h, port);
    LinesOf(g, port);
    FlatOfAppended(h.input, port);
    KeptWalks(lines, ChainOf(h), port);
    if !HasQualifiedJump(lines) {
      WalkOfAppended(lines, ChainOf(h), port);
    }
  }

  function Appended(h: Host, port: Port): Host {
    h.(input := h.input + [ScopedLine(port)])
  }

  /** Where the rule appended is not seen, a rerun appends another. */
  lemma RerunAppendsAgain(h: Host, port: Port)
    requires Replaces(h, port) && !ReadFirewall(h, port).scoped && !AppendTakesEffect(h, port)
    ensures !Finishes(Appended(h, port), Replacement(h, port), port)
  {
    AppendStage(h, port);
    var g, copies := Appended(h, port), CopiesIn(h.input, port);
    AppendKeepsPresent(h, g, copies, port);
    UnseenAppend(h, g, copies, port);
    ReplacementLeaves(g, port);
  }

  lemma UnseenAppend(h: Host, g: Host, copies: nat, port: Port)
    requires Replaces(h, port) && !ReadFirewall(h, port).scoped && !AppendTakesEffect(h, port)
    requires Stage(h, g, true, copies, port) && copies == CopiesIn(h.input, port) && ReadIptables(g, port).state == Present
    ensures Replaces(g, port) && !ReadFirewall(g, port).scoped
  {
    PresentIsCovered(h, port);
    PresentIsCovered(g, port);
    LinesOf(h, port);
    LinesOf(g, port);
    StageIsReplaced(h, g, true, copies, port);
    SameForeign(InputLines(h), InputLines(g), port);
    RestOfStage(h, g, true, copies, port);
  }

  /** A replacement is resumable, exactly: from every point it can stop at, running
      setup again ends where the whole replacement does, if and only if a scoped
      rule was seen before it or the one it appends takes effect. */
  lemma ReplacementIsResumable(h: Host, port: Port)
    requires Replaces(h, port)
    ensures (forall k | 0 <= k <= |FirewallPlan(h, port).commands| :: RerunFinishes(h, port, k)) <==>
              ReadFirewall(h, port).scoped || AppendTakesEffect(h, port)
  {
    if ReadFirewall(h, port).scoped || AppendTakesEffect(h, port) {
      forall k | 0 <= k <= |FirewallPlan(h, port).commands|
        ensures RerunFinishes(h, port, k)
      {
        PrefixFinishes(h, port, k);
      }
    } else {
      FirstCommandAppends(h, port);
      RerunAppendsAgain(h, port);
      assert !RerunFinishes(h, port, 1);
    }
  }

  lemma FirstCommandAppends(h: Host, port: Port)
    requires Replaces(h, port) && !ReadFirewall(h, port).scoped
    ensures var cs := FirewallPlan(h, port).commands;
            |cs| >= 1 && cs[..1] == [Iptables(ScopedRule(port))]
    ensures AcceptsAll(h, [Iptables(ScopedRule(port))]) && After(h, [Iptables(ScopedRule(port))]) == Appended(h, port)
  {
    AppendStage(h, port);
    OneCommand(h, Iptables(ScopedRule(port)));
  }

  lemma PrefixFinishes(h: Host, port: Port, k: nat)
    requires Replaces(h, port) && (ReadFirewall(h, port).scoped || AppendTakesEffect(h, port))
    requires k <= |FirewallPlan(h, port).commands|
    ensures RerunFinishes(h, port, k)
  {
    var read := ReadFirewall(h, port);
    PresentIsCovered(h, port);
    LinesOf(h, port);
    ReplacementStage(h, read, port, k);
    var cs := FirewallPlan(h, port).commands;
    if k >= 1 || read.scoped {
      StageFinishes(h, After(h, cs[..k]), CopiesLeft(read, k), port);
    } else {
      assert cs[..k] == [];
      WholeRunFinishes(h, port);
    }
  }
}
