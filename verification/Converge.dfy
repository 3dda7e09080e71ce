/** What setup's firewall commands do to the answer for the port, command by
    command, and when a second run has nothing left to do. */
module Converge {
  import opened Text
  import opened IptRules
  import opened IptDecide
  import opened IptLegacy
  import opened Ufw
  import opened HostState
  import opened LinuxSetup

  // ------------------------------------------------------- the rules of INPUT

  /** The rules without the copies of the unscoped one. */
  function Kept(rules: seq<string>, port: Port): seq<string> {
    if rules == [] then []
    else if IsLegacy(Flat(rules[0]), port) then Kept(rules[1..], port)
    else [rules[0]] + Kept(rules[1..], port)
  }

  function CopiesIn(rules: seq<string>, port: Port): nat {
    LegacyCopies(FlatAll(rules), port)
  }

  lemma {:induction false} KeptLines(rules: seq<string>, port: Port)
    ensures FlatAll(Kept(rules, port)) == StripLegacy(FlatAll(rules), port)
  {
    if rules == [] {
    } else {
      KeptLines(rules[1..], port);
      assert FlatAll(rules)[0] == Flat(rules[0]) && FlatAll(rules)[1..] == FlatAll(rules[1..]);
      if !IsLegacy(Flat(rules[0]), port) {
        assert FlatAll([rules[0]] + Kept(rules[1..], port)) == [Flat(rules[0])] + FlatAll(Kept(rules[1..], port));
      }
    }
  }

  lemma {:induction false} KeptOfConcat(a: seq<string>, b: seq<string>, port: Port)
    ensures Kept(a + b, port) == Kept(a, port) + Kept(b, port)
  {
    if a == [] {
      assert a + b == b;
    } else {
      assert (a + b)[1..] == a[1..] + b;
      KeptOfConcat(a[1..], b, port);
    }
  }

  /** What `-D` names is the unscoped rule. */
  lemma DeleteNamesLegacy(port: Port)
    ensures IsDelete(DeleteCommand(port)) && DeletedWords(DeleteCommand(port)) == LegacyWords(Itoa(port))
    ensures !IsAppend(DeleteCommand(port))
  {
    PrintedForms(port);
    assert ["-A"] + DeleteCommand(port)[1..] == LegacyRule(port);
  }

  lemma AppendAddsScoped(port: Port)
    ensures IsAppend(ScopedRule(port)) && Join(Printed(ScopedRule(port)), ' ') == ScopedLine(port)
  {
    PrintedForms(port);
  }

  /** One delete removes one copy and nothing else. */
  lemma {:induction false} DeleteRemovesOneCopy(rules: seq<string>, port: Port)
    requires CopiesIn(rules, port) > 0
    ensures var left := DeleteFirst(rules, LegacyWords(Itoa(port)));
            && CopiesIn(left, port) == CopiesIn(rules, port) - 1
            && Kept(left, port) == Kept(rules, port)
            && (AllWhole(rules) ==> AllWhole(left))
    ensures Holds(rules, LegacyWords(Itoa(port)))
  {
    var words := LegacyWords(Itoa(port));
    var rest := DeleteFirst(rules[1..], words);
    CopiesOfRules(rules[0], rules[1..], port);
    assert rules == [rules[0]] + rules[1..];
    if Matches(rules[0], words) {
      assert rules[0] in rules;
    } else {
      DeleteRemovesOneCopy(rules[1..], port);
      CopiesOfRules(rules[0], rest, port);
    }
  }

  lemma CopiesOfRules(rule: string, rest: seq<string>, port: Port)
    ensures CopiesIn([rule] + rest, port) == (if IsLegacy(Flat(rule), port) then 1 else 0) + CopiesIn(rest, port)
    ensures Kept([rule] + rest, port) == (if IsLegacy(Flat(rule), port) then [] else [rule]) + Kept(rest, port)
  {
    var rules := [rule] + rest;
    assert rules[1..] == rest;
    assert FlatAll(rules)[0] == Flat(rule) && FlatAll(rules)[1..] == FlatAll(rest);
  }

  lemma {:induction false} NoCopyKeepsAll(rules: seq<string>, port: Port)
    requires CopiesIn(rules, port) == 0
    ensures Kept(rules, port) == rules
  {
    if rules != [] {
      assert FlatAll(rules)[0] == Flat(rules[0]) && FlatAll(rules)[1..] == FlatAll(rules[1..]);
      NoCopyKeepsAll(rules[1..], port);
    }
  }

  // ---------------------------------------------------------- replacing, staged

  /** g is h some commands into the replacement: the rules other than the copies
      are h's, in order, followed by the scoped rule once appended, and copies
      of the unscoped rule are left. */
  predicate Stage(h: Host, g: Host, appended: bool, copies: nat, port: Port) {
    && g == h.(input := g.input)
    && WellPrinted(h) && WellPrinted(g)
    && CopiesIn(g.input, port) == copies
    && Kept(g.input, port) == Kept(h.input, port) + (if appended then [ScopedLine(port)] else [])
  }

  lemma AppendStage(h: Host, port: Port)
    requires WellPrinted(h) && h.hasIptables
    ensures Accepts(h, Iptables(ScopedRule(port)))
    ensures Effect(h, Iptables(ScopedRule(port))) == h.(input := h.input + [ScopedLine(port)])
    ensures Stage(h, Effect(h, Iptables(ScopedRule(port))), true, CopiesIn(h.input, port), port)
  {
    AppendAddsScoped(port);
    AppendedRule(h.input, port);
  }

  lemma AppendedRule(rules: seq<string>, port: Port)
    requires AllWhole(rules)
    ensures var out := rules + [ScopedLine(port)];
            AllWhole(out) && CopiesIn(out, port) == CopiesIn(rules, port)
            && Kept(out, port) == Kept(rules, port) + [ScopedLine(port)]
            && FlatAll(out) == FlatAll(rules) + [ScopedLine(port)]
  {
    var s := ScopedLine(port);
    ScopedLineIsFlat(port);
    ScopedLineFacts(port);
    KeptOfConcat(rules, [s], port);
    assert Kept([s], port) == [s] by { assert Kept([s][1..], port) == []; }
    assert FlatAll(rules + [s]) == FlatAll(rules) + [s];
    StripOfConcat(FlatAll(rules), [s], port);
    assert LegacyCopies([s], port) == 0 by { assert LegacyCopies([s][1..], port) == 0; }
  }

  lemma DeleteStage(h: Host, g: Host, appended: bool, copies: nat, port: Port)
    requires Stage(h, g, appended, copies, port) && copies > 0 && h.hasIptables
    ensures Accepts(g, Iptables(DeleteCommand(port)))
    ensures Stage(h, Effect(g, Iptables(DeleteCommand(port))), appended, copies - 1, port)
  {
    DeleteNamesLegacy(port);
    DeleteRemovesOneCopy(g.input, port);
  }

  /** Every delete of the replacement finds its copy. */
  lemma {:induction false} DeleteStages(h: Host, g: Host, appended: bool, copies: nat, port: Port, k: nat)
    requires Stage(h, g, appended, copies, port) && h.hasIptables && k <= copies
    ensures AcceptsAll(g, Repeat(Iptables(DeleteCommand(port)), k))
    ensures Stage(h, After(g, Repeat(Iptables(DeleteCommand(port)), k)), appended, copies - k, port)
    decreases k
  {
    if k > 0 {
      DeleteStage(h, g, appended, copies, port);
      var c := Iptables(DeleteCommand(port));
      assert Repeat(c, k)[1..] == Repeat(c, k - 1);
      DeleteStages(h, Effect(g, c), appended, copies - 1, port, k - 1);
    }
  }

  lemma {:induction false} PrefixOfRepeat(c: Command, n: nat, k: nat)
    requires k <= n
    ensures Repeat(c, n)[..k] == Repeat(c, k)
  {}

  lemma PrefixOfCommands(read: FirewallRead, port: Port, k: nat)
    requires k <= |LegacyCommands(read, port)|
    ensures LegacyCommands(read, port)[..k] ==
            if read.scoped then Repeat(Iptables(DeleteCommand(port)), k)
            else if k == 0 then []
            else [Iptables(ScopedRule(port))] + Repeat(Iptables(DeleteCommand(port)), k - 1)
  {
    var d := Iptables(DeleteCommand(port));
    if read.scoped {
      PrefixOfRepeat(d, read.copies, k);
      assert LegacyCommands(read, port) == Repeat(d, read.copies);
    } else if k > 0 {
      PrefixOfRepeat(d, read.copies, k - 1);
    }
  }

  /** How many copies are left after the first k commands. */
  function CopiesLeft(read: FirewallRead, k: nat): nat
    requires k <= read.copies + (if read.scoped then 0 else 1)
  {
    var appends := if read.scoped then 0 else 1;
    if k <= appends then read.copies else read.copies - (k - appends)
  }

  lemma OneThenRest(h: Host, c: Command, cs: seq<Command>)
    requires Accepts(h, c) && AcceptsAll(Effect(h, c), cs)
    ensures AcceptsAll(h, [c] + cs) && After(h, [c] + cs) == After(Effect(h, c), cs)
  {
    assert ([c] + cs)[1..] == cs;
  }

  lemma AppendThenDeletes(h: Host, port: Port, k: nat)
    requires WellPrinted(h) && h.hasIptables && k <= CopiesIn(h.input, port)
    ensures var cs := [Iptables(ScopedRule(port))] + Repeat(Iptables(DeleteCommand(port)), k);
            AcceptsAll(h, cs) && Stage(h, After(h, cs), true, CopiesIn(h.input, port) - k, port)
  {
    var c, ds := Iptables(ScopedRule(port)), Repeat(Iptables(DeleteCommand(port)), k);
    AppendStage(h, port);
    DeleteStages(h, Effect(h, c), true, CopiesIn(h.input, port), port, k);
    OneThenRest(h, c, ds);
  }

  /** The host after the first k commands of the replacement. */
  lemma ReplacementStage(h: Host, read: FirewallRead, port: Port, k: nat)
    requires WellPrinted(h) && h.hasIptables && read.copies == CopiesIn(h.input, port)
    requires k <= |LegacyCommands(read, port)|
    ensures AcceptsAll(h, LegacyCommands(read, port)[..k])
    ensures Stage(h, After(h, LegacyCommands(read, port)[..k]), k >= 1 && !read.scoped, CopiesLeft(read, k), port)
  {
    PrefixOfCommands(read, port, k);
    if read.scoped {
      DeletesAlone(h, port, k);
    } else if k > 0 {
      AppendThenDeletes(h, port, k - 1);
    } else {
      StageStart(h, port);
    }
  }

  lemma DeletesAlone(h: Host, port: Port, k: nat)
    requires WellPrinted(h) && h.hasIptables && k <= CopiesIn(h.input, port)
    ensures var cs := Repeat(Iptables(DeleteCommand(port)), k);
            AcceptsAll(h, cs) && Stage(h, After(h, cs), false, CopiesIn(h.input, port) - k, port)
  {
    StageStart(h, port);
    DeleteStages(h, h, false, CopiesIn(h.input, port), port, k);
  }

  lemma StageStart(h: Host, port: Port)
    requires WellPrinted(h)
    ensures Stage(h, h, false, CopiesIn(h.input, port), port)
  {
    assert Kept(h.input, port) + [] == Kept(h.input, port);
  }

  // ------------------------------------------------- what each stage answers

  function ChainOf(h: Host): seq<string> {
    if h.tsInput.ChainRules? then ChainLines(h.tsInput.rules) else []
  }

  /** The walk of readIptables, the chain inlined. */
  function Walk(h: Host): seq<string> {
    Inline(BeforeJump(InputLines(h)), ChainOf(h))
  }

  /** The same walk with every copy of the unscoped rule out of INPUT. */
  function BareWalk(h: Host, port: Port): seq<string> {
    Inline(BeforeJump(StripLegacy(InputLines(h), port)), ChainOf(h))
  }

  predicate Readable(h: Host) {
    h.inputReadable && (Diverted(InputLines(h)) ==> h.tsInput.ChainRules?)
  }

  predicate QualifiedJumpIn(h: Host) {
    HasQualifiedJump(InputLines(h))
  }

  lemma PresentIsCovered(h: Host, port: Port)
    ensures ReadIptables(h, port).state == Present <==> Readable(h) && Covers(Walk(h), port)
    ensures ReadIptables(h, port).state == Present ==>
              ReadIptables(h, port) == DecidedRead(InputLines(h), Walk(h), port)
  {
    if Readable(h) {
      WalkedIsInline(InputLines(h), h.tsInput);
    }
  }

  lemma LinesOf(h: Host, port: Port)
    requires WellPrinted(h)
    ensures InputLines(h) == FlatAll(h.input) + [""]
    ensures LegacyCopies(InputLines(h), port) == CopiesIn(h.input, port)
    ensures StripLegacy(InputLines(h), port) == FlatAll(Kept(h.input, port)) + [""]
  {
    RulesOfListing(h.input);
    StripOfConcat(FlatAll(h.input), [""], port);
    assert !IsLegacy("", port) by { assert Fields("") == []; }
    assert StripLegacy([""], port) == [""] && LegacyCopies([""], port) == 0 by {
      assert [""][1..] == [];
    }
    KeptLines(h.input, port);
  }

  lemma FlatOfAppended(rules: seq<string>, port: Port)
    ensures FlatAll(rules + [ScopedLine(port)]) == FlatAll(rules) + [ScopedLine(port)]
  {
    ScopedLineIsFlat(port);
  }

  lemma NothingAppended(rules: seq<string>)
    ensures rules + [] == rules
  {}

  /** The lines of INPUT other than copies, at a stage. */
  lemma StageLines(h: Host, g: Host, appended: bool, copies: nat, port: Port)
    requires Stage(h, g, appended, copies, port)
    ensures StripLegacy(InputLines(g), port)
         == FlatAll(Kept(h.input, port)) + (if appended then [ScopedLine(port)] else []) + [""]
  {
    LinesOf(g, port);
    if appended {
      FlatOfAppended(Kept(h.input, port), port);
    } else {
      NothingAppended(Kept(h.input, port));
      NothingAppended(FlatAll(Kept(h.input, port)));
    }
  }

  lemma BlankLineIsNothing(port: Port)
    ensures Verdict("", port) == NOT_DECIDED && !QualifiedJump("") && !TSInputJump("") && !OffTailnet("") && !IsUnscoped("", port)
    ensures TrimSpace("") == ""
  {
    assert Words("") == [];
    assert Fields("") == [];
  }

  /** Appending the scoped rule to INPUT appends it to the walk, unless a
      qualified jump ends the walk before it. */
  lemma {:induction false} BareWalkOfStage(h: Host, g: Host, appended: bool, copies: nat, port: Port)
    requires Stage(h, g, appended, copies, port)
    ensures QualifiedJumpIn(g) == QualifiedJumpIn(h)
    ensures appended && !QualifiedJumpIn(h) ==>
              var front := Inline(FlatAll(Kept(h.input, port)), ChainOf(h));
              BareWalk(h, port) == front + [""] && BareWalk(g, port) == front + [ScopedLine(port), ""]
    ensures !appended || QualifiedJumpIn(h) ==> BareWalk(g, port) == BareWalk(h, port)
  {
    if appended {
      BareWalkOfAppended(h, g, copies, port);
    } else {
      BareWalkOfSame(h, g, copies, port);
    }
  }

  lemma {:induction false} BareWalkOfSame(h: Host, g: Host, copies: nat, port: Port)
    requires Stage(h, g, false, copies, port)
    ensures QualifiedJumpIn(g) == QualifiedJumpIn(h) && BareWalk(g, port) == BareWalk(h, port)
  {
    LinesOf(h, port);
    StageLines(h, g, false, copies, port);
    NothingAppended(FlatAll(Kept(h.input, port)));
    BeforeJumpOfStripped(InputLines(h), port);
    BeforeJumpOfStripped(InputLines(g), port);
  }

  lemma {:induction false} BareWalkOfAppended(h: Host, g: Host, copies: nat, port: Port)
    requires Stage(h, g, true, copies, port)
    ensures QualifiedJumpIn(g) == QualifiedJumpIn(h)
    ensures !QualifiedJumpIn(h) ==>
              var front := Inline(FlatAll(Kept(h.input, port)), ChainOf(h));
              BareWalk(h, port) == front + [""] && BareWalk(g, port) == front + [ScopedLine(port), ""]
    ensures QualifiedJumpIn(h) ==> BareWalk(g, port) == BareWalk(h, port)
  {
    LinesOf(h, port);
    StageLines(h, g, true, copies, port);
    BeforeJumpOfStripped(InputLines(h), port);
    BeforeJumpOfStripped(InputLines(g), port);
    KeptWalks(FlatAll(Kept(h.input, port)), ChainOf(h), port);
  }

  /** The walk over kept lines, with and without the scoped rule at their end. */
  lemma KeptWalks(kept: seq<string>, chain: seq<string>, port: Port)
    ensures HasQualifiedJump(kept + [""]) == HasQualifiedJump(kept + [ScopedLine(port)] + [""]) == HasQualifiedJump(kept)
    ensures Inline(BeforeJump(kept + [""]), chain)
         == if HasQualifiedJump(kept) then Inline(BeforeJump(kept), chain) else Inline(kept, chain) + [""]
    ensures Inline(BeforeJump(kept + [ScopedLine(port)] + [""]), chain)
         == if HasQualifiedJump(kept) then Inline(BeforeJump(kept), chain) else Inline(kept, chain) + [ScopedLine(port), ""]
  {
    var s := ScopedLine(port);
    PlainTail(port, chain);
    WalkOfTail(kept, [s, ""], chain);
    WalkOfTail(kept, [""], chain);
    assert kept + [s] + [""] == kept + [s, ""];
  }

  lemma PlainTail(port: Port, chain: seq<string>)
    ensures var tail := [ScopedLine(port), ""]; BeforeJump(tail) == tail == Inline(tail, chain) && !HasQualifiedJump(tail)
    ensures BeforeJump([""]) == [""] == Inline([""], chain) && !HasQualifiedJump([""])
    ensures forall line | line in [ScopedLine(port), ""] :: !TSInputJump(line)
  {
    BlankLineIsNothing(port);
    ScopedLineFacts(port);
    TailIsPlain(ScopedLine(port), chain);
  }

  lemma WalkOfTail(kept: seq<string>, tail: seq<string>, chain: seq<string>)
    requires BeforeJump(tail) == tail == Inline(tail, chain) && !HasQualifiedJump(tail)
    ensures HasQualifiedJump(kept + tail) == HasQualifiedJump(kept)
    ensures Inline(BeforeJump(kept + tail), chain)
         == if HasQualifiedJump(kept) then Inline(BeforeJump(kept), chain) else Inline(kept, chain) + tail
  {
    BeforeJumpOfConcat(kept, tail);
    InlineOfConcat(kept, tail, chain);
  }

  /** A stage diverts as the host did. */
  lemma DivertedOfStage(h: Host, g: Host, appended: bool, copies: nat, port: Port)
    requires Stage(h, g, appended, copies, port)
    ensures Diverted(InputLines(g)) == Diverted(InputLines(h))
  {
    LinesOf(h, port);
    StageLines(h, g, appended, copies, port);
    DivertedOfStripped(InputLines(h), port);
    DivertedOfStripped(InputLines(g), port);
    KeptDiverts(FlatAll(Kept(h.input, port)), port);
    NothingAppended(FlatAll(Kept(h.input, port)));
  }

  lemma KeptDiverts(kept: seq<string>, port: Port)
    ensures Diverted(kept + [""]) == Diverted(kept + [ScopedLine(port)] + [""])
  {
    var s := ScopedLine(port);
    PlainTail(port, []);
    assert forall line | line in [""] :: line in [s, ""];
    DivertedOfTail(kept, [s, ""]);
    DivertedOfTail(kept, [""]);
    assert kept + [s] + [""] == kept + [s, ""];
  }

  lemma TailIsPlain(s: string, chain: seq<string>)
    requires !QualifiedJump(s) && !TSInputJump(s) && !QualifiedJump("") && !TSInputJump("")
    ensures BeforeJump([s, ""]) == [s, ""] == Inline([s, ""], chain) && !HasQualifiedJump([s, ""])
    ensures BeforeJump([""]) == [""] == Inline([""], chain) && !HasQualifiedJump([""])
  {
    assert [s, ""][1..] == [""] && [""][1..] == [];
    assert BeforeJump([]) == [] == Inline([], chain);
  }

  /** The copies are no jump, so taking them out diverts the same. */
  lemma DivertedOfStripped(lines: seq<string>, port: Port)
    ensures Diverted(StripLegacy(lines, port)) == Diverted(lines)
  {
    BeforeJumpOfStripped(lines, port);
    StripKeepsJumps(BeforeJump(lines), port);
  }

  lemma {:induction false} StripKeepsJumps(lines: seq<string>, port: Port)
    ensures (exists line | line in StripLegacy(lines, port) :: TSInputJump(line)) <==> (exists line | line in lines :: TSInputJump(line))
  {
    if lines != [] {
      StripKeepsJumps(lines[1..], port);
      assert lines == [lines[0]] + lines[1..];
      if IsLegacy(lines[0], port) {
        LegacyJumpsNowhere(lines[0], port);
      }
    }
  }

  lemma DivertedOfTail(kept: seq<string>, tail: seq<string>)
    requires BeforeJump(tail) == tail && forall line | line in tail :: !TSInputJump(line)
    ensures Diverted(kept + tail) <==> exists line | line in BeforeJump(kept) :: TSInputJump(line)
  {
    BeforeJumpOfConcat(kept, tail);
    if !HasQualifiedJump(kept) {
      BeforeNoJump(kept);
    }
  }

  /** With the copies still in it the walk covers at least what it covers bare. */
  lemma BareWalkNarrows(h: Host, port: Port)
    ensures Covers(BareWalk(h, port), port) ==> Covers(Walk(h), port)
    ensures LegacyCopies(InputLines(h), port) == 0 ==> Walk(h) == BareWalk(h, port)
  {
    var lines := InputLines(h);
    BeforeJumpOfStripped(lines, port);
    StripWidens(BeforeJump(lines), port);
    WidensInlined(StripLegacy(BeforeJump(lines), port), BeforeJump(lines), ChainOf(h));
    WideningKeepsPresent(BareWalk(h, port), Walk(h), port);
    if LegacyCopies(lines, port) == 0 {
      StripOfNone(lines, port);
    }
  }

  // ------------------------------------------------------- never closed, exactly

  /** The condition under which replacing the copies keeps the port open: a
      scoped rule already admits it, or the walk without the copies does, or
      that walk decides nothing and the rule appended is reached. */
  predicate KeepsOpen(h: Host, port: Port) {
    || ReadIptables(h, port).scoped
    || Covers(BareWalk(h, port), port)
    || (Decide(BareWalk(h, port), port).state == Absent && !QualifiedJumpIn(h))
  }

  /** A host whose firewall setup replaces copies of the unscoped rule. */
  predicate Replaces(h: Host, port: Port) {
    && WellPrinted(h) && h.elevated && !h.hasUfw && h.hasIptables
    && HoldsLegacy(ReadFirewall(h, port))
  }

  /** A scoped rule, once seen, admits the port with every copy gone. */
  lemma ScopedCoversBareWalk(h: Host, port: Port)
    requires ReadIptables(h, port).state == Present && ReadIptables(h, port).scoped
    ensures Covers(BareWalk(h, port), port)
  {
    var lines := InputLines(h);
    var u := Unscoped(lines, port);
    PresentIsCovered(h, port);
    BeforeJumpOfStripped(lines, port);
    BeforeJumpIsPart(lines);
    RestOfStripped(BeforeJump(lines), lines, ChainOf(h), port);
    UnscopedAreAcceptTexts(lines, port);
    RestWidens(BareWalk(h, port), u);
    WideningKeepsPresent(Rest(BareWalk(h, port), u), BareWalk(h, port), port);
  }

  lemma {:induction false} BeforeJumpIsPart(lines: seq<string>)
    ensures forall line | line in BeforeJump(lines) :: line in lines
  {
    if lines != [] {
      BeforeJumpIsPart(lines[1..]);
    }
  }

  /** Dropping the unscoped allows from a walk drops the copies with them. */
  lemma {:induction false} RestOfStripped(part: seq<string>, lines: seq<string>, chain: seq<string>, port: Port)
    requires forall line | line in part :: line in lines
    ensures Rest(Inline(StripLegacy(part, port), chain), Unscoped(lines, port)) == Rest(Inline(part, chain), Unscoped(lines, port))
  {
    UnscopedTexts(lines, port);
    if part != [] {
      var u, head := Unscoped(lines, port), part[0];
      assert head in lines;
      assert forall line | line in part[1..] :: line in part;
      RestOfStripped(part[1..], lines, chain, port);
      var block := if TSInputJump(head) then chain else [head];
      assert Inline(part, chain) == block + Inline(part[1..], chain);
      RestOfConcat(block, Inline(part[1..], chain), u);
      if IsLegacy(head, port) {
        LegacyLine(head, port);
        assert Rest([head], u) == [] by { assert Rest([head][1..], u) == []; }
      } else {
        var rest := StripLegacy(part[1..], port);
        assert StripLegacy(part, port) == [head] + rest;
        assert Inline(StripLegacy(part, port), chain) == block + Inline(rest, chain);
        RestOfConcat(block, Inline(rest, chain), u);
      }
    }
  }

  lemma DecideOfTail(front: seq<string>, port: Port)
    ensures Decide(front + [""], port).state == Decide(front, port).state
    ensures Decide(front + [ScopedLine(port), ""], port).state
         == if Decide(front, port).state == Absent then Present else Decide(front, port).state
  {
    BlankLineIsNothing(port);
    ScopedLineFacts(port);
    DecideOfConcat(front, [""], port);
    DecideOfConcat(front, [ScopedLine(port), ""], port);
    assert Decide([""], port) == NOT_DECIDED by { assert Decide([""][1..], port) == NOT_DECIDED; }
  }

  /** What the bare walk answers at a stage. */
  lemma BareWalkAnswers(h: Host, g: Host, appended: bool, copies: nat, port: Port)
    requires Stage(h, g, appended, copies, port)
    ensures Decide(BareWalk(g, port), port).state
         == if appended && !QualifiedJumpIn(h) && Decide(BareWalk(h, port), port).state == Absent then Present
            else Decide(BareWalk(h, port), port).state
  {
    BareWalkOfStage(h, g, appended, copies, port);
    if appended && !QualifiedJumpIn(h) {
      DecideOfTail(Inline(FlatAll(Kept(h.input, port)), ChainOf(h)), port);
    }
  }

  /** The answer for the port at a stage with the scoped rule in place. */
  lemma StagePresent(h: Host, g: Host, copies: nat, port: Port)
    requires Replaces(h, port) && Stage(h, g, !ReadIptables(h, port).scoped, copies, port)
    ensures KeepsOpen(h, port) ==> ReadFirewall(g, port).state == Present
    ensures copies == 0 && ReadFirewall(g, port).state == Present ==> KeepsOpen(h, port)
  {
    var appended := !ReadIptables(h, port).scoped;
    PresentIsCovered(h, port);
    PresentIsCovered(g, port);
    DivertedOfStage(h, g, appended, copies, port);
    BareWalkAnswers(h, g, appended, copies, port);
    BareWalkNarrows(g, port);
    LinesOf(g, port);
    if ReadIptables(h, port).scoped {
      ScopedCoversBareWalk(h, port);
    }
  }

  /** What appending the scoped rule does to a walk that decides nothing else. */
  lemma WalkOfAppended(lines: seq<string>, chain: seq<string>, port: Port)
    ensures !HasQualifiedJump(lines) ==>
              var before := Decide(Inline(BeforeJump(lines + [""]), chain), port).state;
              Decide(Inline(BeforeJump(lines + [ScopedLine(port)] + [""]), chain), port).state
              == if before == Absent then Present else before
  {
    KeptWalks(lines, chain, port);
    DecideOfTail(Inline(lines, chain), port);
  }

  /** Legacy replacement never closes the port, exactly: after every prefix of
      the commands setup issues the read still answers "present" if and only if
      KeepsOpen held before the first one. */
  lemma ReplacementNeverCloses(h: Host, port: Port)
    requires Replaces(h, port)
    ensures AcceptsAll(h, FirewallPlan(h, port).commands)
    ensures KeepsOpen(h, port) <==>
              forall k | 0 <= k <= |FirewallPlan(h, port).commands| :: PresentAfter(h, FirewallPlan(h, port).commands, k, port)
  {
    var read := ReadFirewall(h, port);
    var cs := LegacyCommands(read, port);
    PresentIsCovered(h, port);
    LinesOf(h, port);
    ReplacementStage(h, read, port, |cs|);
    assert cs[..|cs|] == cs;
    if KeepsOpen(h, port) {
      forall k | 0 <= k <= |cs|
        ensures PresentAfter(h, cs, k, port)
      {
        ReplacementPrefix(h, port, k);
      }
    } else if PresentAfter(h, cs, |cs|, port) {
      StagePresent(h, After(h, cs), 0, port);
    }
  }

  predicate PresentAfter(h: Host, cs: seq<Command>, k: nat, port: Port)
    requires k <= |cs|
  {
    AcceptsAll(h, cs[..k]) && ReadFirewall(After(h, cs[..k]), port).state == Present
  }

  lemma ReplacementPrefix(h: Host, port: Port, k: nat)
    requires Replaces(h, port) && KeepsOpen(h, port)
    requires k <= |LegacyCommands(ReadFirewall(h, port), port)|
    ensures PresentAfter(h, LegacyCommands(ReadFirewall(h, port), port), k, port)
  {
    var read := ReadFirewall(h, port);
    PresentIsCovered(h, port);
    LinesOf(h, port);
    ReplacementStage(h, read, port, k);
    var g := After(h, LegacyCommands(read, port)[..k]);
    if k >= 1 || read.scoped {
      StagePresent(h, g, CopiesLeft(read, k), port);
    } else {
      assert LegacyCommands(read, port)[..k] == [];
    }
  }

  /** At the end no copy is left, and every other rule is kept in order, with
      the scoped rule after them when none admitted the port before. */
  lemma ReplacementLeaves(h: Host, port: Port)
    requires Replaces(h, port)
    ensures AcceptsAll(h, FirewallPlan(h, port).commands)
    ensures var g := After(h, FirewallPlan(h, port).commands);
            && g == h.(input := Kept(h.input, port) + (if ReadFirewall(h, port).scoped then [] else [ScopedLine(port)]))
            && LegacyCopies(InputLines(g), port) == 0
  {
    var read := ReadFirewall(h, port);
    var cs := LegacyCommands(read, port);
    PresentIsCovered(h, port);
    LinesOf(h, port);
    ReplacementStage(h, read, port, |cs|);
    assert cs[..|cs|] == cs;
    StageEnd(h, After(h, cs), !read.scoped, port);
  }

  lemma StageEnd(h: Host, g: Host, appended: bool, port: Port)
    requires Stage(h, g, appended, 0, port)
    ensures g == h.(input := Kept(h.input, port) + (if appended then [ScopedLine(port)] else []))
    ensures LegacyCopies(InputLines(g), port) == 0
  {
    LinesOf(g, port);
    NoCopyKeepsAll(g.input, port);
    assert Kept(h.input, port) + [] == Kept(h.input, port);
  }

  // ------------------------------------------------------ what the copies admit

  lemma {:induction false} KeptHoldsNoCopy(rules: seq<string>, port: Port)
    ensures CopiesIn(Kept(rules, port), port) == 0 && Kept(Kept(rules, port), port) == Kept(rules, port)
    ensures AllWhole(rules) ==> AllWhole(Kept(rules, port))
  {
    if rules != [] {
      var rest := Kept(rules[1..], port);
      KeptHoldsNoCopy(rules[1..], port);
      CopiesOfRules(rules[0], rest, port);
      assert AllWhole(rules) ==> Whole(rules[0]) && AllWhole(rules[1..]);
      assert AllWhole(rest) && Whole(rules[0]) ==> AllWhole([rules[0]] + rest);
    }
  }

  /** Dropping the copies from the walk is walking without them: ts-input holds none. */
  lemma {:induction false} StripOfInline(lines: seq<string>, chain: seq<string>, port: Port)
    requires forall line | line in chain :: !IsLegacy(line, port)
    ensures StripLegacy(Inline(lines, chain), port) == Inline(StripLegacy(lines, port), chain)
  {
    if lines != [] {
      var head := lines[0];
      var block := if TSInputJump(head) then chain else [head];
      StripOfInline(lines[1..], chain, port);
      assert Inline(lines, chain) == block + Inline(lines[1..], chain);
      StripOfConcat(block, Inline(lines[1..], chain), port);
      if TSInputJump(head) {
        StripOfOwn(chain, port);
        JumpIsNoCopy(head, port);
      } else {
        StripOfLine(head, port);
      }
    }
  }

  lemma {:induction false} StripOfOwn(chain: seq<string>, port: Port)
    requires forall line | line in chain :: !IsLegacy(line, port)
    ensures StripLegacy(chain, port) == chain
  {
    if chain != [] {
      assert chain[0] in chain && forall line | line in chain[1..] :: line in chain;
      StripOfOwn(chain[1..], port);
    }
  }

  lemma StripOfLine(line: string, port: Port)
    ensures StripLegacy([line], port) == if IsLegacy(line, port) then [] else [line]
  {
    assert [line][1..] == [];
  }

  lemma JumpIsNoCopy(line: string, port: Port)
    requires TSInputJump(line)
    ensures !IsLegacy(line, port)
  {}

  /** Nothing ts-input lists is a copy. */
  lemma ChainHoldsNoCopy(h: Host, port: Port)
    requires WellPrinted(h)
    ensures forall line | line in ChainOf(h) :: !IsLegacy(line, port)
  {
    forall line | line in ChainOf(h)
      ensures !IsLegacy(line, port)
    {
      assert OwnLine(line);
    }
  }

  /** What copiesAdmit says, exactly: of a port that reads open, on ufw or on
      iptables, that it does not once every copy is gone. */
  lemma CopiesAdmitMeans(h: Host, port: Port)
    requires WellPrinted(h) && ReadFirewall(h, port).state == Present && ReadFirewall(h, port).copies > 0
    ensures var g := h.(input := Kept(h.input, port));
            WellPrinted(g) && (ReadFirewall(g, port).state == Present <==> !ReadFirewall(h, port).copiesAdmit)
  {
    var g := h.(input := Kept(h.input, port));
    KeptHoldsNoCopy(h.input, port);
    assert Kept(h.input, port) + [] == Kept(h.input, port);
    assert Stage(h, g, false, 0, port);
    IptablesCopiesAdmit(h, g, port);
  }

  lemma IptablesCopiesAdmit(h: Host, g: Host, port: Port)
    requires Stage(h, g, false, 0, port)
    ensures ReadIptables(h, port).state == Present && ReadIptables(h, port).copies > 0 ==>
              (ReadIptables(g, port).state == Present <==> !ReadIptables(h, port).copiesAdmit)
  {
    PresentIsCovered(h, port);
    PresentIsCovered(g, port);
    DivertedOfStage(h, g, false, 0, port);
    BareWalkOfSame(h, g, 0, port);
    LinesOf(g, port);
    BareWalkNarrows(g, port);
    BareIsStripped(h, port);
  }

  lemma BareIsStripped(h: Host, port: Port)
    requires WellPrinted(h)
    ensures StripLegacy(Walk(h), port) == BareWalk(h, port)
  {
    ChainHoldsNoCopy(h, port);
    BeforeJumpOfStripped(InputLines(h), port);
    StripOfInline(BeforeJump(InputLines(h)), ChainOf(h), port);
  }
}
