/** What setup counts as its own unscoped rule, and when it takes the port for
    admitted without it: conditions on the rules of INPUT and ts-input. */
module LegacyMeans {
  import opened Text
  import opened IptRules
  import opened IptDecide
  import opened IptLegacy
  import opened PortLists
  import opened IptOptions
  import opened IptPrinted
  import opened IptFirstMatch
  import opened IptKinds
  import opened HostState
  import opened LinuxSetup
  import opened Converge
  import opened SecondRun
  import opened InputMeans

  // ------------------------------------------------------------ copies, exactly

  /** The rule earlier versions appended: TCP to the port, from everywhere. */
  function CopyRule(port: Port): Rule {
    Rule("INPUT", None, None, None, Some("tcp"), false, Dest(false, [PortRange(port, port)]), [], None, Accept)
  }

  lemma CopyIsWellFormed(port: Port)
    ensures WellFormed(CopyRule(port))
  {
    LongFlagWords();
    ShortFlagWords();
  }

  lemma CopyWords(port: Port)
    ensures WellFormed(CopyRule(port)) && RuleWords(CopyRule(port)) == LegacyWords(Itoa(port))
  {
    var n := Itoa(port);
    CopyIsWellFormed(port);
    CopyOpts(port);
    FourOptWords(Single("-p", "tcp"), Single("-m", "tcp"), Single("--dport", n), Single("-j", "ACCEPT"));
    assert AllWords(Opts(CopyRule(port))) == ["-p", "tcp", "-m", "tcp", "--dport", n, "-j", "ACCEPT"];
  }

  lemma CopyOpts(port: Port)
    ensures Opts(CopyRule(port)) == [Single("-p", "tcp"), Single("-m", "tcp"), Single("--dport", Itoa(port)), Single("-j", "ACCEPT")]
  {
    var ranges := [PortRange(port, port)];
    assert RangeTexts(ranges) == [Itoa(port)];
    assert PortsText(ranges) == Itoa(port);
  }

  lemma FourOptWords(a: Opt, b: Opt, c: Opt, d: Opt)
    ensures AllWords([a, b, c, d]) == OptWords(a) + OptWords(b) + OptWords(c) + OptWords(d)
  {
    WordsOfConcat([a], [b] + ([c] + [d]));
    WordsOfConcat([b], [c] + [d]);
    WordsOfConcat([c], [d]);
    OneOptWords(a);
    OneOptWords(b);
    OneOptWords(c);
    OneOptWords(d);
    assert [a] + ([b] + ([c] + [d])) == [a, b, c, d];
  }

  lemma OneOptWords(o: Opt)
    ensures AllWords([o]) == OptWords(o)
  {
    assert AllWords([o][1..]) == [];
  }

  lemma AbsentFlag(r: Rule, flag: string)
    requires WellFormed(r) && IsFlag(flag) && flag != "-A" && flag !in RuleWords(r)
    ensures forall o | o in Opts(r) :: o.flag != flag
  {
    FlagOfRule(r, flag);
  }

  lemma NoScopeOpts(r: Rule)
    requires WellFormed(r) && "-s" !in RuleWords(r) && "-d" !in RuleWords(r) && "-i" !in RuleWords(r)
    ensures r.source == None && r.destination == None && r.input == None
  {
    AbsentFlag(r, "-s");
    AbsentFlag(r, "-d");
    AbsentFlag(r, "-i");
    ScopeFlags(r);
    if ScopeOpts(r) != [] {
      assert ScopeOpts(r)[0] in ScopeOpts(r);
      OptsIn(r, ScopeOpts(r)[0]);
    }
  }

  lemma NoSynNorComment(r: Rule)
    requires WellFormed(r) && "--tcp-flags" !in RuleWords(r) && "--comment" !in RuleWords(r)
    ensures !r.syn && r.comment == None
  {
    AbsentFlag(r, "--tcp-flags");
    AbsentFlag(r, "--comment");
    SecondOpts(r);
    if r.syn {
      OptsIn(r, SynOpts(r)[1]);
    }
    if r.comment.Some? {
      OptsIn(r, CommentOpts(r)[1]);
    }
  }

  lemma SecondOpts(r: Rule)
    ensures r.syn ==> |SynOpts(r)| == 2 && SynOpts(r)[1] in SynOpts(r) && SynOpts(r)[1].flag == "--tcp-flags"
    ensures r.comment.Some? ==> |CommentOpts(r)| == 2 && CommentOpts(r)[1] in CommentOpts(r) && CommentOpts(r)[1].flag == "--comment"
    ensures !r.ports.AnyPort? ==>
              |PortOpts(r)| == 2 && PortOpts(r)[1] in PortOpts(r) && PortOpts(r)[1].negated == r.ports.negated
  {}

  lemma OnePort(ranges: seq<PortRange>, port: Port)
    requires |ranges| == 1 && PortsText(ranges) == Itoa(port)
    ensures ranges == [PortRange(port, port)]
  {
    var range := ranges[0];
    assert RangeTexts(ranges) == [RangeText(range)];
    assert RangeText(range) == Itoa(port);
    DigitsOfItoa(port);
    DigitsOfItoa(range.lo);
    ColonInRange(range);
    assert ':' !in Itoa(port);
  }

  lemma ColonInRange(range: PortRange)
    ensures range.lo != range.hi ==> ':' in RangeText(range)
  {}

  lemma NoOtherInCopy(r: Rule, n: string)
    requires WellFormed(r) && Numeral(n) && RuleWords(r) == LegacyWords(n)
    ensures r.others == []
  {
    if r.others != [] {
      var o := r.others[0];
      assert o in r.others;
      OptsIn(r, o);
      OptsOk(r);
      HeadIsPlain(r);
      PairOfWords(Opts(r), o.flag, o.value);
      PairInConcat(Head(r), AllWords(Opts(r)), o.flag, o.value);
      PairsOfLegacy(n, o);
    }
  }

  lemma PairsOfLegacy(n: string, o: Opt)
    requires Numeral(n) && IsOther(o)
    ensures !HasPair(LegacyWords(n), o.flag, o.value)
  {
    var f := LegacyWords(n);
    forall i: nat | i < |f|
      ensures !PairAt(f, i, o.flag, o.value)
    {
    }
  }

  /** A rule whose words are those of a copy names the port and nothing more. */
  lemma PortOfCopy(r: Rule, port: Port)
    requires WellFormed(r) && RuleWords(r) == LegacyWords(Itoa(port))
    ensures r.ports == Dest(false, [PortRange(port, port)])
  {
    var n, f := Itoa(port), RuleWords(r);
    ItoaStartsWithDigit(port);
    LegacyFlags(n);
    DportOfRule(r);
    OnePort(r.ports.ranges, port);
  }

  lemma DportOfRule(r: Rule)
    requires WellFormed(r) && Flag(RuleWords(r), "--dport") != ""
    ensures r.ports.Dest? && !r.ports.negated && |r.ports.ranges| == 1 && Flag(RuleWords(r), "--dport") == PortsText(r.ports.ranges)
  {
    FlagOfRule(r, "--dport");
    DportListed();
    DestValue(r, "--dport");
  }

  lemma DportListed()
    ensures "--dport" in DEST_PORT_FLAGS
  {
    assert DEST_PORT_FLAGS[0] == "--dport";
  }

  lemma LegacyLacks(n: string)
    requires Numeral(n)
    ensures forall w | w in LegacyWords(n) :: w != "-s" && w != "-d" && w != "-i"
    ensures forall w | w in LegacyWords(n) :: w != "--tcp-flags" && w != "--comment"
  {}

  lemma WordsOfCopyOnly(r: Rule, port: Port)
    requires WellFormed(r) && RuleWords(r) == LegacyWords(Itoa(port))
    ensures r == CopyRule(port)
  {
    var n, f := Itoa(port), RuleWords(r);
    ItoaStartsWithDigit(port);
    LegacyFlags(n);
    LegacyLacks(n);
    NoScopeOpts(r);
    NoSynNorComment(r);
    NoOtherInCopy(r, n);
    PortOfCopy(r, port);
    TargetOfCopy(r);
    assert f[1] == r.chain;
  }

  lemma TargetOfCopy(r: Rule)
    requires WellFormed(r) && Flag(RuleWords(r), "-p") == "tcp" && Flag(RuleWords(r), "-j") == "ACCEPT"
    ensures r.proto == Some("tcp") && r.target == Accept
  {
    FlagOfRule(r, "-p");
    ProtoValue(r);
    RuleAccepts(r);
  }

  /** A line counts as a copy exactly where its rule is the one setup appended. */
  lemma CopyLine(r: Rule, port: Port)
    requires WellFormed(r)
    ensures IsLegacy(RuleLine(r), port) <==> r == CopyRule(port)
  {
    LegacyWordsAreWords(Itoa(port));
    CopyWords(port);
    if IsLegacy(RuleLine(r), port) {
      WordsOfUnquoted(RuleLine(r));
      LineWords(r);
      WordsOfCopyOnly(r, port);
    } else if r == CopyRule(port) {
      PlainLine(RuleWords(r), "");
    }
  }

  // ---------------------------------------------------- admitted without copies

  /** An INPUT rule that accepts the named TCP port from everywhere. */
  predicate AllowsAll(r: Rule, port: int) {
    r.chain == "INPUT" && r.target == Accept && NamesPort(r, port) && !IsLocal(r) && !IsScoped(r)
  }

  /** A rule that is no evidence of a scoped allow: an unscoped one, or an ACCEPT
      off the tailnet. */
  predicate Ignored(r: Rule, port: int) {
    AllowsAll(r, port) || (r.target == Accept && FromElsewhere(r))
  }

  function Evidence(rules: seq<Rule>, port: int): seq<Rule> {
    if rules == [] then []
    else if Ignored(rules[0], port) then Evidence(rules[1..], port)
    else [rules[0]] + Evidence(rules[1..], port)
  }

  /** The lines dropped are those of the rules ignored, one by one. */
  predicate DropsSame(lines: seq<string>, rules: seq<Rule>, u: seq<string>, port: Port) {
    |lines| >= |rules| && forall i | 0 <= i < |rules| :: (TrimSpace(lines[i]) in u || OffTailnet(lines[i])) <==> Ignored(rules[i], port)
  }

  lemma {:induction false} RestOfChain(lines: seq<string>, own: seq<Rule>, u: seq<string>, port: Port)
    requires SaySame(lines, own, port) && DropsSame(lines, own, u, port)
    ensures Decide(Rest(lines, u), port).state == FirstState(Evidence(own, port), port)
  {
    if own != [] {
      RestOfChain(lines[1..], own[1..], u, port);
      if !Ignored(own[0], port) {
        assert Rest(lines, u)[1..] == Rest(lines[1..], u);
        assert Evidence(own, port)[1..] == Evidence(own[1..], port);
      }
    }
  }

  /** Lines that say, jump and drop as the rules do, then a blank one. */
  predicate Mirrors(lines: seq<string>, rules: seq<Rule>, u: seq<string>, port: Port) {
    && JumpSame(lines, rules) && DropsSame(lines, rules, u, port)
    && (forall i | 0 <= i < |rules| :: Verdict(lines[i], port).state == RuleSays(rules[i], port))
    && lines[|rules|] == "" && Rest([""], u) == [""]
  }

  /** The walk's answer without what is ignored. */
  function RestState(lines: seq<string>, chain: seq<string>, u: seq<string>, port: Port): RuleState {
    Decide(Rest(Inline(BeforeJump(lines), chain), u), port).state
  }

  function Decided(state: RuleState): RuleState {
    if state == Unknown then Absent else state
  }

  lemma RestStep(lines: seq<string>, chain: seq<string>, u: seq<string>, port: Port)
    requires lines != []
    ensures RestState(lines, chain, u, port)
         == if QualifiedJump(lines[0]) then Absent
            else
              var head := if TSInputJump(lines[0]) then chain else [lines[0]];
              var first := Decide(Rest(head, u), port).state;
              if first != Absent then first else RestState(lines[1..], chain, u, port)
  {
    if !QualifiedJump(lines[0]) {
      var before := BeforeJump(lines);
      assert before == [lines[0]] + BeforeJump(lines[1..]) && before[1..] == BeforeJump(lines[1..]);
      var head := if TSInputJump(lines[0]) then chain else [lines[0]];
      assert Inline(before, chain) == head + Inline(before[1..], chain);
      RestOfConcat(head, Inline(before[1..], chain), u);
      DecideOfConcat(Rest(head, u), Rest(Inline(before[1..], chain), u), port);
    }
  }

  lemma RestOfLine(line: string, u: seq<string>, port: Port)
    ensures Decide(Rest([line], u), port).state == if TrimSpace(line) in u || OffTailnet(line) then Absent else Verdict(line, port).state
  {
    assert Rest([line][1..], u) == [];
    assert Decide([line][1..], port) == NOT_DECIDED;
  }

  lemma RestOfBlank(lines: seq<string>, chain: seq<string>, u: seq<string>, port: Port)
    requires lines == [""] && Rest([""], u) == [""]
    ensures RestState(lines, chain, u, port) == Absent
  {
    BlankLineIsNothing(port);
    RestStep(lines, chain, u, port);
    RestOfLine("", u, port);
    assert BeforeJump(lines[1..]) == [];
  }

  lemma {:induction false} RestSays(lines: seq<string>, rules: seq<Rule>, chain: seq<string>, own: seq<Rule>, u: seq<string>, port: Port)
    requires Mirrors(lines, rules, u, port) && Decide(Rest(chain, u), port).state == FirstState(Evidence(own, port), port)
    ensures RestState(lines, chain, u, port) == Decided(InputSays(Evidence(rules, port), Evidence(own, port), port))
  {
    if rules == [] {
      RestOfBlank(lines, chain, u, port);
    } else {
      var r := rules[0];
      RestSays(lines[1..], rules[1..], chain, own, u, port);
      RestStep(lines, chain, u, port);
      RestOfLine(lines[0], u, port);
      EvidenceStep(rules, own, port);
      assert TSInputJump(lines[0]) <==> PlainJump(r);
    }
  }

  /** The rest of the walk, unless the rule decides. */
  function AfterRule(r: Rule, kept: seq<Rule>, later: RuleState, port: Port): RuleState {
    var first := if PlainJump(r) then FirstState(kept, port) else if Ignored(r, port) then Absent else RuleSays(r, port);
    if GoesToTSInput(r) && !PlainJump(r) then Unknown else if first != Absent then first else later
  }

  lemma EvidenceStep(rules: seq<Rule>, own: seq<Rule>, port: Port)
    requires rules != []
    ensures InputSays(Evidence(rules, port), Evidence(own, port), port)
         == AfterRule(rules[0], Evidence(own, port), InputSays(Evidence(rules[1..], port), Evidence(own, port), port), port)
  {
    if !Ignored(rules[0], port) {
      assert Evidence(rules, port)[1..] == Evidence(rules[1..], port);
    }
  }

  // ------------------------------------------------------------ what is dropped

  lemma UnscopedText(rules: seq<Rule>, r: Rule, port: Port)
    requires AllWellFormed(rules) && WellFormed(r) && (r in rules || r.chain != "INPUT")
    ensures TrimSpace(RuleLine(r)) in Unscoped(LinesFrom(rules), port) <==> AllowsAll(r, port)
  {
    var lines := LinesFrom(rules);
    UnscopedRule(r, port);
    if TrimSpace(RuleLine(r)) in Unscoped(lines, port) {
      UnscopedTextIsUnscoped(RuleLine(r), lines, port);
    } else if r in rules {
      RuleLineListed(rules, r);
      if AllowsAll(r, port) {
        UnscopedMember(RuleLine(r), lines, port);
      }
    }
  }

  lemma RuleLineListed(rules: seq<Rule>, r: Rule)
    requires r in rules
    ensures RuleLine(r) in LinesFrom(rules)
  {
    var i :| 0 <= i < |rules| && rules[i] == r;
    assert LinesFrom(rules)[i] == RuleLine(r);
  }

  lemma BlankIsKept(lines: seq<string>, port: Port)
    ensures Rest([""], Unscoped(lines, port)) == [""]
  {
    RestOfTail(lines, port);
  }

  lemma DropsRules(rules: seq<Rule>, some: seq<Rule>, port: Port)
    requires AllWellFormed(rules) && AllWellFormed(some) && forall r | r in some :: r in rules || r.chain != "INPUT"
    ensures DropsSame(FlatAll(Texts(some)), some, Unscoped(LinesFrom(rules), port), port)
  {
    var lines := FlatAll(Texts(some));
    forall i | 0 <= i < |some|
      ensures (TrimSpace(lines[i]) in Unscoped(LinesFrom(rules), port) || OffTailnet(lines[i])) <==> Ignored(some[i], port)
    {
      assert some[i] in some && lines[i] == RuleLine(some[i]);
      UnscopedText(rules, some[i], port);
      OffTailnetRule(some[i]);
    }
  }

  lemma MirrorsRules(rules: seq<Rule>, port: Port)
    requires AllWellFormed(rules)
    ensures Mirrors(LinesFrom(rules), rules, Unscoped(LinesFrom(rules), port), port)
  {
    var lines, u := LinesFrom(rules), Unscoped(LinesFrom(rules), port);
    DropsRules(rules, rules, port);
    BlankIsKept(lines, port);
    BlankLineIsNothing(port);
    forall i | 0 <= i < |rules|
      ensures Verdict(lines[i], port).state == RuleSays(rules[i], port)
      ensures TSInputJump(lines[i]) <==> PlainJump(rules[i])
      ensures QualifiedJump(lines[i]) <==> GoesToTSInput(rules[i]) && !PlainJump(rules[i])
    {
      assert rules[i] in rules && lines[i] == RuleLine(rules[i]);
      ListedLine(rules[i], port);
      TSInputJumpRule(rules[i]);
      QualifiedJumpRule(rules[i]);
    }
    assert forall i | 0 <= i < |rules| :: lines[i] == FlatAll(Texts(rules))[i];
  }

  lemma RestOfTrailing(lines: seq<string>, u: seq<string>, port: Port)
    requires Rest([""], u) == [""]
    ensures Decide(Rest(lines + [""], u), port).state == Decide(Rest(lines, u), port).state
  {
    RestOfConcat(lines, [""], u);
    DecideOfBlank(Rest(lines, u), port);
  }

  lemma SplitOfEnded(front: string)
    ensures Split(front + "\n", '\n') == Split(front, '\n') + [""]
  {
    SplitOfConcat(front, "", '\n');
    assert front + ['\n'] + "" == front + "\n";
    assert Split("", '\n') == [""];
  }

  lemma {:induction false} TrimmedRest(s: string, u: seq<string>, port: Port)
    requires Rest([""], u) == [""]
    ensures Decide(Rest(Split(TrimRightOf(s, {'\n'}), '\n'), u), port).state == Decide(Rest(Split(s, '\n'), u), port).state
    decreases |s|
  {
    if s != "" && s[|s| - 1] == '\n' {
      var front := s[..|s| - 1];
      assert s == front + "\n";
      TrimmedRest(front, u, port);
      SplitOfEnded(front);
      RestOfTrailing(Split(front, '\n'), u, port);
    }
  }

  lemma RestOfHead(rules: seq<Rule>, own: seq<string>, port: Port)
    ensures var u := Unscoped(LinesFrom(rules), port);
            Decide(Rest(["-N ts-input"] + own, u), port).state == Decide(Rest(own, u), port).state
  {
    var u := Unscoped(LinesFrom(rules), port);
    ChainHead(port);
    RestOfConcat(["-N ts-input"], own, u);
    RestOfLine("-N ts-input", u, port);
    DecideOfConcat(Rest(["-N ts-input"], u), Rest(own, u), port);
  }

  lemma ChainRest(rules: seq<Rule>, own: seq<Rule>, port: Port)
    requires AllWellFormed(rules) && AllWellFormed(own) && forall r | r in own :: r.chain != "INPUT"
    ensures Decide(Rest(ChainLines(ChainTexts(own)), Unscoped(LinesFrom(rules), port)), port).state == FirstState(Evidence(own, port), port)
  {
    var u, lines := Unscoped(LinesFrom(rules), port), FlatAll(Texts(own));
    BlankIsKept(LinesFrom(rules), port);
    ChainLinesOf(own, port);
    TrimmedRest(Rules(Listing(ChainTexts(own))), u, port);
    RestOfTrailing(["-N ts-input"] + lines, u, port);
    RestOfHead(rules, lines, port);
    DropsRules(rules, own, port);
    forall i | 0 <= i < |own|
      ensures Verdict(lines[i], port).state == RuleSays(own[i], port)
    {
      assert own[i] in own;
      ListedLine(own[i], port);
    }
    RestOfChain(lines, own, u, port);
  }

  // ------------------------------------------------------------------ the counts

  /** How many rules are copies. */
  function CopyCount(rules: seq<Rule>, port: Port): nat {
    if rules == [] then 0 else (if rules[0] == CopyRule(port) then 1 else 0) + CopyCount(rules[1..], port)
  }

  lemma {:induction false} CountedCopies(rules: seq<Rule>, port: Port)
    requires AllWellFormed(rules)
    ensures LegacyCopies(LinesFrom(rules), port) == CopyCount(rules, port)
  {
    if rules == [] {
      assert LinesFrom([]) == [""] && [""][1..] == [];
      assert Fields("") == [];
    } else {
      assert rules[0] in rules && forall r | r in rules[1..] :: r in rules;
      LinesFromRest(rules);
      CopyLine(rules[0], port);
      CountedCopies(rules[1..], port);
    }
  }

  /** Some rule of INPUT accepts the port from everywhere and is no copy. */
  predicate HoldsForeign(rules: seq<Rule>, port: Port) {
    exists r | r in rules :: AllowsAll(r, port) && r != CopyRule(port)
  }

  lemma ForeignText(rules: seq<Rule>, r: Rule, port: Port)
    requires AllWellFormed(rules) && r in rules
    ensures AllowsAll(r, port) && r != CopyRule(port) <==>
              TrimSpace(RuleLine(r)) in Unscoped(LinesFrom(rules), port) && !IsLegacy(TrimSpace(RuleLine(r)), port)
  {
    UnscopedText(rules, r, port);
    CopyLine(r, port);
    LegacyByTrimmed(RuleLine(r), port);
  }

  lemma TextOfRule(rules: seq<Rule>, text: string, port: Port) returns (r: Rule)
    requires AllWellFormed(rules) && text in Unscoped(LinesFrom(rules), port)
    ensures r in rules && text == TrimSpace(RuleLine(r))
  {
    UnscopedTexts(LinesFrom(rules), port);
    var line :| line in LinesFrom(rules) && IsUnscoped(line, port) && text == TrimSpace(line);
    if line == "" {
      BlankLineIsNothing(port);
      assert false;
    }
    r := RuleOfLine(rules, line);
  }

  lemma RuleOfLine(rules: seq<Rule>, line: string) returns (r: Rule)
    requires line in LinesFrom(rules) && line != ""
    ensures r in rules && line == RuleLine(r)
  {
    var i :| 0 <= i < |LinesFrom(rules)| && LinesFrom(rules)[i] == line;
    r := rules[i];
  }

  lemma ForeignRules(rules: seq<Rule>, port: Port)
    requires AllWellFormed(rules)
    ensures Foreign(Unscoped(LinesFrom(rules), port), port) != [] <==> HoldsForeign(rules, port)
  {
    var u := Unscoped(LinesFrom(rules), port);
    ForeignIsEmpty(u, port);
    if text :| text in u && !IsLegacy(text, port) {
      var r := TextOfRule(rules, text, port);
      ForeignText(rules, r, port);
    }
    if r :| r in rules && AllowsAll(r, port) && r != CopyRule(port) {
      ForeignText(rules, r, port);
    }
  }

  /** A read that admits the port, by the rules: how many copies INPUT holds,
      whether a foreign unscoped allow is among its rules, and whether the port is
      admitted by the rules that are neither unscoped allows nor ACCEPTs off the
      tailnet. */
  lemma PresentReadMeans(h: Host, rules: seq<Rule>, own: seq<Rule>, port: Port)
    requires Lists(h, rules) && AllWellFormed(own) && h.tsInput == ChainRules(ChainTexts(own))
    requires forall r | r in own :: r.chain != "INPUT"
    requires ReadIptables(h, port).state == Present
    ensures var read := ReadIptables(h, port);
            && read.copies == CopyCount(rules, port)
            && (read.foreign != [] <==> HoldsForeign(rules, port))
            && (read.scoped <==> InputSays(Evidence(rules, port), Evidence(own, port), port) == Present)
  {
    ListedInput(h, rules);
    PresentIsCovered(h, port);
    CountedCopies(rules, port);
    ForeignRules(rules, port);
    MirrorsRules(rules, port);
    ChainRest(rules, own, port);
    RestSays(LinesFrom(rules), rules, ChainLines(h.tsInput.rules), own, Unscoped(LinesFrom(rules), port), port);
  }
}
