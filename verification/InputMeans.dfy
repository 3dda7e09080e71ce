/** What one read of iptables answers, by the rules INPUT and ts-input hold. */
module InputMeans {
  import opened Text
  import opened IptRules
  import opened IptDecide
  import opened IptLegacy
  import opened IptPrinted
  import opened IptFirstMatch
  import opened IptKinds
  import opened HostState
  import opened LinuxSetup
  import opened Converge

  // ------------------------------------------------------------ on the rules

  /** What the first rule that says anything says. */
  function FirstState(rules: seq<Rule>, port: Port): RuleState {
    if rules == [] then Absent
    else if RuleSays(rules[0], port) != Absent then RuleSays(rules[0], port)
    else FirstState(rules[1..], port)
  }

  /** INPUT walked rule by rule: tailscaled's own jump asks ts-input, and a jump
      to it of any other kind leaves the port unknown. */
  function InputSays(rules: seq<Rule>, own: seq<Rule>, port: Port): RuleState {
    if rules == [] then Absent
    else if PlainJump(rules[0]) then
      if FirstState(own, port) != Absent then FirstState(own, port) else InputSays(rules[1..], own, port)
    else if GoesToTSInput(rules[0]) then Unknown
    else if RuleSays(rules[0], port) != Absent then RuleSays(rules[0], port)
    else InputSays(rules[1..], own, port)
  }

  // ------------------------------------------------------- the chain's listing

  lemma DecideOfBlank(lines: seq<string>, port: Port)
    ensures Decide(lines + [""], port).state == Decide(lines, port).state
  {
    BlankLineIsNothing(port);
    DecideOfConcat(lines, [""], port);
    assert Decide([""][1..], port) == NOT_DECIDED;
  }

  lemma {:induction false} TrimmedLinesDecide(s: string, port: Port)
    ensures Decide(Split(TrimRightOf(s, {'\n'}), '\n'), port).state == Decide(Split(s, '\n'), port).state
    decreases |s|
  {
    if s != "" && s[|s| - 1] == '\n' {
      var front := s[..|s| - 1];
      TrimmedLinesDecide(front, port);
      SplitOfConcat(front, "", '\n');
      assert front + ['\n'] + "" == s;
      assert Split("", '\n') == [""];
      DecideOfBlank(Split(front, '\n'), port);
    }
  }

  /** ts-input as `iptables -S ts-input` lists it. */
  function ChainTexts(own: seq<Rule>): seq<string> {
    ["-N ts-input"] + Texts(own)
  }

  lemma ChainHead(port: Port)
    ensures Whole("-N ts-input") && Flat("-N ts-input") == "-N ts-input"
    ensures Verdict("-N ts-input", port) == NOT_DECIDED
  {
    assert PlainWord("-N");
    TSInputIsPlain();
    TwoWords("-N", TS_INPUT);
    assert "-N" + " " + TS_INPUT == "-N ts-input";
    NotAppended("-N ts-input", port);
  }

  lemma NotAppended(line: string, port: Port)
    requires Words(line) != [] && Words(line)[0] == "-N"
    ensures Verdict(line, port) == NOT_DECIDED
  {}

  lemma TwoWords(a: string, b: string)
    requires PlainWord(a) && PlainWord(b)
    ensures var line := a + " " + b; Whole(line) && Flat(line) == line && Words(line) == [a, b]
  {
    var words, line := [a, b], a + " " + b;
    assert words[1..] == [b] && Join([b], ' ') == b;
    assert Join(words, ' ') == line;
    JoinHolds(words, '"');
    JoinHolds(words, '\n');
    PlainStaysOutside(line);
    FieldsOfJoin(words);
    WordsOfUnquoted(line);
  }

  lemma TextsAreWhole(rules: seq<Rule>)
    requires AllWellFormed(rules)
    ensures AllWhole(Texts(rules))
  {
    forall i | 0 <= i < |rules|
      ensures Whole(Texts(rules)[i])
    {
      assert rules[i] in rules;
      RuleTextWords(rules[i]);
    }
  }

  /** The lines say what the rules say, one by one. */
  predicate SaySame(lines: seq<string>, rules: seq<Rule>, port: Port) {
    |lines| == |rules| && forall i | 0 <= i < |rules| :: Verdict(lines[i], port).state == RuleSays(rules[i], port)
  }

  lemma {:induction false} SameFirst(lines: seq<string>, rules: seq<Rule>, port: Port)
    requires SaySame(lines, rules, port)
    ensures Decide(lines, port).state == FirstState(rules, port)
  {
    if rules != [] {
      SameFirst(lines[1..], rules[1..], port);
    }
  }

  lemma LinesState(rules: seq<Rule>, port: Port)
    requires AllWellFormed(rules)
    ensures Decide(FlatAll(Texts(rules)), port).state == FirstState(rules, port)
  {
    var lines := FlatAll(Texts(rules));
    forall i | 0 <= i < |rules|
      ensures Verdict(lines[i], port).state == RuleSays(rules[i], port)
    {
      assert rules[i] in rules;
      ListedLine(rules[i], port);
    }
    SameFirst(lines, rules, port);
  }

  lemma FlatOfHead(head: string, texts: seq<string>)
    ensures FlatAll([head] + texts) == [Flat(head)] + FlatAll(texts)
  {}

  lemma ChainLinesOf(own: seq<Rule>, port: Port)
    requires AllWellFormed(own)
    ensures Split(Rules(Listing(ChainTexts(own))), '\n') == ["-N ts-input"] + FlatAll(Texts(own)) + [""]
  {
    ChainHead(port);
    TextsAreWhole(own);
    OneMoreWhole("-N ts-input", Texts(own));
    RulesOfListing(ChainTexts(own));
    FlatOfHead("-N ts-input", Texts(own));
  }

  lemma OneMoreWhole(rule: string, rules: seq<string>)
    requires Whole(rule) && AllWhole(rules)
    ensures AllWhole([rule] + rules)
  {}

  /** The chain's lines say what its rules say. */
  lemma ChainSays(own: seq<Rule>, port: Port)
    requires AllWellFormed(own)
    ensures Decide(ChainLines(ChainTexts(own)), port).state == FirstState(own, port)
  {
    var lines := ["-N ts-input"] + FlatAll(Texts(own));
    ChainHead(port);
    ChainLinesOf(own, port);
    TrimmedLinesDecide(Rules(Listing(ChainTexts(own))), port);
    DecideOfBlank(lines, port);
    assert lines[1..] == FlatAll(Texts(own));
    LinesState(own, port);
  }

  // ------------------------------------------------------------- INPUT walked

  function LinesFrom(rules: seq<Rule>): seq<string> {
    FlatAll(Texts(rules)) + [""]
  }

  lemma LinesFromRest(rules: seq<Rule>)
    requires rules != []
    ensures LinesFrom(rules)[0] == RuleLine(rules[0]) && LinesFrom(rules)[1..] == LinesFrom(rules[1..])
  {
    assert FlatAll(Texts(rules))[1..] == FlatAll(Texts(rules[1..]));
  }

  /** The walk's answer, unknown where it is undecided at a qualified jump. */
  function WalkState(lines: seq<string>, chain: seq<string>, port: Port): RuleState {
    var state := Decide(Inline(BeforeJump(lines), chain), port).state;
    if state == Absent && HasQualifiedJump(lines) then Unknown else state
  }

  lemma WalkOfBlank(chain: seq<string>, port: Port)
    ensures WalkState([""], chain, port) == Absent
  {
    BlankLineIsNothing(port);
    assert [""][1..] == [];
    assert BeforeJump([""]) == [""];
    assert Inline([""], chain) == [""];
    assert Decide([""], port) == NOT_DECIDED;
  }

  lemma WalkStep(lines: seq<string>, chain: seq<string>, port: Port)
    requires lines != []
    ensures WalkState(lines, chain, port)
         == if QualifiedJump(lines[0]) then Unknown
            else
              var first := if TSInputJump(lines[0]) then Decide(chain, port).state else Verdict(lines[0], port).state;
              if first != Absent then first else WalkState(lines[1..], chain, port)
  {
    JumpInRest(lines);
    if !QualifiedJump(lines[0]) {
      var before := BeforeJump(lines);
      assert before == [lines[0]] + BeforeJump(lines[1..]) && before[1..] == BeforeJump(lines[1..]);
      var head := if TSInputJump(lines[0]) then chain else [lines[0]];
      assert Inline(before, chain) == head + Inline(before[1..], chain);
      DecideOfConcat(head, Inline(before[1..], chain), port);
      if !TSInputJump(lines[0]) {
        assert Decide([lines[0]][1..], port) == NOT_DECIDED;
      }
    }
  }

  lemma {:induction false} WalkSays(rules: seq<Rule>, own: seq<Rule>, chain: seq<string>, port: Port)
    requires AllWellFormed(rules) && Decide(chain, port).state == FirstState(own, port)
    ensures WalkState(LinesFrom(rules), chain, port) == InputSays(rules, own, port)
  {
    if rules == [] {
      assert LinesFrom([]) == [""];
      WalkOfBlank(chain, port);
    } else {
      var r := rules[0];
      assert r in rules && forall q | q in rules[1..] :: q in rules;
      LinesFromRest(rules);
      TSInputJumpRule(r);
      QualifiedJumpRule(r);
      ListedLine(r, port);
      WalkStep(LinesFrom(rules), chain, port);
      WalkSays(rules[1..], own, chain, port);
    }
  }

  /** Which lines jump to ts-input, one by one; the last one is blank. */
  predicate JumpSame(lines: seq<string>, rules: seq<Rule>) {
    && |lines| == |rules| + 1 && !TSInputJump(lines[|rules|]) && !QualifiedJump(lines[|rules|])
    && (forall i | 0 <= i < |rules| :: TSInputJump(lines[i]) <==> PlainJump(rules[i]))
    && (forall i | 0 <= i < |rules| :: QualifiedJump(lines[i]) <==> GoesToTSInput(rules[i]) && !PlainJump(rules[i]))
  }

  predicate JumpsPlainly(rules: seq<Rule>) {
    exists r | r in rules :: PlainJump(r)
  }

  predicate JumpsQualified(rules: seq<Rule>) {
    exists r | r in rules :: GoesToTSInput(r) && !PlainJump(r)
  }

  lemma SamePlainJumps(lines: seq<string>, rules: seq<Rule>)
    requires JumpSame(lines, rules)
    ensures (exists line | line in lines :: TSInputJump(line)) <==> JumpsPlainly(rules)
  {
    if r :| r in rules && PlainJump(r) {
      var i :| 0 <= i < |rules| && rules[i] == r;
      assert lines[i] in lines;
    }
    if line :| line in lines && TSInputJump(line) {
      var i :| 0 <= i < |lines| && lines[i] == line;
      assert rules[i] in rules;
    }
  }

  lemma SameQualifiedJumps(lines: seq<string>, rules: seq<Rule>)
    requires JumpSame(lines, rules)
    ensures HasQualifiedJump(lines) <==> JumpsQualified(rules)
  {
    if r :| r in rules && GoesToTSInput(r) && !PlainJump(r) {
      var i :| 0 <= i < |rules| && rules[i] == r;
      assert lines[i] in lines;
    }
    if line :| line in lines && QualifiedJump(line) {
      var i :| 0 <= i < |lines| && lines[i] == line;
      assert rules[i] in rules;
    }
  }

  lemma JumpsOfLines(rules: seq<Rule>)
    requires AllWellFormed(rules)
    ensures (exists line | line in LinesFrom(rules) :: TSInputJump(line)) <==> JumpsPlainly(rules)
    ensures HasQualifiedJump(LinesFrom(rules)) <==> JumpsQualified(rules)
  {
    var lines := LinesFrom(rules);
    BlankLineIsNothing(0);
    forall i | 0 <= i < |rules|
      ensures TSInputJump(lines[i]) <==> PlainJump(rules[i])
      ensures QualifiedJump(lines[i]) <==> GoesToTSInput(rules[i]) && !PlainJump(rules[i])
    {
      assert rules[i] in rules && lines[i] == RuleLine(rules[i]);
      TSInputJumpRule(rules[i]);
      QualifiedJumpRule(rules[i]);
    }
    SamePlainJumps(lines, rules);
    SameQualifiedJumps(lines, rules);
  }

  // ---------------------------------------------------------------- the read

  /** A host whose iptables lists these rules for INPUT. */
  predicate Lists(h: Host, rules: seq<Rule>) {
    h.inputReadable && AllWellFormed(rules) && h.input == Texts(rules)
  }

  lemma ListedInput(h: Host, rules: seq<Rule>)
    requires Lists(h, rules)
    ensures InputLines(h) == LinesFrom(rules)
  {
    TextsAreWhole(rules);
    RulesOfListing(h.input);
  }

  /** The walk's answer, unless ts-input may hide behind an undecided one. */
  function Unreached(h: Host, rules: seq<Rule>, walked: RuleState): RuleState {
    if walked == Absent && !JumpsPlainly(rules) && TSInputUnreached(h) then Unknown else walked
  }

  /** The read where every chain INPUT may jump to can be read. */
  lemma ReadByWalk(h: Host, rules: seq<Rule>, port: Port)
    requires Lists(h, rules) && (JumpsPlainly(rules) ==> h.tsInput.ChainRules?)
    ensures ReadIptables(h, port).state == Unreached(h, rules, WalkState(LinesFrom(rules), ChainOf(h), port))
  {
    var lines := LinesFrom(rules);
    ListedInput(h, rules);
    JumpsOfLines(rules);
    BeforeJumpIsPart(lines);
    WalkedIsInline(lines, h.tsInput);
    if !HasQualifiedJump(lines) {
      BeforeNoJump(lines);
    }
  }

  /** With ts-input there, the read is the walk's answer; an undecided INPUT that
      does not jump to it is unknown. */
  lemma ReadWithChain(h: Host, rules: seq<Rule>, own: seq<Rule>, port: Port)
    requires Lists(h, rules) && AllWellFormed(own) && h.tsInput == ChainRules(ChainTexts(own))
    ensures ReadIptables(h, port).state
         == if InputSays(rules, own, port) == Absent && !JumpsPlainly(rules) then Unknown else InputSays(rules, own, port)
  {
    ChainSays(own, port);
    ReadByWalk(h, rules, port);
    WalkSays(rules, own, ChainLines(h.tsInput.rules), port);
    ChainLinesOf(own, port);
    assert (["-N ts-input"] + FlatAll(Texts(own)) + [""])[0] == "-N ts-input";
  }

  /** With no ts-input in iptables, an undecided INPUT is unknown exactly where
      nft shows the chain or cannot be read. */
  lemma ReadWithoutChain(h: Host, rules: seq<Rule>, port: Port)
    requires Lists(h, rules) && h.tsInput == NoChain && forall r | r in rules :: !GoesToTSInput(r)
    ensures var says := FirstState(rules, port);
            var hidden := h.nft.NftUnread? || (h.nft.NftOutput? && Contains(h.nft.text, "chain ts-input"));
            ReadIptables(h, port).state == if says == Absent && hidden then Unknown else says
  {
    ReadByWalk(h, rules, port);
    WalkSays(rules, [], [], port);
    NoJumpSays(rules, [], port);
  }

  lemma {:induction false} NoJumpSays(rules: seq<Rule>, own: seq<Rule>, port: Port)
    requires forall r | r in rules :: !GoesToTSInput(r)
    ensures InputSays(rules, own, port) == FirstState(rules, port)
  {
    if rules != [] {
      assert rules[0] in rules && forall r | r in rules[1..] :: r in rules;
      NoJumpSays(rules[1..], own, port);
    }
  }

  /** Undecided, with ts-input there and no jump to it: setup touches nothing. */
  lemma HiddenChainStopsSetup(h: Host, rules: seq<Rule>, own: seq<Rule>, port: Port)
    requires h.elevated && !h.hasUfw && h.hasIptables
    requires Lists(h, rules) && AllWellFormed(own) && h.tsInput == ChainRules(ChainTexts(own))
    requires forall r | r in rules :: !GoesToTSInput(r) && RuleSays(r, port) == Absent
    ensures ReadFirewall(h, port).state == Unknown
    ensures FirewallPlan(h, port) == Plan([], Failed)
  {
    ReadWithChain(h, rules, own, port);
    NoJumpSays(rules, own, port);
    NothingSaid(rules, port);
  }

  lemma {:induction false} NothingSaid(rules: seq<Rule>, port: Port)
    requires forall r | r in rules :: RuleSays(r, port) == Absent
    ensures FirstState(rules, port) == Absent
  {
    if rules != [] {
      assert rules[0] in rules && forall r | r in rules[1..] :: r in rules;
      NothingSaid(rules[1..], port);
    }
  }
}
