/** Which answer a list of `iptables -S` lines gives for one TCP port: the first
    rule that decides it. Rule text is carried as its lines: joining lines and
    splitting them again is the identity (Text.SplitOfJoin). */
module IptDecide {
  import opened Text
  import opened IptRules

  /** A Go int port, which nothing bounds above. */
  type Port = n: nat | n <= MAX_INT64

  datatype RuleState = Unknown | Absent | Present | Blocked

  /** An answer and, when it is Blocked, the rule that gave it. */
  datatype Answer = Answer(state: RuleState, rule: string)

  const NOT_DECIDED := Answer(Absent, "")

  const TS_INPUT := "ts-input"
  const TAILNET := "tailscale0"

  // ------------------------------------------------------------ rule matchers

  /** The value of flag, or "" when it is absent or negated. */
  function Flag(f: seq<string>, flag: string): string {
    var i := IndexOf(f, flag);
    if i + 1 >= |f| || (i > 0 && f[i - 1] == "!") then "" else f[i + 1]
  }

  predicate PortRangeHas(range: string, port: int) {
    var (lo, hi, isRange) := Cut(range, ':');
    var a, b := Atoi(lo), Atoi(if isRange then hi else lo);
    a.Some? && b.Some? && a.value <= port <= b.value
  }

  /** A port list: `3389`, `22,3389`, `3380:3390`. */
  predicate PortListHas(list: string, port: int) {
    exists range | range in Split(list, ',') :: PortRangeHas(range, port)
  }

  lemma PortListOfItoa(port: Port)
    ensures PortListHas(Itoa(port), port)
  {
    var n := Itoa(port);
    SplitOfOnePart(n, ',');
    SplitOfOnePart(n, ':');
    AtoiOfItoa(port);
    assert n in Split(n, ',');
    assert PortRangeHas(n, port);
  }

  const DEST_PORT_FLAGS := ["--dport", "--dports", "--ports"]
  const PORT_FLAGS := DEST_PORT_FLAGS + ["--sport", "--sports"]

  predicate IsOctet(o: string) {
    IsDigits(o) && |o| <= 3 && (|o| > 1 ==> o[0] != '0') && DigitsValue(o) <= 255
  }

  /** An IPv4 prefix inside 127.0.0.0/8. */
  predicate LoopbackPrefix(value: string) {
    var parts := Split(value, '/');
    && |parts| == 2
    && IsDigits(parts[1]) && (|parts[1]| > 1 ==> parts[1][0] != '0') && DigitsValue(parts[1]) <= 32
    && var octets := Split(parts[0], '.');
       |octets| == 4 && (forall o | o in octets :: IsOctet(o)) && octets[0] == "127"
  }

  predicate LoopbackScope(flag: string, value: string) {
    if flag == "-i" then value == "lo" || value == "lo+"
    else (flag == "-s" || flag == "-d") && LoopbackPrefix(value)
  }

  predicate Loopback(f: seq<string>) {
    exists i | 0 <= i < |f| - 1 :: LoopbackAt(f, i)
  }

  predicate LoopbackAt(f: seq<string>, i: nat)
    requires i < |f| - 1
  {
    (i == 0 || f[i - 1] != "!") && LoopbackScope(f[i], f[i + 1])
  }

  predicate HasScope(f: seq<string>) {
    "-i" in f || "-s" in f || "-d" in f || "!" in f
  }

  predicate PortCovers(f: seq<string>, port: int) {
    Flag(f, "-p") == "tcp" && exists flag | flag in DEST_PORT_FLAGS :: PortListHas(Flag(f, flag), port)
  }

  /** How many words the qualifier at the start of f spans when it keeps a rule
      open to every TCP port, 0 when it narrows the rule. */
  function PortlessToken(f: seq<string>): (n: nat)
    ensures n <= |f|
  {
    if |f| < 2 then 0
    else
      var v := f[1];
      if f[0] == "-j" || f[0] == "--reject-with" then 2
      else if f[0] == "-p" || f[0] == "-m" then
        if v == "tcp" || (f[0] == "-m" && v == "comment") then 2 else 0
      else if f[0] in {"--comment", "-i", "-s", "-d"} then 2
      else if f[0] == "--tcp-flags" then
        if |f| > 2 && v == "FIN,SYN,RST,ACK" && f[2] == "SYN" then 3 else 0
      else if f[0] == "!" then
        if |f| > 2 && LoopbackScope(v, f[2]) then 3 else 0
      else 0
  }

  predicate PortlessCovers(f: seq<string>) {
    f == [] || (PortlessToken(f) > 0 && PortlessCovers(f[PortlessToken(f)..]))
  }

  predicate MatchesPort(f: seq<string>, port: int)
    requires |f| >= 2
  {
    if exists w | w in f :: w in PORT_FLAGS then PortCovers(f, port) else PortlessCovers(f[2..])
  }

  /** What one rule line says about the port; Absent when it does not decide. */
  function Verdict(line: string, port: int): Answer {
    var f := Words(line);
    if |f| < 2 || f[0] != "-A" || Loopback(f) || !MatchesPort(f, port) then NOT_DECIDED
    else if Flag(f, "-j") == "ACCEPT" then Answer(Present, "")
    else if (Flag(f, "-j") == "DROP" || Flag(f, "-j") == "REJECT") && !HasScope(f) then Answer(Blocked, TrimSpace(line))
    else NOT_DECIDED
  }

  function Decide(lines: seq<string>, port: int): (a: Answer)
    ensures a.state != Unknown
  {
    if lines == [] then NOT_DECIDED
    else
      var v := Verdict(lines[0], port);
      if v.state != Absent then v else Decide(lines[1..], port)
  }

  predicate Covers(lines: seq<string>, port: int) {
    Decide(lines, port).state == Present
  }

  /** iptablesDecide: a walk that stops at the first deciding rule. */
  method IptablesDecide(lines: seq<string>, port: int) returns (state: RuleState, rule: string)
    ensures Answer(state, rule) == Decide(lines, port)
  {
    for i := 0 to |lines|
      invariant Decide(lines, port) == Decide(lines[i..], port)
    {
      var f := Words(lines[i]);
      if |f| < 2 || f[0] != "-A" || Loopback(f) || !MatchesPort(f, port) {
        continue;
      }
      var target := Flag(f, "-j");
      if target == "ACCEPT" {
        return Present, "";
      }
      if (target == "DROP" || target == "REJECT") && !HasScope(f) {
        return Blocked, TrimSpace(lines[i]);
      }
    }
    return Absent, "";
  }

  lemma {:induction false} DecideOfConcat(a: seq<string>, b: seq<string>, port: int)
    ensures Decide(a + b, port) == if Decide(a, port).state != Absent then Decide(a, port) else Decide(b, port)
  {
    if a == [] {
      assert a + b == b;
    } else {
      assert (a + b)[1..] == a[1..] + b;
      DecideOfConcat(a[1..], b, port);
    }
  }

  // -------------------------------------------------------------- first match

  /** a is the first answer that decides, or no answer decides. */
  predicate FirstOf(answers: seq<Answer>, a: Answer) {
    || (a == NOT_DECIDED && forall i | 0 <= i < |answers| :: answers[i].state == Absent)
    || exists i: nat | i < |answers| :: DecidesFirst(answers, i) && a == answers[i]
  }

  predicate DecidesFirst(answers: seq<Answer>, i: nat)
    requires i < |answers|
  {
    answers[i].state != Absent && forall j | 0 <= j < i :: answers[j].state == Absent
  }

  lemma FirstOfMore(answers: seq<Answer>, a: Answer)
    requires answers != [] && answers[0].state == Absent && FirstOf(answers[1..], a)
    ensures FirstOf(answers, a)
  {
    var rest := answers[1..];
    if i: nat :| i < |rest| && DecidesFirst(rest, i) && a == rest[i] {
      assert forall j | 1 <= j < i + 1 :: answers[j] == rest[j - 1];
      assert DecidesFirst(answers, i + 1);
    }
  }

  // -------------------------------------------- quoted values do not decide

  /** Two rule lists that differ only inside quoted values. */
  predicate SameSkeletons(a: seq<seq<Piece>>, b: seq<seq<Piece>>) {
    |a| == |b| && forall i | 0 <= i < |a| :: Printable(a[i]) && Printable(b[i]) && Skeleton(a[i]) == Skeleton(b[i])
  }

  function PrintAll(rules: seq<seq<Piece>>): (printed: seq<string>)
    ensures |printed| == |rules|
    ensures forall i | 0 <= i < |rules| :: printed[i] == PrintRule(rules[i])
  {
    seq(|rules|, i requires 0 <= i < |rules| => PrintRule(rules[i]))
  }

  lemma {:induction false} SameWordsSameState(a: seq<string>, b: seq<string>, port: int)
    requires |a| == |b| && forall i | 0 <= i < |a| :: Words(a[i]) == Words(b[i])
    ensures Decide(a, port).state == Decide(b, port).state
  {
    if a != [] {
      assert Words(a[0]) == Words(b[0]);
      SameWordsSameState(a[1..], b[1..], port);
    }
  }

  /** Whatever text sits inside quoted values, newlines and escaped quotes
      included, the printed rules decide the port the same way. */
  lemma QuotedValuesDoNotDecide(a: seq<seq<Piece>>, b: seq<seq<Piece>>, port: int)
    requires SameSkeletons(a, b)
    ensures Decide(Split(Rules(Listing(PrintAll(a))), '\n'), port).state
         == Decide(Split(Rules(Listing(PrintAll(b))), '\n'), port).state
  {
    forall i | 0 <= i < |a|
      ensures Whole(PrintAll(a)[i]) && Whole(PrintAll(b)[i])
      ensures Words(FlatAll(PrintAll(a))[i]) == Words(FlatAll(PrintAll(b))[i])
    {
      PrintedRuleIsWhole(a[i]);
      PrintedRuleIsWhole(b[i]);
      BlankOfPrinted(a[i]);
      BlankOfPrinted(b[i]);
    }
    RulesOfListing(PrintAll(a));
    RulesOfListing(PrintAll(b));
    SameWordsSameState(FlatAll(PrintAll(a)) + [""], FlatAll(PrintAll(b)) + [""], port);
  }

  // ------------------------------------------------------------- ts-input

  /** tailscaled's unqualified jump. */
  predicate TSInputJump(line: string) {
    Fields(line) == ["-A", "INPUT", "-j", TS_INPUT]
  }

  /** A jump or goto to ts-input in any other form. */
  predicate QualifiedJump(line: string) {
    var f := Words(line);
    && !TSInputJump(line) && |f| >= 2 && f[0] == "-A"
    && exists i | 2 <= i < |f| - 1 :: (f[i] == "-j" || f[i] == "-g") && f[i + 1] == TS_INPUT
  }

  /** The rules before the first qualified jump, all of them when there is none. */
  function BeforeJump(lines: seq<string>): seq<string> {
    if lines == [] || QualifiedJump(lines[0]) then [] else [lines[0]] + BeforeJump(lines[1..])
  }

  predicate HasQualifiedJump(lines: seq<string>) {
    exists line | line in lines :: QualifiedJump(line)
  }

  /** iptBeforeQualifiedJump: the rules before the first qualified jump, and
      whether there is one. */
  method BeforeQualifiedJump(lines: seq<string>) returns (before: seq<string>, jump: bool)
    ensures before == BeforeJump(lines) && jump == HasQualifiedJump(lines)
  {
    for n := 0 to |lines|
      invariant BeforeJump(lines) == lines[..n] + BeforeJump(lines[n..])
      invariant forall line | line in lines[..n] :: !QualifiedJump(line)
    {
      if QualifiedJump(lines[n]) {
        return lines[..n], true;
      }
      assert lines[..n + 1] == lines[..n] + [lines[n]];
    }
    return lines, false;
  }

  /** The chain's rules in place of each unqualified jump to it. */
  function Inline(lines: seq<string>, chain: seq<string>): seq<string> {
    if lines == [] then []
    else (if TSInputJump(lines[0]) then chain else [lines[0]]) + Inline(lines[1..], chain)
  }

  /** The jump evaluated as a call: the chain's own answer if it decides,
      otherwise the walk goes on after the jump. */
  function Call(lines: seq<string>, chain: seq<string>, port: int): Answer {
    if lines == [] then NOT_DECIDED
    else
      var v := if TSInputJump(lines[0]) then Decide(chain, port) else Verdict(lines[0], port);
      if v.state != Absent then v else Call(lines[1..], chain, port)
  }

  /** Inlining preserves evaluation. */
  lemma {:induction false} InlineIsCall(lines: seq<string>, chain: seq<string>, port: int)
    ensures Decide(Inline(lines, chain), port) == Call(lines, chain, port)
  {
    if lines != [] {
      InlineIsCall(lines[1..], chain, port);
      var head := if TSInputJump(lines[0]) then chain else [lines[0]];
      DecideOfConcat(head, Inline(lines[1..], chain), port);
      if !TSInputJump(lines[0]) {
        assert Decide([lines[0]], port) == Verdict(lines[0], port) by { assert Decide([lines[0]][1..], port) == NOT_DECIDED; }
      }
    }
  }

  /** iptInlineChain: the lines are edited in place, then joined. */
  method InlineChain(input: string, chain: string) returns (rules: string)
    ensures Split(rules, '\n') == Inline(Split(input, '\n'), Split(TrimRightOf(chain, {'\n'}), '\n'))
  {
    var parts := Split(input, '\n');
    var body := TrimRightOf(chain, {'\n'});
    var lines := new string[|parts|](i requires 0 <= i < |parts| => parts[i]);
    for i := 0 to lines.Length
      invariant forall k | 0 <= k < i :: lines[k] == if TSInputJump(parts[k]) then body else parts[k]
      invariant forall k | i <= k < lines.Length :: lines[k] == parts[k]
    {
      if TSInputJump(lines[i]) {
        lines[i] := body;
      }
    }
    rules := Join(lines[..], '\n');
    SplitPartsHoldNoSeparator(input, '\n');
    SplitOfReplaced(parts, lines[..], body);
  }

  lemma {:induction false} SplitOfReplaced(parts: seq<string>, lines: seq<string>, body: string)
    requires |lines| == |parts| >= 1 && forall part | part in parts :: '\n' !in part
    requires forall k | 0 <= k < |parts| :: lines[k] == if TSInputJump(parts[k]) then body else parts[k]
    ensures Split(Join(lines, '\n'), '\n') == Inline(parts, Split(body, '\n'))
  {
    assert parts[0] in parts;
    if !TSInputJump(parts[0]) {
      SplitOfOnePart(lines[0], '\n');
    }
    if |parts| == 1 {
      assert Inline(parts[1..], Split(body, '\n')) == [];
    } else {
      assert forall part | part in parts[1..] :: part in parts;
      SplitOfReplaced(parts[1..], lines[1..], body);
      SplitOfConcat(lines[0], Join(lines[1..], '\n'), '\n');
    }
  }

  lemma {:induction false} InlineOfConcat(a: seq<string>, b: seq<string>, chain: seq<string>)
    ensures Inline(a + b, chain) == Inline(a, chain) + Inline(b, chain)
  {
    if a == [] {
      assert a + b == b;
    } else {
      assert (a + b)[1..] == a[1..] + b;
      InlineOfConcat(a[1..], b, chain);
    }
  }

  lemma {:induction false} InlineWithoutJump(lines: seq<string>, chain: seq<string>)
    requires forall line | line in lines :: !TSInputJump(line)
    ensures Inline(lines, chain) == lines
  {
    if lines != [] {
      assert lines[0] in lines;
      InlineWithoutJump(lines[1..], chain);
    }
  }

  lemma {:induction false} BeforeJumpOfConcat(a: seq<string>, b: seq<string>)
    ensures BeforeJump(a + b) == if HasQualifiedJump(a) then BeforeJump(a) else a + BeforeJump(b)
    ensures HasQualifiedJump(a + b) == (HasQualifiedJump(a) || HasQualifiedJump(b))
  {
    JumpInConcat(a, b);
    if a == [] {
      assert a + b == b;
    } else {
      assert (a + b)[0] == a[0] && (a + b)[1..] == a[1..] + b;
      BeforeJumpOfConcat(a[1..], b);
      JumpInRest(a);
    }
  }

  lemma JumpInConcat(a: seq<string>, b: seq<string>)
    ensures HasQualifiedJump(a + b) == (HasQualifiedJump(a) || HasQualifiedJump(b))
  {
    if line :| line in a && QualifiedJump(line) {
      assert line in a + b;
    }
    if line :| line in b && QualifiedJump(line) {
      assert line in a + b;
    }
  }

  lemma JumpInRest(lines: seq<string>)
    requires lines != []
    ensures HasQualifiedJump(lines) == (QualifiedJump(lines[0]) || HasQualifiedJump(lines[1..]))
  {
    JumpInConcat([lines[0]], lines[1..]);
    assert lines == [lines[0]] + lines[1..];
    assert HasQualifiedJump([lines[0]]) == QualifiedJump(lines[0]) by {
      assert lines[0] in [lines[0]];
    }
  }

  // ----------------------------------------------------- inserting ACCEPTs

  predicate IsAccept(line: string) {
    Flag(Words(line), "-j") == "ACCEPT"
  }

  lemma AcceptNeverBlocks(line: string, port: int)
    requires IsAccept(line)
    ensures Verdict(line, port).state == Absent || Verdict(line, port).state == Present
  {}

  /** wide is narrow with ACCEPT rules inserted anywhere. */
  ghost predicate Widens(narrow: seq<string>, wide: seq<string>)
    decreases |wide|
  {
    if wide == [] then narrow == []
    else
      || (narrow != [] && narrow[0] == wide[0] && Widens(narrow[1..], wide[1..]))
      || (IsAccept(wide[0]) && Widens(narrow, wide[1..]))
  }

  /** Inserting ACCEPT rules anywhere never turns "present" into another answer,
      never makes a decided port undecided, and never adds a deny. */
  lemma {:induction false} WideningKeepsPresent(narrow: seq<string>, wide: seq<string>, port: int)
    requires Widens(narrow, wide)
    ensures Covers(narrow, port) ==> Covers(wide, port)
    ensures Decide(wide, port).state == Absent ==> Decide(narrow, port).state == Absent
    ensures Decide(wide, port).state == Blocked ==> Decide(narrow, port).state == Blocked
    decreases |wide|
  {
    if wide != [] {
      if narrow != [] && narrow[0] == wide[0] && Widens(narrow[1..], wide[1..]) {
        WideningKeepsPresent(narrow[1..], wide[1..], port);
      } else {
        AcceptNeverBlocks(wide[0], port);
        WideningKeepsPresent(narrow, wide[1..], port);
      }
    }
  }

  lemma {:induction false} WidensItself(lines: seq<string>)
    ensures Widens(lines, lines)
  {
    if lines != [] {
      WidensItself(lines[1..]);
    }
  }

  lemma {:induction false} WidensConcat(a: seq<string>, a': seq<string>, b: seq<string>, b': seq<string>)
    requires Widens(a, a') && Widens(b, b')
    ensures Widens(a + b, a' + b')
    decreases |a'|
  {
    if a' == [] {
      assert a + b == b && a' + b' == b';
    } else {
      assert (a' + b')[1..] == a'[1..] + b';
      if a != [] && a[0] == a'[0] && Widens(a[1..], a'[1..]) {
        WidensConcat(a[1..], a'[1..], b, b');
        assert (a + b)[1..] == a[1..] + b;
      } else {
        WidensConcat(a, a'[1..], b, b');
      }
    }
  }

  lemma JumpIsNoAccept(line: string)
    requires TSInputJump(line)
    ensures !IsAccept(line) && !QualifiedJump(line)
  {
    WordsOfUnquoted(line);
    var f := Words(line);
    assert f == ["-A", "INPUT", "-j", TS_INPUT];
    IndexIs(f, "-j", 2);
  }

  /** Widening INPUT widens the walk with ts-input inlined. */
  lemma {:induction false} WidensInlined(narrow: seq<string>, wide: seq<string>, chain: seq<string>)
    requires Widens(narrow, wide)
    ensures Widens(Inline(narrow, chain), Inline(wide, chain))
    decreases |wide|
  {
    if wide != [] {
      if narrow != [] && narrow[0] == wide[0] && Widens(narrow[1..], wide[1..]) {
        WidensInlined(narrow[1..], wide[1..], chain);
        var head := if TSInputJump(wide[0]) then chain else [wide[0]];
        WidensItself(head);
        WidensConcat(head, head, Inline(narrow[1..], chain), Inline(wide[1..], chain));
      } else {
        if TSInputJump(wide[0]) {
          JumpIsNoAccept(wide[0]);
        }
        WidensInlined(narrow, wide[1..], chain);
        assert Inline(wide, chain)[1..] == Inline(wide[1..], chain);
      }
    }
  }
}
