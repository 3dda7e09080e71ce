/** The rules setup writes and wrote: the rule scoped to the tailnet, the
    unscoped rule of earlier versions, and the lines of INPUT that count as
    copies of it or as foreign unscoped allows. */
module IptLegacy {
  import opened Text
  import opened IptRules
  import opened IptDecide

  /** The rule setup appends: the port, on the tailnet interface. */
  function ScopedRule(port: Port): seq<string> {
    ["-A", "INPUT", "-i", TAILNET, "-p", "tcp", "--dport", Itoa(port), "-j", "ACCEPT"]
  }

  /** The unscoped rule setup used to append. */
  function LegacyRule(port: Port): seq<string> {
    ["-A", "INPUT", "-p", "tcp", "--dport", Itoa(port), "-j", "ACCEPT"]
  }

  function DeleteCommand(port: Port): seq<string> {
    ["-D"] + LegacyRule(port)[1..]
  }

  /** A rule with one protocol, as setup writes them. */
  predicate HasProtocol(rule: seq<string>) {
    IndexOf(rule, "-p") + 2 <= |rule|
  }

  /** A rule as `iptables -S` prints it: `-p tcp` gains `-m tcp`. */
  function Printed(rule: seq<string>): seq<string>
    requires HasProtocol(rule)
  {
    var i := IndexOf(rule, "-p") + 2;
    rule[..i] + ["-m", rule[i - 1]] + rule[i..]
  }

  function LegacyWords(n: string): seq<string> {
    ["-A", "INPUT", "-p", "tcp", "-m", "tcp", "--dport", n, "-j", "ACCEPT"]
  }

  function ScopedWords(n: string): seq<string> {
    ["-A", "INPUT", "-i", TAILNET, "-p", "tcp", "-m", "tcp", "--dport", n, "-j", "ACCEPT"]
  }

  lemma PrintedForms(port: Port)
    ensures HasProtocol(LegacyRule(port)) && HasProtocol(ScopedRule(port))
    ensures Printed(LegacyRule(port)) == LegacyWords(Itoa(port))
    ensures Printed(ScopedRule(port)) == ScopedWords(Itoa(port))
  {
    IndexIs(LegacyRule(port), "-p", 2);
    IndexIs(ScopedRule(port), "-p", 4);
  }

  /** The line iptables lists for the rule setup appends (PrintedForms). */
  function ScopedLine(port: Port): string {
    Join(ScopedWords(Itoa(port)), ' ')
  }

  /** A copy of the unscoped rule, as iptables lists it (PrintedForms). */
  predicate IsLegacy(line: string, port: Port) {
    Fields(line) == LegacyWords(Itoa(port))
  }

  function LegacyCopies(lines: seq<string>, port: Port): nat {
    if lines == [] then 0 else (if IsLegacy(lines[0], port) then 1 else 0) + LegacyCopies(lines[1..], port)
  }

  /** iptLegacyCopies. */
  method CountCopies(lines: seq<string>, port: Port) returns (n: nat)
    ensures n == LegacyCopies(lines, port)
  {
    n := 0;
    for i := 0 to |lines|
      invariant LegacyCopies(lines, port) == n + LegacyCopies(lines[i..], port)
    {
      if Fields(lines[i]) == LegacyWords(Itoa(port)) {
        n := n + 1;
      }
    }
  }

  function StripLegacy(lines: seq<string>, port: Port): (kept: seq<string>)
    ensures forall line | line in kept :: line in lines && !IsLegacy(line, port)
  {
    if lines == [] then []
    else if IsLegacy(lines[0], port) then StripLegacy(lines[1..], port)
    else [lines[0]] + StripLegacy(lines[1..], port)
  }

  /** An INPUT rule that accepts the port with no interface, source or
      destination qualifier. */
  predicate IsUnscoped(line: string, port: int) {
    var f := Words(line);
    && |f| > 1 && f[0] == "-A" && f[1] == "INPUT" && Flag(f, "-j") == "ACCEPT"
    && PortCovers(f, port) && !Loopback(f) && !HasScope(f)
  }

  function Unscoped(lines: seq<string>, port: int): seq<string> {
    if lines == [] then []
    else if IsUnscoped(lines[0], port) then [TrimSpace(lines[0])] + Unscoped(lines[1..], port)
    else Unscoped(lines[1..], port)
  }

  lemma {:induction false} UnscopedTexts(lines: seq<string>, port: int)
    ensures forall text | text in Unscoped(lines, port) :: exists line | line in lines :: IsUnscoped(line, port) && text == TrimSpace(line)
    ensures forall line | line in lines && IsUnscoped(line, port) :: TrimSpace(line) in Unscoped(lines, port)
  {
    if lines != [] {
      UnscopedTexts(lines[1..], port);
      assert lines[0] in lines && forall line | line in lines :: line == lines[0] || line in lines[1..];
    }
  }

  /** iptUnscoped. */
  method FindUnscoped(lines: seq<string>, port: int) returns (found: seq<string>)
    ensures found == Unscoped(lines, port)
  {
    found := [];
    for i := 0 to |lines|
      invariant Unscoped(lines, port) == found + Unscoped(lines[i..], port)
    {
      assert lines[i..][1..] == lines[i + 1..];
      if IsUnscoped(lines[i], port) {
        found := found + [TrimSpace(lines[i])];
      }
    }
  }

  /** An ACCEPT scoped to something other than the tailnet. */
  predicate OffTailnet(line: string) {
    var f := Words(line);
    && Flag(f, "-j") == "ACCEPT"
    && ((Flag(f, "-i") != "" && Flag(f, "-i") != TAILNET) || Flag(f, "-s") != "" || Flag(f, "-d") != "")
  }

  /** The walked rules without the unscoped allows and the off-tailnet ACCEPTs. */
  function Rest(walked: seq<string>, unscoped: seq<string>): (kept: seq<string>)
    ensures forall line | line in kept :: line in walked
  {
    if walked == [] then []
    else if TrimSpace(walked[0]) in unscoped || OffTailnet(walked[0]) then Rest(walked[1..], unscoped)
    else [walked[0]] + Rest(walked[1..], unscoped)
  }

  // ------------------------------------------------------- what lines decide

  /** A word that starts with a digit is none of the words the matchers look for. */
  predicate Numeral(n: string) {
    n != "" && IsDigit(n[0])
  }

  lemma FlagIs(f: seq<string>, flag: string, i: nat)
    requires i + 1 < |f| && f[i] == flag && forall j | 0 <= j < i :: f[j] != flag
    requires i == 0 || f[i - 1] != "!"
    ensures Flag(f, flag) == f[i + 1]
  {
    IndexIs(f, flag, i);
  }

  lemma FlagIsNone(f: seq<string>, flag: string)
    requires forall j | 0 <= j < |f| :: f[j] != flag
    ensures Flag(f, flag) == ""
  {}

  lemma LegacyFlags(n: string)
    requires Numeral(n)
    ensures Flag(LegacyWords(n), "-p") == "tcp" && Flag(LegacyWords(n), "--dport") == n && Flag(LegacyWords(n), "-j") == "ACCEPT"
  {
    var f := LegacyWords(n);
    FlagIs(f, "-p", 2);
    FlagIs(f, "--dport", 6);
    FlagIs(f, "-j", 8);
  }

  lemma LegacyScope(n: string)
    requires Numeral(n)
    ensures !HasScope(LegacyWords(n)) && !Loopback(LegacyWords(n)) && TS_INPUT !in LegacyWords(n)
    ensures Flag(LegacyWords(n), "-i") == Flag(LegacyWords(n), "-s") == Flag(LegacyWords(n), "-d") == ""
  {
    var f := LegacyWords(n);
    FlagIsNone(f, "-i");
    FlagIsNone(f, "-s");
    FlagIsNone(f, "-d");
  }

  lemma ScopedFlags(n: string)
    requires Numeral(n)
    ensures Flag(ScopedWords(n), "-p") == "tcp" && Flag(ScopedWords(n), "--dport") == n && Flag(ScopedWords(n), "-j") == "ACCEPT"
  {
    var f := ScopedWords(n);
    FlagIs(f, "-p", 4);
    FlagIs(f, "--dport", 8);
    FlagIs(f, "-j", 10);
  }

  lemma ScopedScope(n: string)
    requires Numeral(n)
    ensures HasScope(ScopedWords(n)) && !Loopback(ScopedWords(n)) && TS_INPUT !in ScopedWords(n)
    ensures Flag(ScopedWords(n), "-i") == TAILNET && Flag(ScopedWords(n), "-s") == Flag(ScopedWords(n), "-d") == ""
  {
    var f := ScopedWords(n);
    FlagIs(f, "-i", 2);
    ScopedHoldsNoAddress(n);
    FlagIsNone(f, "-s");
    FlagIsNone(f, "-d");
    ScopedIsNotLoopback(n);
    assert f[2] in f;
  }

  lemma ScopedHoldsNoAddress(n: string)
    requires Numeral(n)
    ensures forall w | w in ScopedWords(n) :: w != "-s" && w != "-d" && w != TS_INPUT
  {}

  lemma ScopedIsNotLoopback(n: string)
    requires Numeral(n)
    ensures !Loopback(ScopedWords(n))
  {
    var f := ScopedWords(n);
    ScopedHoldsNoAddress(n);
    forall i | 0 <= i < |f| - 1
      ensures !LoopbackScope(f[i], f[i + 1])
    {
      assert f[i] in f;
      if i != 2 {
        OneInterface(n, i);
      }
    }
  }

  lemma OneInterface(n: string, i: nat)
    requires Numeral(n) && i < |ScopedWords(n)| && i != 2
    ensures ScopedWords(n)[i] != "-i"
  {}

  /** A TCP rule naming the port as its destination matches it. */
  lemma DportMatches(f: seq<string>, port: Port)
    requires |f| >= 2 && Flag(f, "-p") == "tcp" && Flag(f, "--dport") == Itoa(port)
    ensures PortCovers(f, port) && MatchesPort(f, port)
  {
    PortListOfItoa(port);
    assert DEST_PORT_FLAGS[0] == "--dport";
    assert PORT_FLAGS[0] == "--dport";
    assert f[IndexOf(f, "--dport")] == "--dport";
    assert f[IndexOf(f, "--dport")] in PORT_FLAGS;
  }

  lemma NoQualifiedJump(line: string)
    requires TS_INPUT !in Words(line)
    ensures !QualifiedJump(line)
  {}

  lemma LegacyWordsAreWords(n: string)
    requires IsDigits(n)
    ensures forall w | w in LegacyWords(n) :: PlainWord(w)
  {
    var f := LegacyWords(n);
    FlagWords();
    forall w | w in f
      ensures PlainWord(w)
    {
      var i :| 0 <= i < |f| && f[i] == w;
      if i != 7 {
        assert w in FLAG_WORDS;
      }
    }
  }

  /** A copy admits the port on every interface and is nothing else. */
  lemma LegacyLine(line: string, port: Port)
    requires IsLegacy(line, port)
    ensures Verdict(line, port).state == Present
    ensures IsAccept(line) && IsUnscoped(line, port) && !OffTailnet(line) && !TSInputJump(line) && !QualifiedJump(line)
  {
    var n := Itoa(port);
    ItoaStartsWithDigit(port);
    LegacyWordsAreWords(n);
    WordsOfUnquoted(line);
    LegacyFacts(Words(line), port);
    AcceptsEverywhere(line, port);
    NoQualifiedJump(line);
  }

  lemma LegacyFacts(f: seq<string>, port: Port)
    requires f == LegacyWords(Itoa(port))
    ensures |f| > 4 && f[0] == "-A" && f[1] == "INPUT" && Flag(f, "-j") == "ACCEPT"
    ensures PortCovers(f, port) && MatchesPort(f, port) && !Loopback(f) && !HasScope(f) && TS_INPUT !in f
    ensures Flag(f, "-i") == Flag(f, "-s") == Flag(f, "-d") == ""
  {
    var n := Itoa(port);
    ItoaStartsWithDigit(port);
    LegacyFlags(n);
    LegacyScope(n);
    DportMatches(f, port);
  }

  /** A rule that accepts the port and holds no scope. */
  lemma AcceptsEverywhere(line: string, port: Port)
    requires var f := Words(line);
             && |f| > 4 && f[0] == "-A" && f[1] == "INPUT" && Flag(f, "-j") == "ACCEPT"
             && PortCovers(f, port) && MatchesPort(f, port) && !Loopback(f) && !HasScope(f)
             && Flag(f, "-i") == Flag(f, "-s") == Flag(f, "-d") == ""
    requires Fields(line) == Words(line)
    ensures Verdict(line, port).state == Present
    ensures IsAccept(line) && IsUnscoped(line, port) && !OffTailnet(line) && !TSInputJump(line)
  {}

  lemma LegacyAccepts(line: string, port: Port)
    requires IsLegacy(line, port)
    ensures IsAccept(line)
  {
    LegacyLine(line, port);
  }

  lemma LegacyJumpsNowhere(line: string, port: Port)
    requires IsLegacy(line, port)
    ensures !QualifiedJump(line) && !TSInputJump(line)
  {
    LegacyLine(line, port);
  }

  /** The scoped rule admits the port, on the tailnet interface only. */
  lemma ScopedLineFacts(port: Port)
    ensures Fields(ScopedLine(port)) == Words(ScopedLine(port)) == ScopedWords(Itoa(port))
    ensures Verdict(ScopedLine(port), port).state == Present
    ensures !IsLegacy(ScopedLine(port), port) && !IsUnscoped(ScopedLine(port), port) && !OffTailnet(ScopedLine(port))
    ensures !TSInputJump(ScopedLine(port)) && !QualifiedJump(ScopedLine(port))
  {
    var n, f := Itoa(port), ScopedWords(Itoa(port));
    ItoaStartsWithDigit(port);
    ScopedLineWords(port);
    ScopedFlags(n);
    ScopedScope(n);
    DportMatches(f, port);
    assert |f| == 12;
    NoQualifiedJump(ScopedLine(port));
  }

  lemma ScopedWordsAreWords(n: string)
    requires IsDigits(n)
    ensures forall w | w in ScopedWords(n) :: PlainWord(w)
  {
    var f := ScopedWords(n);
    FlagWords();
    forall w | w in f
      ensures PlainWord(w)
    {
      var i :| 0 <= i < |f| && f[i] == w;
      if i != 9 {
        assert w in FLAG_WORDS;
      }
    }
  }

  const FLAG_WORDS := ["-A", "INPUT", "-i", TAILNET, "-p", "tcp", "-m", "--dport", "-j", "ACCEPT", "DROP", "multiport", "--dports"]

  predicate PlainWord(w: string) {
    IsWord(w) && '"' !in w && '\n' !in w
  }

  lemma FlagWords()
    ensures forall w | w in FLAG_WORDS :: PlainWord(w)
  {
    ShortFlagWords();
    LongFlagWords();
    MultiportWords();
  }

  lemma ShortFlagWords()
    ensures PlainWord("-A") && PlainWord("-i") && PlainWord("-p") && PlainWord("-m") && PlainWord("-j") && PlainWord("tcp")
  {}

  lemma MultiportWords()
    ensures PlainWord("multiport") && PlainWord("--dports")
  {}

  lemma LongFlagWords()
    ensures PlainWord("INPUT") && PlainWord(TAILNET) && PlainWord("--dport") && PlainWord("ACCEPT") && PlainWord("DROP")
  {}

  lemma ScopedLineWords(port: Port)
    ensures Fields(ScopedLine(port)) == Words(ScopedLine(port)) == ScopedWords(Itoa(port))
  {
    ScopedWordsAreWords(Itoa(port));
    FieldsOfJoin(ScopedWords(Itoa(port)));
    WordsOfUnquoted(ScopedLine(port));
  }

  /** The scoped rule's line needs no cutting. */
  lemma ScopedLineIsFlat(port: Port)
    ensures Whole(ScopedLine(port)) && Flat(ScopedLine(port)) == ScopedLine(port)
  {
    ScopedWordsAreWords(Itoa(port));
    JoinHolds(ScopedWords(Itoa(port)), '"');
    JoinHolds(ScopedWords(Itoa(port)), '\n');
    PlainStaysOutside(ScopedLine(port));
  }

  lemma {:induction false} JoinHolds(words: seq<string>, c: char)
    requires c != ' ' && forall w | w in words :: c !in w
    ensures c !in Join(words, ' ')
  {
    if words != [] {
      assert words[0] in words;
      JoinHolds(words[1..], c);
    }
  }

  lemma UnscopedAdmits(line: string, port: int)
    requires IsUnscoped(line, port)
    ensures Verdict(line, port).state == Present && IsAccept(line)
  {
    var f := Words(line);
    var flag :| flag in DEST_PORT_FLAGS && PortListHas(Flag(f, flag), port);
    EmptyPortList(port);
    assert flag in f by { assert f[IndexOf(f, flag)] == flag; }
    assert flag in PORT_FLAGS by {
      var i :| 0 <= i < |DEST_PORT_FLAGS| && DEST_PORT_FLAGS[i] == flag;
      assert PORT_FLAGS[i] == flag;
    }
  }

  lemma EmptyPortList(port: int)
    ensures !PortListHas("", port)
  {
    assert Split("", ',') == [""];
    assert Atoi("") == None;
  }

  /** A line whose trimmed text is that of an unscoped allow is an ACCEPT. */
  lemma UnscopedTextAccepts(line: string, lines: seq<string>, port: int)
    requires TrimSpace(line) in Unscoped(lines, port)
    ensures IsAccept(line)
  {
    UnscopedTexts(lines, port);
    var other :| other in lines && IsUnscoped(other, port) && TrimSpace(line) == TrimSpace(other);
    WordsOfTrimmed(line);
    WordsOfTrimmed(other);
  }

  lemma {:induction false} DecidedByMember(lines: seq<string>, line: string, port: int)
    requires line in lines && Verdict(line, port).state != Absent
    ensures Decide(lines, port).state != Absent
  {
    if lines[0] != line {
      DecidedByMember(lines[1..], line, port);
    }
  }

  // ---------------------------------------------------------- stripped lists

  lemma {:induction false} StripWidens(lines: seq<string>, port: Port)
    ensures Widens(StripLegacy(lines, port), lines)
  {
    if lines != [] {
      StripWidens(lines[1..], port);
      if IsLegacy(lines[0], port) {
        LegacyAccepts(lines[0], port);
      }
    }
  }

  lemma {:induction false} StripOfConcat(a: seq<string>, b: seq<string>, port: Port)
    ensures StripLegacy(a + b, port) == StripLegacy(a, port) + StripLegacy(b, port)
    ensures LegacyCopies(a + b, port) == LegacyCopies(a, port) + LegacyCopies(b, port)
  {
    if a == [] {
      assert a + b == b;
    } else {
      assert (a + b)[1..] == a[1..] + b;
      StripOfConcat(a[1..], b, port);
    }
  }

  lemma {:induction false} StripOfNone(lines: seq<string>, port: Port)
    requires LegacyCopies(lines, port) == 0
    ensures StripLegacy(lines, port) == lines
  {
    if lines != [] {
      StripOfNone(lines[1..], port);
    }
  }

  lemma {:induction false} NoCopyCounted(lines: seq<string>, port: Port)
    ensures LegacyCopies(lines, port) == 0 <==> forall line | line in lines :: !IsLegacy(line, port)
  {
    if lines != [] {
      NoCopyCounted(lines[1..], port);
      assert lines == [lines[0]] + lines[1..];
    }
  }

  lemma {:induction false} BeforeJumpOfStripped(lines: seq<string>, port: Port)
    ensures BeforeJump(StripLegacy(lines, port)) == StripLegacy(BeforeJump(lines), port)
    ensures HasQualifiedJump(StripLegacy(lines, port)) == HasQualifiedJump(lines)
  {
    if lines != [] {
      BeforeJumpOfStripped(lines[1..], port);
      assert lines == [lines[0]] + lines[1..];
      if IsLegacy(lines[0], port) {
        LegacyJumpsNowhere(lines[0], port);
      }
    }
  }

  /** Every text in the list is that of an ACCEPT. */
  ghost predicate AcceptTexts(texts: seq<string>) {
    forall line | TrimSpace(line) in texts :: IsAccept(line)
  }

  lemma UnscopedAreAcceptTexts(lines: seq<string>, port: int)
    ensures AcceptTexts(Unscoped(lines, port))
  {
    forall line | TrimSpace(line) in Unscoped(lines, port)
      ensures IsAccept(line)
    {
      UnscopedTextAccepts(line, lines, port);
    }
  }

  lemma {:induction false} RestWidens(walked: seq<string>, unscoped: seq<string>)
    requires AcceptTexts(unscoped)
    ensures Widens(Rest(walked, unscoped), walked)
  {
    if walked != [] {
      RestWidens(walked[1..], unscoped);
    }
  }

  lemma {:induction false} RestOfConcat(a: seq<string>, b: seq<string>, unscoped: seq<string>)
    ensures Rest(a + b, unscoped) == Rest(a, unscoped) + Rest(b, unscoped)
  {
    if a == [] {
      assert a + b == b;
    } else {
      assert (a + b)[1..] == a[1..] + b;
      RestOfConcat(a[1..], b, unscoped);
    }
  }
}
