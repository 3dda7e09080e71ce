/** Deciding the text `iptables -S` prints for a list of rules is first match
    over the rules themselves. */
module IptFirstMatch {
  import opened Text
  import opened IptRules
  import opened IptDecide
  import opened IptLegacy
  import opened PortLists
  import opened IptOptions
  import opened IptPrinted

  // ------------------------------------------------------ the matchers on a rule

  lemma AddressIsValue(x: Address)
    ensures IsValue(AddressText(x))
  {
    AddressChars(x);
  }

  lemma PortsAreValue(ranges: seq<PortRange>)
    requires ranges != []
    ensures IsValue(PortsText(ranges))
  {
    PortsTextChars(ranges);
  }

  lemma AddressOk(flag: string, m: Option<Matched<Address>>)
    requires IsFlag(flag)
    ensures OkOpts(AddressOpt(flag, m))
  {
    if m.Some? {
      AddressIsValue(m.value.value);
    }
  }

  lemma ScopeOk(r: Rule)
    requires WellFormed(r)
    ensures OkOpts(ScopeOpts(r))
  {
    AddressOk("-s", r.source);
    AddressOk("-d", r.destination);
    forall o | o in ScopeOpts(r)
      ensures OkOpt(o)
    {
      assert o in AddressOpt("-s", r.source) || o in AddressOpt("-d", r.destination) || o.flag == "-i";
    }
  }

  lemma PortsOk(r: Rule)
    requires WellFormed(r)
    ensures OkOpts(PortOpts(r))
  {
    if !r.ports.AnyPort? {
      PortsAreValue(r.ports.ranges);
    }
  }

  lemma RestOk(r: Rule)
    requires WellFormed(r)
    ensures OkOpts(ProtoOpts(r)) && OkOpts(SynOpts(r)) && OkOpts(CommentOpts(r)) && OkOpts(TargetOpts(r))
    ensures forall o | o in SynOpts(r) :: FlagsWhole(o)
  {}

  lemma OptsOk(r: Rule)
    requires WellFormed(r)
    ensures OkOpts(Opts(r)) && forall o | o in Opts(r) :: FlagsWhole(o)
  {
    ScopeOk(r);
    PortsOk(r);
    RestOk(r);
    forall o | o in Opts(r)
      ensures OkOpt(o) && FlagsWhole(o)
    {
      OptsIn(r, o);
      if o in r.others {
        OtherFlag(o);
      }
      ScopeFlags(r);
      ProtoFlags(r);
      PortFlags(r);
      CommentFlags(r);
      TargetFlags(r);
    }
  }

  function Head(r: Rule): seq<string> {
    ["-A", r.chain]
  }

  lemma HeadIsPlain(r: Rule)
    requires WellFormed(r)
    ensures EndsInValue(Head(r)) && !Loopback(Head(r)) && BANG !in Head(r)
    ensures forall w | w in Head(r) && IsFlag(w) :: w == "-A"
  {
  }

  lemma FlagOfRule(r: Rule, flag: string)
    requires WellFormed(r) && IsFlag(flag) && flag != "-A"
    ensures Flag(RuleWords(r), flag) == Value(Opts(r), flag)
    ensures flag in RuleWords(r) <==> exists o | o in Opts(r) :: o.flag == flag
  {
    OptsOk(r);
    HeadIsPlain(r);
    FlagOfWords(Head(r), Opts(r), flag);
    FlagInWords(Opts(r), flag);
  }

  /** The only options of a rule that scope it to loopback are its interface and
      its addresses. */
  lemma RuleIsLocal(r: Rule)
    requires WellFormed(r)
    ensures Loopback(RuleWords(r)) <==> IsLocal(r)
  {
    OptsOk(r);
    HeadIsPlain(r);
    LoopbackOfConcat(Head(r), AllWords(Opts(r)));
    LoopbackOfWords(Opts(r));
    forall o | o in Opts(r) && ScopesLoopback(o)
      ensures o in ScopeOpts(r)
    {
      PartOf(r, o);
    }
    forall o | o in ScopeOpts(r)
      ensures o in Opts(r)
    {
      OptsIn(r, o);
    }
    ScopeIsLocal(r);
  }

  lemma ScopePart(r: Rule, o: Opt)
    ensures o in ScopeOpts(r) <==> o in AddressOpt("-s", r.source) || o in AddressOpt("-d", r.destination) || o in InputOpt(r.input)
  {}

  lemma ScopeIsLocal(r: Rule)
    requires WellFormed(r)
    ensures (exists o | o in ScopeOpts(r) :: ScopesLoopback(o)) <==> IsLocal(r)
  {
    ScopedAddress("-s", r.source);
    ScopedAddress("-d", r.destination);
    ScopedInput(r.input);
    forall o: Opt
      ensures o in ScopeOpts(r) <==> o in AddressOpt("-s", r.source) || o in AddressOpt("-d", r.destination) || o in InputOpt(r.input)
    {
      ScopePart(r, o);
    }
  }

  lemma ScopedInput(m: Option<Matched<string>>)
    ensures (exists o | o in InputOpt(m) :: ScopesLoopback(o)) <==> (m.Some? && OnLoopback(m.value))
    ensures (forall o | o in InputOpt(m) :: Harmless(o)) <==> (m.Some? && m.value.negated ==> m.value.value == "lo" || m.value.value == "lo+")
  {
    if m.Some? {
      var o := Opt(m.value.negated, "-i", m.value.value, []);
      assert InputOpt(m) == [o];
      assert o in [o];
    }
  }

  lemma ScopedAddress(flag: string, m: Option<Matched<Address>>)
    requires flag == "-s" || flag == "-d"
    requires m.Some? ==> IsAddress(m.value.value)
    ensures (exists o | o in AddressOpt(flag, m) :: ScopesLoopback(o)) <==> (m.Some? && InLoopback(m.value))
  {
    if m.Some? {
      AddressIsLoopback(m.value.value);
      var o := Opt(m.value.negated, flag, AddressText(m.value.value), []);
      assert AddressOpt(flag, m) == [o];
      assert o in [o];
    }
  }

  lemma NeverNegated(r: Rule)
    ensures forall o | o in ProtoOpts(r) :: !o.negated
    ensures forall o | o in SynOpts(r) :: !o.negated
    ensures forall o | o in CommentOpts(r) :: !o.negated
    ensures forall o | o in TargetOpts(r) :: !o.negated
  {}

  lemma NegatedPorts(r: Rule, o: Opt)
    requires o in PortOpts(r) && o.negated
    ensures !r.ports.AnyPort? && r.ports.negated
  {}

  lemma NegatedOpt(r: Rule, o: Opt)
    requires o in Opts(r) && o.negated
    ensures o in ScopeOpts(r) || o in r.others || (!r.ports.AnyPort? && r.ports.negated)
  {
    OptsIn(r, o);
    NeverNegated(r);
    if o in PortOpts(r) {
      NegatedPorts(r, o);
    }
  }

  lemma PortOpt(r: Rule)
    requires !r.ports.AnyPort?
    ensures exists o | o in Opts(r) :: o.flag in PORT_FLAGS && o.negated == r.ports.negated
  {
    var o := PortOpts(r)[1];
    assert o in PortOpts(r);
    OptsIn(r, o);
    PortFlagsAre(o.flag);
  }

  lemma PortFlagsAre(flag: string)
    ensures flag in PORT_FLAGS <==> flag in {"--dport", "--dports", "--ports", "--sport", "--sports"}
  {
    assert PORT_FLAGS == ["--dport", "--dports", "--ports", "--sport", "--sports"];
  }

  lemma RuleIsScoped(r: Rule)
    requires WellFormed(r)
    ensures HasScope(RuleWords(r)) <==> IsScoped(r)
  {
    OptsOk(r);
    HeadIsPlain(r);
    FlagInWords(Opts(r), "-i");
    FlagOfRule(r, "-i");
    FlagOfRule(r, "-s");
    FlagOfRule(r, "-d");
    if r.source.Some? {
      AddressHasOpt(r, "-s", r.source);
    }
    if r.destination.Some? {
      AddressHasOpt(r, "-d", r.destination);
    }
    if r.input.Some? {
      var o := Opt(r.input.value.negated, "-i", r.input.value.value, []);
      assert o in ScopeOpts(r);
      OptsIn(r, o);
    }
    if !r.ports.AnyPort? {
      PortOpt(r);
    }
    forall o | o in r.others
      ensures o in Opts(r)
    {
      OptsIn(r, o);
    }
    forall o | o in Opts(r)
      ensures o.flag in {"-s", "-d", "-i"} || o.negated ==> IsScoped(r)
    {
      PartOf(r, o);
      if o.flag in {"-s", "-d", "-i"} {
        ScopeOpt(r, o);
      } else if o.negated {
        NegatedOpt(r, o);
        ScopeFlags(r);
      }
    }
  }

  lemma AddressHasOpt(r: Rule, flag: string, m: Option<Matched<Address>>)
    requires m.Some? && ((flag == "-s" && m == r.source) || (flag == "-d" && m == r.destination))
    ensures exists o | o in Opts(r) :: o.flag == flag
  {
    var o := Opt(m.value.negated, flag, AddressText(m.value.value), []);
    assert AddressOpt(flag, m) == [o];
    assert o in AddressOpt(flag, m);
    assert o in ScopeOpts(r);
    OptsIn(r, o);
  }

  // -------------------------------------------------------------- ports matched

  lemma RuleBearsPort(r: Rule)
    requires WellFormed(r)
    ensures (exists w | w in RuleWords(r) :: w in PORT_FLAGS) <==> !r.ports.AnyPort?
  {
    if !r.ports.AnyPort? {
      PortOpt(r);
      var o :| o in Opts(r) && o.flag in PORT_FLAGS;
      PortFlagsAre(o.flag);
      FlagOfRule(r, o.flag);
    } else if w :| w in RuleWords(r) && w in PORT_FLAGS {
      PortFlagsAre(w);
      FlagOfRule(r, w);
      var o :| o in Opts(r) && o.flag == w;
      PartOf(r, o);
    }
  }

  predicate ListsPort(r: Rule, port: int) {
    r.ports.Dest? && !r.ports.negated && AnyHolds(r.ports.ranges, port)
  }

  /** The TCP rule's destination ports, unless they are negated, hold the port. */
  predicate NamesPort(r: Rule, port: int) {
    r.proto == Some("tcp") && ListsPort(r, port)
  }

  lemma RuleNamesPort(r: Rule, port: int)
    requires WellFormed(r)
    ensures PortCovers(RuleWords(r), port) <==> NamesPort(r, port)
  {
    FlagOfRule(r, "-p");
    ProtoValue(r);
    forall flag | flag in DEST_PORT_FLAGS
      ensures PortListHas(Flag(RuleWords(r), flag), port) <==> flag == DestFlag(r) && ListsPort(r, port)
    {
      FlagListsPort(r, flag, port);
    }
    if r.ports.Dest? {
      DestFlagListed(r);
    }
  }

  lemma FlagListsPort(r: Rule, flag: string, port: int)
    requires WellFormed(r) && flag in DEST_PORT_FLAGS
    ensures PortListHas(Flag(RuleWords(r), flag), port) <==> flag == DestFlag(r) && ListsPort(r, port)
  {
    DestFlagsAre(flag);
    FlagOfRule(r, flag);
    DestValue(r, flag);
    EmptyPortList(port);
    if r.ports.Dest? {
      PortsTextHas(r.ports.ranges, port);
    }
  }

  lemma DestFlagListed(r: Rule)
    requires r.ports.Dest?
    ensures DestFlag(r) in DEST_PORT_FLAGS
  {
    assert DEST_PORT_FLAGS[0] == "--dport" && DEST_PORT_FLAGS[1] == "--dports";
  }

  /** No port, and no match that leaves connections out. */
  predicate LeavesPortsOpen(r: Rule) {
    r.others == [] && (r.proto == None || r.proto == Some("tcp")) && ShutsOutLoopbackOnly(r) && !r.target.Goto?
  }

  lemma HarmlessScope(r: Rule)
    requires WellFormed(r)
    ensures (forall o | o in ScopeOpts(r) :: Harmless(o)) <==> ShutsOutLoopbackOnly(r)
  {
    HarmlessAddress("-s", r.source);
    HarmlessAddress("-d", r.destination);
    ScopedInput(r.input);
    forall o: Opt
      ensures o in ScopeOpts(r) <==> o in AddressOpt("-s", r.source) || o in AddressOpt("-d", r.destination) || o in InputOpt(r.input)
    {
      ScopePart(r, o);
    }
  }

  lemma HarmlessAddress(flag: string, m: Option<Matched<Address>>)
    requires flag == "-s" || flag == "-d"
    requires m.Some? ==> IsAddress(m.value.value)
    ensures (forall o | o in AddressOpt(flag, m) :: Harmless(o)) <==> (m.Some? && m.value.negated ==> m.value.value.a == 127)
  {
    if m.Some? {
      AddressIsLoopback(m.value.value);
      var o := Opt(m.value.negated, flag, AddressText(m.value.value), []);
      assert AddressOpt(flag, m) == [o];
      assert o in [o];
    }
  }

  lemma HarmlessRest(r: Rule)
    requires WellFormed(r) && r.ports.AnyPort?
    ensures (forall o | o in ProtoOpts(r) :: Harmless(o)) <==> (r.proto == None || r.proto == Some("tcp"))
    ensures forall o | o in SynOpts(r) + CommentOpts(r) :: Harmless(o)
    ensures (forall o | o in TargetOpts(r) :: Harmless(o)) <==> !r.target.Goto?
  {
    if r.proto.Some? {
      assert ProtoOpts(r)[0] in ProtoOpts(r);
    }
    if r.target.Goto? {
      assert TargetOpts(r)[0] in TargetOpts(r);
    }
  }

  lemma OthersNarrow(r: Rule)
    requires WellFormed(r)
    ensures (forall o | o in r.others :: Harmless(o)) <==> r.others == []
  {
    if r.others != [] {
      OtherNarrows(r.others[0]);
    }
  }

  lemma OtherNarrows(o: Opt)
    requires IsOther(o)
    ensures !Harmless(o)
  {}

  lemma RuleLeavesPortsOpen(r: Rule)
    requires WellFormed(r) && r.ports.AnyPort?
    ensures PortlessCovers(AllWords(Opts(r))) <==> LeavesPortsOpen(r)
  {
    OptsOk(r);
    PortlessOfWords(Opts(r));
    HarmlessScope(r);
    HarmlessRest(r);
    forall o: Opt
      ensures o in Opts(r) <==> o in ScopeOpts(r) || o in ProtoOpts(r) || o in SynOpts(r) + CommentOpts(r) || o in TargetOpts(r) || o in r.others
    {
      OptsIn(r, o);
    }
    OthersNarrow(r);
  }

  lemma RuleReaches(r: Rule, port: int)
    requires WellFormed(r)
    ensures MatchesPort(RuleWords(r), port) <==> Reaches(r, port)
  {
    RuleBearsPort(r);
    RuleNamesPort(r, port);
    if r.ports.AnyPort? {
      RuleLeavesPortsOpen(r);
      assert RuleWords(r)[2..] == AllWords(Opts(r));
    }
  }

  /** The answer of a rule that applies. */
  function TargetAnswer(f: seq<string>, text: string): Answer {
    var target := Flag(f, "-j");
    if target == "ACCEPT" then Answer(Present, "")
    else if (target == "DROP" || target == "REJECT") && !HasScope(f) then Answer(Blocked, text)
    else NOT_DECIDED
  }

  /** The verdict by a line's words. */
  lemma VerdictOfWords(line: string, f: seq<string>, port: int)
    requires Words(line) == f && |f| >= 2 && f[0] == "-A"
    ensures Loopback(f) || !MatchesPort(f, port) ==> Verdict(line, port) == NOT_DECIDED
    ensures !Loopback(f) && MatchesPort(f, port) ==> Verdict(line, port) == TargetAnswer(f, TrimSpace(line))
  {}

  lemma TargetWords(t: Target)
    requires TargetWellFormed(t)
    ensures TargetWord(t) == "ACCEPT" <==> t.Accept?
    ensures TargetWord(t) == "DROP" <==> t.Drop?
    ensures TargetWord(t) == "REJECT" <==> t.Reject?
  {}

  /** A line with a rule's words says what the rule says. */
  lemma LineSays(line: string, r: Rule, port: int)
    requires WellFormed(r) && Words(line) == RuleWords(r)
    ensures Verdict(line, port) == Answer(RuleSays(r, port), if RuleSays(r, port) == Blocked then TrimSpace(line) else "")
  {
    RuleIsLocal(r);
    RuleIsScoped(r);
    RuleReaches(r, port);
    FlagOfRule(r, "-j");
    TargetValue(r);
    TargetWords(r.target);
    assert RuleWords(r)[0] == "-A";
    VerdictOfWords(line, RuleWords(r), port);
  }

  // ---------------------------------------------------------------- rules as text

  /** The rule's words as pieces: a comment's text stands in quotes. */
  function WordPieces(words: seq<string>, comment: string): (pieces: seq<Piece>)
    ensures |pieces| == |words|
    ensures forall i | 0 <= i < |words| :: pieces[i] == if words[i] == QUOTES then Quoted(comment) else Plain(words[i])
  {
    seq(|words|, i requires 0 <= i < |words| => if words[i] == QUOTES then Quoted(comment) else Plain(words[i]))
  }

  /** With one space between them. */
  function Apart(pieces: seq<Piece>): seq<Piece> {
    if |pieces| <= 1 then pieces else [pieces[0], Plain(" ")] + Apart(pieces[1..])
  }

  function Pieces(r: Rule): seq<Piece> {
    Apart(WordPieces(RuleWords(r), if r.comment.Some? then r.comment.value else ""))
  }

  /** The rule as `iptables -S` prints it. */
  function RuleText(r: Rule): string {
    PrintRule(Pieces(r))
  }

  function Texts(rules: seq<Rule>): (texts: seq<string>)
    ensures |texts| == |rules| && forall i | 0 <= i < |rules| :: texts[i] == RuleText(rules[i])
  {
    seq(|rules|, i requires 0 <= i < |rules| => RuleText(rules[i]))
  }

  /** A word printed: plain, or the empty quotes. */
  predicate IsPrinted(w: string) {
    w == QUOTES || PlainWord(w)
  }

  lemma QuotesAreWord()
    ensures IsWord(QUOTES) && !PlainWord(QUOTES)
  {
    assert QUOTES[0] == '"';
  }

  lemma {:induction false} SkeletonOfApart(words: seq<string>, comment: string)
    ensures Skeleton(Apart(WordPieces(words, comment))) == Join(words, ' ')
  {
    if |words| > 1 {
      var pieces := WordPieces(words, comment);
      var rest := WordPieces(words[1..], comment);
      SkeletonOfApart(words[1..], comment);
      assert pieces[1..] == rest;
      var p, gap := pieces[0], Plain(" ");
      var tail := [gap] + Apart(rest);
      assert Apart(pieces) == [p] + tail;
      assert Skeleton(tail) == " " + Skeleton(Apart(rest)) by {
        assert tail[1..] == Apart(rest);
      }
      assert ([p] + tail)[1..] == tail;
      assert Skeleton(Apart(pieces)) == words[0] + Skeleton(tail);
    } else if |words| == 1 {
      var pieces := WordPieces(words, comment);
      assert Skeleton(pieces[1..]) == "";
      assert words[0] + "" == words[0];
    }
  }

  lemma {:induction false} ApartIsPrintable(pieces: seq<Piece>)
    requires Printable(pieces)
    ensures Printable(Apart(pieces))
  {
    if |pieces| > 1 {
      assert Printable(pieces[1..]);
      ApartIsPrintable(pieces[1..]);
    }
  }

  lemma PrintedLine(words: seq<string>, comment: string)
    requires forall w | w in words :: IsPrinted(w)
    ensures var text := PrintRule(Apart(WordPieces(words, comment))); Whole(text) && Words(Flat(text)) == words
  {
    var pieces := WordPieces(words, comment);
    forall i | 0 <= i < |words|
      ensures IsPrinted(words[i])
    {
      assert words[i] in words;
    }
    QuotesAreWord();
    assert Printable(pieces);
    ApartIsPrintable(pieces);
    PrintedRuleIsWhole(Apart(pieces));
    BlankOfPrinted(Apart(pieces));
    SkeletonOfApart(words, comment);
    FieldsOfJoin(words);
  }

  // ----------------------------------------------- every word of a rule is plain

  lemma AddressIsPlain(x: Address)
    ensures PlainWord(AddressText(x))
  {
    AddressChars(x);
    assert forall c | AddressChar(c) :: !IsSpace(c) && c != '"' && c != '\n';
  }

  lemma PortsArePlain(ranges: seq<PortRange>)
    requires ranges != []
    ensures PlainWord(PortsText(ranges))
  {
    PortsTextChars(ranges);
    assert forall c | ListChar(c) :: !IsSpace(c) && c != '"' && c != '\n';
  }

  predicate Prints(o: Opt) {
    PlainWord(o.flag) && IsPrinted(o.value) && forall w | w in o.more :: IsPrinted(w)
  }

  lemma {:induction false} WordsPrint(opts: seq<Opt>)
    requires forall o | o in opts :: Prints(o)
    ensures forall w | w in AllWords(opts) :: IsPrinted(w)
  {
    if opts != [] {
      assert opts[0] in opts && forall o | o in opts[1..] :: o in opts;
      WordsPrint(opts[1..]);
      assert PlainWord(BANG);
    }
  }

  lemma ScopePrints(r: Rule)
    requires WellFormed(r)
    ensures forall o | o in ScopeOpts(r) :: Prints(o)
  {
    if r.source.Some? {
      AddressIsPlain(r.source.value.value);
    }
    if r.destination.Some? {
      AddressIsPlain(r.destination.value.value);
    }
    assert PlainWord("-s") && PlainWord("-d") && PlainWord("-i");
  }

  lemma PortsPrint(r: Rule)
    requires WellFormed(r)
    ensures forall o | o in PortOpts(r) :: Prints(o)
  {
    if !r.ports.AnyPort? {
      PortsArePlain(r.ports.ranges);
      PortFlagsPrint();
      assert PlainWord("-m") && PlainWord("tcp") && PlainWord("multiport");
    }
  }

  lemma PortFlagsPrint()
    ensures PlainWord("--dport") && PlainWord("--dports") && PlainWord("--sport") && PlainWord("--sports")
  {}

  lemma SynPrints(r: Rule)
    ensures forall o | o in SynOpts(r) :: Prints(o)
  {
    assert PlainWord("-m") && PlainWord("tcp") && PlainWord("--tcp-flags");
    assert PlainWord("FIN,SYN,RST,ACK") && PlainWord("SYN");
  }

  lemma CommentPrints(r: Rule)
    requires WellFormed(r)
    ensures forall o | o in CommentOpts(r) + ProtoOpts(r) :: Prints(o)
  {
    assert PlainWord("-m") && PlainWord("comment") && PlainWord("--comment") && PlainWord("-p");
  }

  lemma TargetPrints(r: Rule)
    requires WellFormed(r)
    ensures forall o | o in TargetOpts(r) :: Prints(o)
  {
    assert PlainWord("-j") && PlainWord("-g") && PlainWord("--reject-with");
    assert PlainWord("ACCEPT") && PlainWord("DROP") && PlainWord("REJECT");
  }

  lemma RulePrints(r: Rule)
    requires WellFormed(r)
    ensures forall w | w in RuleWords(r) :: IsPrinted(w)
  {
    forall o | o in Opts(r)
      ensures Prints(o)
    {
      OptsIn(r, o);
      ScopePrints(r);
      PortsPrint(r);
      SynPrints(r);
      CommentPrints(r);
      TargetPrints(r);
    }
    WordsPrint(Opts(r));
    assert PlainWord("-A");
  }

  /** The text printed for a rule reads back as its words, whatever its comment. */
  lemma RuleTextWords(r: Rule)
    requires WellFormed(r)
    ensures Whole(RuleText(r)) && Words(Flat(RuleText(r))) == RuleWords(r)
  {
    RulePrints(r);
    PrintedLine(RuleWords(r), if r.comment.Some? then r.comment.value else "");
  }

  // ------------------------------------------------------------------ first match

  /** The lines iptables' listing of the rules is cut into. */
  function ListedLines(rules: seq<Rule>): seq<string> {
    Split(Rules(Listing(Texts(rules))), '\n')
  }

  predicate AllWellFormed(rules: seq<Rule>) {
    forall r | r in rules :: WellFormed(r)
  }

  /** What a rule says, with the rule's text where it blocks. */
  function AnswerOf(r: Rule, port: int): Answer {
    Answer(RuleSays(r, port), if RuleSays(r, port) == Blocked then TrimSpace(Flat(RuleText(r))) else "")
  }

  function AnswersOf(rules: seq<Rule>, port: int): (answers: seq<Answer>)
    ensures |answers| == |rules| && forall i | 0 <= i < |rules| :: answers[i] == AnswerOf(rules[i], port)
  {
    seq(|rules|, i requires 0 <= i < |rules| => AnswerOf(rules[i], port))
  }

  /** The walk over lines whose verdicts are the answers, the last one being
      undecided. */
  lemma {:induction false} FirstDecides(lines: seq<string>, answers: seq<Answer>, port: int)
    requires |lines| == |answers| + 1 && Verdict(lines[|answers|], port) == NOT_DECIDED
    requires forall i | 0 <= i < |answers| :: Verdict(lines[i], port) == answers[i]
    ensures FirstOf(answers, Decide(lines, port))
  {
    if answers == [] {
      assert Decide(lines[1..], port) == NOT_DECIDED;
    } else if answers[0].state != Absent {
      assert DecidesFirst(answers, 0);
    } else {
      FirstDecides(lines[1..], answers[1..], port);
      FirstOfMore(answers, Decide(lines[1..], port));
    }
  }

  lemma ListedLine(r: Rule, port: int)
    requires WellFormed(r)
    ensures Whole(RuleText(r)) && Verdict(Flat(RuleText(r)), port) == AnswerOf(r, port)
  {
    RuleTextWords(r);
    LineSays(Flat(RuleText(r)), r, port);
  }

  lemma LinesOfListed(rules: seq<Rule>, port: int)
    requires AllWellFormed(rules)
    ensures |ListedLines(rules)| == |rules| + 1
    ensures forall i | 0 <= i < |rules| :: Verdict(ListedLines(rules)[i], port) == AnswerOf(rules[i], port)
    ensures Verdict(ListedLines(rules)[|rules|], port) == NOT_DECIDED
  {
    var texts := Texts(rules);
    forall i | 0 <= i < |rules|
      ensures Whole(texts[i]) && Verdict(FlatAll(texts)[i], port) == AnswerOf(rules[i], port)
    {
      assert rules[i] in rules;
      ListedLine(rules[i], port);
    }
    RulesOfListing(texts);
    assert ListedLines(rules) == FlatAll(texts) + [""];
    assert Verdict("", port) == NOT_DECIDED;
  }

  /** The port's answer read off the listing of any rules is that of the first
      rule that says something of it: an ACCEPT admits, a DROP or REJECT without
      scope blocks and is named, a scoped deny, a loopback rule, a negated or
      source port, another match on a rule without ports, and a jump say nothing. */
  lemma ListedRulesDecide(rules: seq<Rule>, port: int)
    requires AllWellFormed(rules)
    ensures FirstOf(AnswersOf(rules, port), Decide(ListedLines(rules), port))
  {
    LinesOfListed(rules, port);
    FirstDecides(ListedLines(rules), AnswersOf(rules, port), port);
  }
}
