/** Which printed rules the reader takes for an unscoped allow, an ACCEPT off the
    tailnet, and a jump to ts-input: conditions on the rule itself. */
module IptKinds {
  import opened Text
  import opened IptRules
  import opened IptDecide
  import opened IptLegacy
  import opened IptOptions
  import opened IptPrinted
  import opened IptFirstMatch

  /** The rule on the line the reader sees. */
  function RuleLine(r: Rule): string {
    Flat(RuleText(r))
  }

  lemma LineWords(r: Rule)
    requires WellFormed(r)
    ensures Words(RuleLine(r)) == RuleWords(r)
  {
    RuleTextWords(r);
  }

  /** The unscoped allows are the INPUT rules that accept the named TCP port from
      everywhere. */
  lemma UnscopedRule(r: Rule, port: int)
    requires WellFormed(r)
    ensures IsUnscoped(RuleLine(r), port)
       <==> r.chain == "INPUT" && r.target == Accept && NamesPort(r, port) && !IsLocal(r) && !IsScoped(r)
  {
    LineWords(r);
    RuleAccepts(r);
    RuleNamesPort(r, port);
    RuleIsLocal(r);
    RuleIsScoped(r);
    WordsKind(RuleLine(r), RuleWords(r), port);
    assert RuleWords(r)[0] == "-A" && RuleWords(r)[1] == r.chain;
  }

  lemma RuleAccepts(r: Rule)
    requires WellFormed(r)
    ensures Flag(RuleWords(r), "-j") == "ACCEPT" <==> r.target == Accept
  {
    FlagOfRule(r, "-j");
    TargetValue(r);
  }

  lemma WordsKind(line: string, f: seq<string>, port: int)
    requires Words(line) == f && |f| >= 2
    ensures IsUnscoped(line, port)
       <==> f[0] == "-A" && f[1] == "INPUT" && Flag(f, "-j") == "ACCEPT" && PortCovers(f, port) && !Loopback(f) && !HasScope(f)
  {}

  predicate FromElsewhere(r: Rule) {
    || (r.input.Some? && !r.input.value.negated && r.input.value.value != "tailscale0")
    || (r.source.Some? && !r.source.value.negated)
    || (r.destination.Some? && !r.destination.value.negated)
  }

  lemma OffTailnetRule(r: Rule)
    requires WellFormed(r)
    ensures OffTailnet(RuleLine(r)) <==> r.target == Accept && FromElsewhere(r)
  {
    LineWords(r);
    FlagOfRule(r, "-j");
    TargetValue(r);
    FlagOfRule(r, "-i");
    FlagOfRule(r, "-s");
    FlagOfRule(r, "-d");
    ScopeValues(r);
    if r.source.Some? {
      AddressChars(r.source.value.value);
    }
    if r.destination.Some? {
      AddressChars(r.destination.value.value);
    }
  }

  // -------------------------------------------------------------- jumps to ts-input

  /** tailscaled's own jump: every packet of INPUT goes to ts-input. */
  predicate PlainJump(r: Rule) {
    r == Rule("INPUT", None, None, None, None, false, AnyPort, [], None, Jump("ts-input"))
  }

  predicate GoesToTSInput(r: Rule) {
    r.target == Jump("ts-input") || r.target == Goto("ts-input")
  }

  lemma TargetPair(r: Rule, flag: string)
    requires WellFormed(r) && (flag == "-j" || flag == "-g")
    ensures HasPair(RuleWords(r), flag, TS_INPUT) <==> r.target == if flag == "-j" then Jump("ts-input") else Goto("ts-input")
  {
    OptsOk(r);
    HeadIsPlain(r);
    assert !HasPair(Head(r), flag, TS_INPUT);
    PairInConcat(Head(r), AllWords(Opts(r)), flag, TS_INPUT);
    PairOfWords(Opts(r), flag, TS_INPUT);
    forall o | o in Opts(r) && o.flag == flag
      ensures o in TargetOpts(r)
    {
      PartOf(r, o);
    }
    forall o | o in TargetOpts(r)
      ensures o in Opts(r)
    {
      OptsIn(r, o);
    }
    TargetOptPair(r, flag);
  }

  lemma TargetOptPair(r: Rule, flag: string)
    requires WellFormed(r) && (flag == "-j" || flag == "-g")
    ensures (exists o | o in TargetOpts(r) :: o.flag == flag && o.value == TS_INPUT)
       <==> r.target == if flag == "-j" then Jump("ts-input") else Goto("ts-input")
  {
    if r.target == Jump("ts-input") || r.target == Goto("ts-input") {
      assert TargetOpts(r)[0] in TargetOpts(r);
    }
  }

  lemma OnlyTheJump(r: Rule)
    requires WellFormed(r) && RuleWords(r) == ["-A", "INPUT", "-j", TS_INPUT]
    ensures PlainJump(r)
  {
    var f := RuleWords(r);
    assert f[0] == "-A" && f[1] == r.chain;
    assert AllWords(Opts(r)) == f[2..] == ["-j", TS_INPUT];
    OptsOk(r);
    OneOptOfTwoWords(Opts(r));
    NothingElse(r);
  }

  lemma OneOptOfTwoWords(opts: seq<Opt>)
    requires OkOpts(opts) && AllWords(opts) == ["-j", TS_INPUT]
    ensures opts == [Opt(false, "-j", TS_INPUT, [])]
  {
    TailIsOk(opts);
    var o, f := opts[0], AllWords(opts);
    BangIsNoFlag();
    assert f[0] == "-j";
    assert !o.negated;
    assert f[1] == o.value && |OptWords(o)| == 2;
    assert f[2..] == AllWords(opts[1..]) == [];
  }

  lemma NothingElse(r: Rule)
    requires WellFormed(r) && r.chain == "INPUT" && Opts(r) == [Single("-j", TS_INPUT)]
    ensures PlainJump(r)
  {
    var o := Single("-j", TS_INPUT);
    forall p | p in Opts(r)
      ensures p == o
    {
    }
    forall p: Opt
      ensures p in ScopeOpts(r) || p in ProtoOpts(r) || p in SynOpts(r) || p in PortOpts(r) || p in CommentOpts(r) || p in r.others ==> p == o
    {
      OptsIn(r, p);
    }
    ScopeFlags(r);
    ProtoFlags(r);
    SynFlags(r);
    PortFlags(r);
    CommentFlags(r);
    EmptyParts(r);
    NoOther(r, o);
    assert o in Opts(r);
    OptsIn(r, o);
    JumpOpt(r, o);
  }

  lemma NoOther(r: Rule, o: Opt)
    requires WellFormed(r) && o.flag in KNOWN && o.flag != "-m" && forall p | p in r.others :: p == o
    ensures r.others == []
  {
    if r.others != [] {
      OtherFlag(r.others[0]);
    }
  }

  /** A part that must hold nothing is empty, and so is its match. */
  lemma EmptyParts(r: Rule)
    requires WellFormed(r)
    requires forall p | p in ScopeOpts(r) :: p.flag == "-j"
    requires forall p | p in ProtoOpts(r) :: p.flag == "-j"
    requires forall p | p in SynOpts(r) :: p.flag == "-j"
    requires forall p | p in PortOpts(r) :: p.flag == "-j"
    requires forall p | p in CommentOpts(r) :: p.flag == "-j"
    ensures r.source == None && r.destination == None && r.input == None && r.proto == None
    ensures !r.syn && r.ports.AnyPort? && r.comment == None
  {
    EmptyScope(r);
    FirstOpts(r);
  }

  lemma FirstOpts(r: Rule)
    ensures r.proto.Some? ==> ProtoOpts(r) != [] && ProtoOpts(r)[0] in ProtoOpts(r) && ProtoOpts(r)[0].flag == "-p"
    ensures r.syn ==> SynOpts(r) != [] && SynOpts(r)[0] in SynOpts(r) && SynOpts(r)[0].flag == "-m"
    ensures !r.ports.AnyPort? ==> PortOpts(r) != [] && PortOpts(r)[0] in PortOpts(r) && PortOpts(r)[0].flag == "-m"
    ensures r.comment.Some? ==> CommentOpts(r) != [] && CommentOpts(r)[0] in CommentOpts(r) && CommentOpts(r)[0].flag == "-m"
  {}

  lemma EmptyScope(r: Rule)
    requires forall p | p in ScopeOpts(r) :: p.flag == "-j"
    ensures r.source == None && r.destination == None && r.input == None
  {
    ScopeFlags(r);
    if ScopeOpts(r) != [] {
      assert ScopeOpts(r)[0] in ScopeOpts(r);
    }
  }

  lemma PlainJumpText(r: Rule)
    requires PlainJump(r)
    ensures WellFormed(r) && RuleWords(r) == ["-A", "INPUT", "-j", TS_INPUT]
    ensures Fields(RuleLine(r)) == RuleWords(r)
  {
    JumpWords();
    JumpIsOnlyOpt(r);
    PlainLine(RuleWords(r), "");
  }

  lemma JumpIsOnlyOpt(r: Rule)
    requires PlainJump(r)
    ensures RuleWords(r) == ["-A", "INPUT", "-j", TS_INPUT]
  {
    var o := Single("-j", TS_INPUT);
    assert Opts(r) == [o];
    assert AllWords([o][1..]) == [];
  }

  lemma JumpWords()
    ensures forall w | w in ["-A", "INPUT", "-j", TS_INPUT] :: PlainWord(w)
    ensures IsValue("INPUT") && IsValue(TS_INPUT)
  {
    ShortFlagWords();
    LongFlagWords();
    TSInputIsPlain();
  }

  lemma TSInputIsPlain()
    ensures PlainWord(TS_INPUT)
  {}

  lemma JumpLineWords(line: string)
    requires TSInputJump(line)
    ensures Words(line) == ["-A", "INPUT", "-j", TS_INPUT]
  {
    JumpWords();
    WordsOfUnquoted(line);
  }

  lemma {:induction false} PlainText(words: seq<string>, comment: string)
    requires QUOTES !in words
    ensures PrintRule(Apart(WordPieces(words, comment))) == Join(words, ' ')
  {
    if words != [] {
      var pieces, rest := WordPieces(words, comment), WordPieces(words[1..], comment);
      assert words[0] in words && pieces[1..] == rest;
      if |words| == 1 {
        assert PrintRule(pieces[1..]) == "";
        assert words[0] + "" == words[0];
      } else {
        PlainText(words[1..], comment);
        var p, tail := pieces[0], [Plain(" ")] + Apart(rest);
        assert tail[1..] == Apart(rest);
        assert PrintRule(tail) == " " + Join(words[1..], ' ');
        assert ([p] + tail)[1..] == tail;
        assert PrintRule([p] + tail) == words[0] + PrintRule(tail);
      }
    }
  }

  lemma PlainLine(words: seq<string>, comment: string)
    requires forall w | w in words :: PlainWord(w)
    ensures Fields(Flat(PrintRule(Apart(WordPieces(words, comment))))) == words
  {
    QuotesAreWord();
    PlainText(words, comment);
    JoinHolds(words, '"');
    PlainStaysOutside(Join(words, ' '));
    FieldsOfJoin(words);
  }

  lemma TSInputJumpRule(r: Rule)
    requires WellFormed(r)
    ensures TSInputJump(RuleLine(r)) <==> PlainJump(r)
  {
    if PlainJump(r) {
      PlainJumpText(r);
    } else if TSInputJump(RuleLine(r)) {
      LineWords(r);
      JumpLineWords(RuleLine(r));
      OnlyTheJump(r);
    }
  }

  lemma PairToTSInput(f: seq<string>)
    ensures HasPair(f, "-j", TS_INPUT) || HasPair(f, "-g", TS_INPUT)
       <==> exists i: nat | i + 1 < |f| :: (f[i] == "-j" || f[i] == "-g") && f[i + 1] == TS_INPUT
  {
    forall i: nat | i + 1 < |f| && f[i + 1] == TS_INPUT
      ensures f[i] == "-j" ==> HasPair(f, "-j", TS_INPUT)
      ensures f[i] == "-g" ==> HasPair(f, "-g", TS_INPUT)
    {
      assert PairAt(f, i, f[i], TS_INPUT);
    }
  }

  /** A jump or goto to ts-input is qualified unless it is tailscaled's own. */
  lemma QualifiedJumpRule(r: Rule)
    requires WellFormed(r)
    ensures QualifiedJump(RuleLine(r)) <==> GoesToTSInput(r) && !PlainJump(r)
  {
    var f := RuleWords(r);
    LineWords(r);
    TSInputJumpRule(r);
    TargetPair(r, "-j");
    TargetPair(r, "-g");
    PairToTSInput(f);
    assert f[0] == "-A" && f[1] == r.chain;
  }
}
