/** Rules as data, printed as `iptables -S` prints them, and what the reader makes
    of the text: first match over the data. */
module IptPrinted {
  import opened Text
  import opened IptRules
  import opened IptDecide
  import opened IptLegacy
  import opened PortLists
  import opened IptOptions

  // ------------------------------------------------------------------- the data

  /** An IPv4 prefix. */
  datatype Address = Address(a: nat, b: nat, c: nat, d: nat, bits: nat)

  datatype Matched<+T> = Matched(negated: bool, value: T)

  datatype PortMatch =
    | AnyPort
    | Dest(negated: bool, ranges: seq<PortRange>)
    | Source(negated: bool, ranges: seq<PortRange>)

  datatype Target = Accept | Drop | Reject(answer: Option<string>) | Jump(chain: string) | Goto(chain: string) | NoTarget

  /** syn: only packets that open a connection. others: the options of any other
      match, conntrack's or an output interface say. */
  datatype Rule = Rule(
    chain: string,
    source: Option<Matched<Address>>,
    destination: Option<Matched<Address>>,
    input: Option<Matched<string>>,
    proto: Option<string>,
    syn: bool,
    ports: PortMatch,
    others: seq<Opt>,
    comment: Option<string>,
    target: Target)

  /** A name as iptables takes them: one plain word that is no option. */
  predicate IsPlainName(w: string) {
    PlainWord(w) && IsValue(w)
  }

  predicate IsAddress(x: Address) {
    x.a <= 255 && x.b <= 255 && x.c <= 255 && x.d <= 255 && x.bits <= 32
  }

  /** The flags of the matches above, of the chain and of the target. */
  const KNOWN := {"-A", "-s", "-d", "-i", "-p", "-m", "-j", "-g", "--reject-with", "--comment", "--tcp-flags",
                  "--dport", "--dports", "--ports", "--sport", "--sports"}

  /** An option of another match, or `-m` with another one's name. */
  predicate IsOther(o: Opt) {
    && IsFlag(o.flag) && PlainWord(o.flag) && IsPlainName(o.value) && o.more == []
    && (o.flag !in KNOWN || (o.flag == "-m" && !o.negated && o.value != "tcp" && o.value != "comment"))
  }

  predicate WellFormed(r: Rule) {
    && IsPlainName(r.chain)
    && (r.source.Some? ==> IsAddress(r.source.value.value))
    && (r.destination.Some? ==> IsAddress(r.destination.value.value))
    && (r.input.Some? ==> IsPlainName(r.input.value.value))
    && (r.proto.Some? ==> IsPlainName(r.proto.value))
    && (!r.ports.AnyPort? ==> r.ports.ranges != [])
    && (forall o | o in r.others :: IsOther(o))
    && TargetWellFormed(r.target)
  }

  predicate TargetWellFormed(t: Target) {
    match t
    case Reject(answer) => answer.Some? ==> IsPlainName(answer.value)
    case Jump(chain) => IsPlainName(chain) && chain != "ACCEPT" && chain != "DROP" && chain != "REJECT"
    case Goto(chain) => IsPlainName(chain)
    case _ => true
  }

  // ------------------------------------------------------------ what a rule does

  /** Scoped to the loopback interface or to loopback addresses. */
  predicate IsLocal(r: Rule) {
    || (r.input.Some? && OnLoopback(r.input.value))
    || (r.source.Some? && InLoopback(r.source.value))
    || (r.destination.Some? && InLoopback(r.destination.value))
  }

  predicate OnLoopback(m: Matched<string>) {
    !m.negated && (m.value == "lo" || m.value == "lo+")
  }

  predicate InLoopback(m: Matched<Address>) {
    !m.negated && m.value.a == 127
  }

  /** A scope that is none, or is negated and shuts out loopback alone. */
  predicate ShutsOutLoopbackOnly(r: Rule) {
    && (r.input.Some? && r.input.value.negated ==> r.input.value.value == "lo" || r.input.value.value == "lo+")
    && (r.source.Some? && r.source.value.negated ==> r.source.value.value.a == 127)
    && (r.destination.Some? && r.destination.value.negated ==> r.destination.value.value.a == 127)
  }

  /** The rule applies to TCP connections to the port. */
  predicate Reaches(r: Rule, port: int) {
    match r.ports
    case AnyPort => r.others == [] && (r.proto == None || r.proto == Some("tcp")) && ShutsOutLoopbackOnly(r) && !r.target.Goto?
    case Dest(negated, ranges) => r.proto == Some("tcp") && !negated && AnyHolds(ranges, port)
    case Source(_, _) => false
  }

  /** Narrowed by interface or address, or by a negation. */
  predicate IsScoped(r: Rule) {
    || r.source.Some? || r.destination.Some? || r.input.Some? || (!r.ports.AnyPort? && r.ports.negated)
    || exists o | o in r.others :: o.negated
  }

  /** What one rule says of the port. */
  function RuleSays(r: Rule, port: int): RuleState {
    if IsLocal(r) || !Reaches(r, port) then Absent
    else
      match r.target
      case Accept => Present
      case Drop => if IsScoped(r) then Absent else Blocked
      case Reject(_) => if IsScoped(r) then Absent else Blocked
      case _ => Absent
  }

  // -------------------------------------------------------------------- printing

  function AddressText(x: Address): string {
    Join([Itoa(x.a), Itoa(x.b), Itoa(x.c), Itoa(x.d)], '.') + "/" + Itoa(x.bits)
  }

  function Single(flag: string, value: string): Opt {
    Opt(false, flag, value, [])
  }

  function AddressOpt(flag: string, m: Option<Matched<Address>>): seq<Opt> {
    match m
    case None => []
    case Some(x) => [Opt(x.negated, flag, AddressText(x.value), [])]
  }

  function InputOpt(m: Option<Matched<string>>): seq<Opt> {
    match m
    case None => []
    case Some(x) => [Opt(x.negated, "-i", x.value, [])]
  }

  function ScopeOpts(r: Rule): seq<Opt> {
    AddressOpt("-s", r.source) + AddressOpt("-d", r.destination)
    + InputOpt(r.input)
  }

  function ProtoOpts(r: Rule): seq<Opt> {
    match r.proto case None => [] case Some(p) => [Single("-p", p)]
  }

  function SynOpts(r: Rule): seq<Opt> {
    if r.syn then [Single("-m", "tcp"), Opt(false, "--tcp-flags", "FIN,SYN,RST,ACK", ["SYN"])] else []
  }

  /** One range by the tcp match, a list by multiport. */
  function PortOpts(r: Rule): seq<Opt> {
    match r.ports
    case AnyPort => []
    case Dest(negated, ranges) =>
      if |ranges| == 1 then [Single("-m", "tcp"), Opt(negated, "--dport", PortsText(ranges), [])]
      else [Single("-m", "multiport"), Opt(negated, "--dports", PortsText(ranges), [])]
    case Source(negated, ranges) =>
      if |ranges| == 1 then [Single("-m", "tcp"), Opt(negated, "--sport", PortsText(ranges), [])]
      else [Single("-m", "multiport"), Opt(negated, "--sports", PortsText(ranges), [])]
  }

  /** A comment's text blanked, as the reader sees it. */
  const QUOTES := "\"\""

  function CommentOpts(r: Rule): seq<Opt> {
    if r.comment == None then [] else [Single("-m", "comment"), Single("--comment", QUOTES)]
  }

  function TargetOpts(r: Rule): seq<Opt> {
    match r.target
    case Accept => [Single("-j", "ACCEPT")]
    case Drop => [Single("-j", "DROP")]
    case Reject(answer) =>
      [Single("-j", "REJECT")] + (match answer case None => [] case Some(w) => [Single("--reject-with", w)])
    case Jump(chain) => [Single("-j", chain)]
    case Goto(chain) => [Single("-g", chain)]
    case NoTarget => []
  }

  function Opts(r: Rule): seq<Opt> {
    ScopeOpts(r) + (ProtoOpts(r) + (SynOpts(r) + (PortOpts(r) + (r.others + (CommentOpts(r) + TargetOpts(r))))))
  }

  /** The rule's words, its comment blanked. */
  function RuleWords(r: Rule): seq<string> {
    ["-A", r.chain] + AllWords(Opts(r))
  }

  // ------------------------------------------------------------- flags, by part

  lemma ScopeFlags(r: Rule)
    ensures forall o | o in ScopeOpts(r) :: o.flag == "-s" || o.flag == "-d" || o.flag == "-i"
  {}

  lemma ProtoFlags(r: Rule)
    ensures forall o | o in ProtoOpts(r) :: o.flag == "-p"
  {}

  lemma SynFlags(r: Rule)
    ensures forall o | o in SynOpts(r) :: o.flag == "-m" || o.flag == "--tcp-flags"
  {}

  lemma PortFlags(r: Rule)
    ensures forall o | o in PortOpts(r) :: o.flag == "-m" || o.flag in {"--dport", "--dports", "--sport", "--sports"}
  {}

  lemma CommentFlags(r: Rule)
    ensures forall o | o in CommentOpts(r) :: o.flag == "-m" || o.flag == "--comment"
  {}

  lemma TargetFlags(r: Rule)
    ensures forall o | o in TargetOpts(r) :: o.flag in {"-j", "-g", "--reject-with"}
  {}

  /** The flags a rule's options may have. */
  lemma OptsIn(r: Rule, o: Opt)
    ensures o in Opts(r) <==> o in ScopeOpts(r) || o in ProtoOpts(r) || o in SynOpts(r) || o in PortOpts(r) || o in r.others
                              || o in CommentOpts(r) || o in TargetOpts(r)
  {}

  lemma OtherFlag(o: Opt)
    requires IsOther(o)
    ensures o.flag !in KNOWN || o.flag == "-m"
  {}

  lemma PartOf(r: Rule, o: Opt)
    requires WellFormed(r) && o in Opts(r)
    ensures o.flag in {"-s", "-d", "-i"} ==> o in ScopeOpts(r)
    ensures o.flag == "-p" ==> o in ProtoOpts(r)
    ensures o.flag in {"--dport", "--dports", "--sport", "--sports"} ==> o in PortOpts(r)
    ensures o.flag in {"-j", "-g", "--reject-with"} ==> o in TargetOpts(r)
    ensures o.flag != "--ports"
  {
    OptsIn(r, o);
    ScopeFlags(r);
    ProtoFlags(r);
    SynFlags(r);
    PortFlags(r);
    CommentFlags(r);
    TargetFlags(r);
    if o in r.others {
      OtherFlag(o);
    }
  }

  /** The reader's view of one flag: the option that has it, if one does. */
  lemma ValueByPart(r: Rule, o: Opt)
    requires o in Opts(r) && forall p | p in Opts(r) && p.flag == o.flag :: p == o
    ensures Value(Opts(r), o.flag) == if o.negated then "" else o.value
  {
    ValueIs(Opts(r), o);
  }

  lemma ProtoValue(r: Rule)
    requires WellFormed(r)
    ensures Value(Opts(r), "-p") == if r.proto.Some? then r.proto.value else ""
  {
    forall o | o in Opts(r) && o.flag == "-p"
      ensures o in ProtoOpts(r)
    {
      PartOf(r, o);
    }
    if r.proto.Some? {
      var o := Single("-p", r.proto.value);
      assert o in ProtoOpts(r);
      OptsIn(r, o);
      ValueByPart(r, o);
    } else {
      ValueIsNone(Opts(r), "-p");
    }
  }

  function TargetWord(t: Target): string {
    match t
    case Accept => "ACCEPT"
    case Drop => "DROP"
    case Reject(_) => "REJECT"
    case Jump(chain) => chain
    case Goto(_) => ""
    case NoTarget => ""
  }

  lemma JumpOpt(r: Rule, o: Opt)
    requires o in TargetOpts(r)
    ensures o.flag == "-j" ==> !r.target.Goto? && !r.target.NoTarget? && o == Single("-j", TargetWord(r.target))
    ensures o.flag == "-g" ==> r.target.Goto? && o == Single("-g", r.target.chain)
  {}

  lemma TargetValue(r: Rule)
    requires WellFormed(r)
    ensures Value(Opts(r), "-j") == TargetWord(r.target)
  {
    forall o | o in Opts(r) && o.flag == "-j"
      ensures !r.target.Goto? && !r.target.NoTarget? && o == Single("-j", TargetWord(r.target))
    {
      PartOf(r, o);
      JumpOpt(r, o);
    }
    if r.target.Goto? || r.target.NoTarget? {
      ValueIsNone(Opts(r), "-j");
    } else {
      var o := Single("-j", TargetWord(r.target));
      assert o in TargetOpts(r);
      OptsIn(r, o);
      ValueByPart(r, o);
    }
  }

  /** The flag of the rule's destination ports, when they are not negated. */
  function DestFlag(r: Rule): string {
    if !r.ports.Dest? then "" else if |r.ports.ranges| == 1 then "--dport" else "--dports"
  }

  lemma DestOpt(r: Rule, o: Opt)
    requires o in PortOpts(r) && (o.flag == "--dport" || o.flag == "--dports")
    ensures r.ports.Dest? && o == Opt(r.ports.negated, DestFlag(r), PortsText(r.ports.ranges), [])
  {}

  lemma DestValue(r: Rule, flag: string)
    requires WellFormed(r) && flag in DEST_PORT_FLAGS
    ensures Value(Opts(r), flag)
         == if r.ports.Dest? && flag == DestFlag(r) && !r.ports.negated then PortsText(r.ports.ranges) else ""
  {
    DestFlagsAre(flag);
    forall o | o in Opts(r) && o.flag == flag
      ensures r.ports.Dest? && flag == DestFlag(r) && o == Opt(r.ports.negated, flag, PortsText(r.ports.ranges), [])
    {
      PartOf(r, o);
      DestOpt(r, o);
    }
    if r.ports.Dest? && flag == DestFlag(r) {
      var o := Opt(r.ports.negated, flag, PortsText(r.ports.ranges), []);
      assert o in PortOpts(r);
      OptsIn(r, o);
      ValueByPart(r, o);
    } else {
      ValueIsNone(Opts(r), flag);
    }
  }

  lemma DestFlagsAre(flag: string)
    requires flag in DEST_PORT_FLAGS
    ensures flag == "--dport" || flag == "--dports" || flag == "--ports"
  {
    var i :| 0 <= i < |DEST_PORT_FLAGS| && DEST_PORT_FLAGS[i] == flag;
  }

  function MatchedText(m: Option<Matched<Address>>): string {
    if m.Some? && !m.value.negated then AddressText(m.value.value) else ""
  }

  function InputText(r: Rule): string {
    if r.input.Some? && !r.input.value.negated then r.input.value.value else ""
  }

  lemma ScopeOpt(r: Rule, o: Opt)
    requires o in ScopeOpts(r)
    ensures o.flag == "-s" ==> r.source.Some? && o == Opt(r.source.value.negated, "-s", AddressText(r.source.value.value), [])
    ensures o.flag == "-d" ==> r.destination.Some? && o == Opt(r.destination.value.negated, "-d", AddressText(r.destination.value.value), [])
    ensures o.flag == "-i" ==> r.input.Some? && o == Opt(r.input.value.negated, "-i", r.input.value.value, [])
  {}

  lemma ScopeValues(r: Rule)
    requires WellFormed(r)
    ensures Value(Opts(r), "-i") == InputText(r)
    ensures Value(Opts(r), "-s") == MatchedText(r.source)
    ensures Value(Opts(r), "-d") == MatchedText(r.destination)
  {
    forall o | o in Opts(r) && o.flag in {"-s", "-d", "-i"}
      ensures o in ScopeOpts(r)
    {
      PartOf(r, o);
    }
    InputValue(r);
    SourceValue(r);
    DestinationValue(r);
  }

  lemma InputValue(r: Rule)
    requires forall o | o in Opts(r) && o.flag == "-i" :: o in ScopeOpts(r)
    ensures Value(Opts(r), "-i") == InputText(r)
  {
    forall o | o in Opts(r) && o.flag == "-i"
      ensures r.input.Some? && o == Opt(r.input.value.negated, "-i", r.input.value.value, [])
    {
      ScopeOpt(r, o);
    }
    if r.input.Some? {
      var o := Opt(r.input.value.negated, "-i", r.input.value.value, []);
      assert o in ScopeOpts(r);
      OptsIn(r, o);
      ValueByPart(r, o);
    } else {
      ValueIsNone(Opts(r), "-i");
    }
  }

  lemma SourceValue(r: Rule)
    requires forall o | o in Opts(r) && o.flag == "-s" :: o in ScopeOpts(r)
    ensures Value(Opts(r), "-s") == MatchedText(r.source)
  {
    forall o | o in Opts(r) && o.flag == "-s"
      ensures r.source.Some? && o == Opt(r.source.value.negated, "-s", AddressText(r.source.value.value), [])
    {
      ScopeOpt(r, o);
    }
    if r.source.Some? {
      var o := Opt(r.source.value.negated, "-s", AddressText(r.source.value.value), []);
      assert o in AddressOpt("-s", r.source);
      assert o in ScopeOpts(r);
      OptsIn(r, o);
      ValueByPart(r, o);
    } else {
      ValueIsNone(Opts(r), "-s");
    }
  }

  lemma DestinationValue(r: Rule)
    requires forall o | o in Opts(r) && o.flag == "-d" :: o in ScopeOpts(r)
    ensures Value(Opts(r), "-d") == MatchedText(r.destination)
  {
    forall o | o in Opts(r) && o.flag == "-d"
      ensures r.destination.Some? && o == Opt(r.destination.value.negated, "-d", AddressText(r.destination.value.value), [])
    {
      ScopeOpt(r, o);
    }
    if r.destination.Some? {
      var o := Opt(r.destination.value.negated, "-d", AddressText(r.destination.value.value), []);
      assert o in AddressOpt("-d", r.destination);
      assert o in ScopeOpts(r);
      OptsIn(r, o);
      ValueByPart(r, o);
    } else {
      ValueIsNone(Opts(r), "-d");
    }
  }

  // ------------------------------------------------------------------ addresses

  lemma OctetText(n: nat)
    requires n <= 255
    ensures IsOctet(Itoa(n)) && '.' !in Itoa(n) && '/' !in Itoa(n)
  {
    DigitsOfItoa(n);
    NoLeadingZero(n);
    ShortDigits(n);
  }

  lemma ShortDigits(n: nat)
    requires n <= 255
    ensures |Itoa(n)| <= 3
  {
    if n >= 10 {
      assert |Itoa(n)| == |Itoa(n / 10)| + 1;
      if n >= 100 {
        assert n / 10 < 100;
        assert |Itoa(n / 10)| == |Itoa(n / 10 / 10)| + 1;
      }
    }
  }

  lemma {:induction false} NoLeadingZero(n: nat)
    ensures |Itoa(n)| > 1 ==> Itoa(n)[0] != '0'
    ensures n > 0 ==> Itoa(n)[0] != '0'
  {
    if n >= 10 {
      NoLeadingZero(n / 10);
      assert Itoa(n)[0] == Itoa(n / 10)[0];
    }
  }

  lemma ItoaIsOne(m: nat, n: nat)
    requires Itoa(m) == Itoa(n)
    ensures m == n
  {
    DigitsOfItoa(m);
    DigitsOfItoa(n);
  }

  /** An address printed is a loopback one when its first octet is 127. */
  lemma AddressIsLoopback(x: Address)
    requires IsAddress(x)
    ensures LoopbackPrefix(AddressText(x)) <==> x.a == 127
  {
    var octets := [Itoa(x.a), Itoa(x.b), Itoa(x.c), Itoa(x.d)];
    var dotted, bits := Join(octets, '.'), Itoa(x.bits);
    OctetText(x.a);
    OctetText(x.b);
    OctetText(x.c);
    OctetText(x.d);
    OctetText(x.bits);
    SplitOfJoin(octets, '.');
    DottedHolds(octets, '/');
    SplitOfConcat(dotted, bits, '/');
    SplitOfOnePart(dotted, '/');
    SplitOfOnePart(bits, '/');
    assert AddressText(x) == dotted + ['/'] + bits;
    assert Split(AddressText(x), '/') == [dotted, bits];
    DigitsOfItoa(x.bits);
    assert IsOctet(bits);
    LoopbackText();
    if Itoa(x.a) == "127" {
      ItoaIsOne(x.a, 127);
    }
  }

  lemma LoopbackText()
    ensures Itoa(127) == "127"
  {
    assert Itoa(1) == "1" && Itoa(12) == Itoa(1) + "2" && Itoa(127) == Itoa(12) + "7";
  }

  lemma {:induction false} DottedHolds(octets: seq<string>, c: char)
    requires c != '.' && forall o | o in octets :: c !in o
    ensures c !in Join(octets, '.')
  {
    if octets != [] {
      assert octets[0] in octets && forall o | o in octets[1..] :: o in octets;
      DottedHolds(octets[1..], c);
    }
  }

  predicate AddressChar(c: char) {
    IsDigit(c) || c == '.' || c == '/'
  }

  lemma AddressChars(x: Address)
    ensures AddressText(x) != "" && IsDigit(AddressText(x)[0]) && forall c | c in AddressText(x) :: AddressChar(c)
  {
    var a, b, c, d := Itoa(x.a), Itoa(x.b), Itoa(x.c), Itoa(x.d);
    ItoaStartsWithDigit(x.a);
    assert [a, b, c, d][1..] == [b, c, d] && [b, c, d][1..] == [c, d] && [c, d][1..] == [d];
    assert Join([d], '.') == d && Join([c, d], '.') == c + ['.'] + d;
    assert Join([b, c, d], '.') == b + ['.'] + Join([c, d], '.');
    assert Join([a, b, c, d], '.') == a + ['.'] + Join([b, c, d], '.');
  }
}
