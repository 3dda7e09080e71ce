/** ufw rules as data, printed as `ufw show added` lists them, and what the reader
    makes of the list: the first rule that says something of the port. */
module UfwPrinted {
  import opened Text
  import opened IptDecide
  import opened IptLegacy
  import opened PortLists
  import opened Ufw

  datatype Action = Allow | Deny | Reject | Limit

  datatype Direction = Unsaid | In | Out

  /** An address, and a port of its own. */
  datatype Peer = Peer(address: string, ports: seq<PortRange>)

  /** `22,3389/tcp`, or the clauses on, from, to and proto. */
  datatype What =
    | Short(ranges: seq<PortRange>, proto: Option<string>)
    | Full(on: Option<string>, from: Option<Peer>, to: Option<Peer>, proto: Option<string>)

  datatype UfwRule = UfwRule(
    route: bool,
    action: Action,
    direction: Direction,
    log: bool,
    what: What,
    comment: seq<string>)

  const KEYWORDS := {"comment", "out", "in", "from", "on", "to", "port", "proto", "app", "log", "log-all"}

  predicate IsName(w: string) {
    IsWord(w) && w !in KEYWORDS
  }

  predicate WhatWellFormed(w: What) {
    match w
    case Short(ranges, proto) => ranges != [] && (proto.Some? ==> IsWord(proto.value) && '/' !in proto.value)
    case Full(on, from, to, proto) =>
      && (on.Some? ==> IsName(on.value)) && (from.Some? ==> IsName(from.value.address))
      && (to.Some? ==> IsName(to.value.address)) && (proto.Some? ==> IsName(proto.value))
      && (on.Some? || from.Some? || to.Some? || proto.Some?)
  }

  predicate WellFormed(r: UfwRule) {
    WhatWellFormed(r.what) && AreWords(r.comment)
  }

  // ------------------------------------------------------------ what a rule does

  predicate ForTCP(proto: Option<string>) {
    proto == None || proto == Some("tcp")
  }

  /** The rule applies to TCP connections to the port. */
  predicate Reaches(w: What, port: int) {
    match w
    case Short(ranges, proto) => ForTCP(proto) && AnyHolds(ranges, port)
    case Full(_, from, to, proto) =>
      && ForTCP(proto)
      && if to.Some? && to.value.ports != [] then AnyHolds(to.value.ports, port) else from.Some? ==> from.value.ports == []
  }

  /** Narrowed to an interface, a source, or a destination address. */
  predicate IsNarrow(w: What) {
    w.Full? && (w.on.Some? || w.from.Some? || (w.to.Some? && w.to.value.address != "any"))
  }

  function UfwSays(r: UfwRule, port: int): RuleState {
    if r.route || r.direction == Out || !Reaches(r.what, port) then Absent
    else
      match r.action
      case Allow => Present
      case Deny => if IsNarrow(r.what) then Absent else Blocked
      case Reject => if IsNarrow(r.what) then Absent else Blocked
      case Limit => Absent
  }

  // -------------------------------------------------------------------- printing

  function ActionWord(a: Action): string {
    match a case Allow => "allow" case Deny => "deny" case Reject => "reject" case Limit => "limit"
  }

  function DirectionWords(d: Direction): seq<string> {
    match d case Unsaid => [] case In => ["in"] case Out => ["out"]
  }

  function LogWords(r: UfwRule): seq<string> {
    if r.log then ["log"] else []
  }

  function NameClause(keyword: string, name: Option<string>): seq<string> {
    match name case None => [] case Some(w) => [keyword, w]
  }

  function PeerClause(keyword: string, peer: Option<Peer>): seq<string> {
    match peer
    case None => []
    case Some(p) => [keyword, p.address] + (if p.ports == [] then [] else ["port", PortsText(p.ports)])
  }

  function ShortWord(ranges: seq<PortRange>, proto: Option<string>): string {
    PortsText(ranges) + match proto case None => "" case Some(p) => "/" + p
  }

  function WhatWords(w: What): seq<string> {
    match w
    case Short(ranges, proto) => [ShortWord(ranges, proto)]
    case Full(on, from, to, proto) =>
      NameClause("on", on) + (PeerClause("from", from) + (PeerClause("to", to) + NameClause("proto", proto)))
  }

  function CommentWords(r: UfwRule): seq<string> {
    if r.comment == [] then [] else ["comment"] + r.comment
  }

  /** The words between `ufw` and the comment. */
  function BodyWords(r: UfwRule): seq<string> {
    DirectionWords(r.direction) + (LogWords(r) + WhatWords(r.what))
  }

  function UfwWords(r: UfwRule): seq<string> {
    (if r.route then ["ufw", "route"] else ["ufw"]) + ([ActionWord(r.action)] + (BodyWords(r) + CommentWords(r)))
  }

  function UfwText(r: UfwRule): string {
    Join(UfwWords(r), ' ')
  }

  function UfwTexts(rules: seq<UfwRule>): (texts: seq<string>)
    ensures |texts| == |rules| && forall i | 0 <= i < |rules| :: texts[i] == UfwText(rules[i])
  {
    seq(|rules|, i requires 0 <= i < |rules| => UfwText(rules[i]))
  }

  // ----------------------------------------------------------- words of a clause

  lemma {:induction false} IndexInConcat(a: seq<string>, b: seq<string>, w: string)
    ensures IndexOf(a + b, w) == if w in a then IndexOf(a, w) else |a| + IndexOf(b, w)
  {
    if a == [] {
      assert a + b == b;
    } else {
      assert (a + b)[1..] == a[1..] + b;
      IndexInConcat(a[1..], b, w);
      assert w in a <==> w == a[0] || w in a[1..];
    }
  }

  lemma {:induction false} WithoutLogOfConcat(a: seq<string>, b: seq<string>)
    ensures WithoutLog(a + b) == WithoutLog(a) + WithoutLog(b)
  {
    if a == [] {
      assert a + b == b;
    } else {
      assert (a + b)[1..] == a[1..] + b;
      WithoutLogOfConcat(a[1..], b);
    }
  }

  lemma {:induction false} NothingLogged(f: seq<string>)
    requires "log" !in f && "log-all" !in f
    ensures WithoutLog(f) == f
  {
    if f != [] {
      NothingLogged(f[1..]);
    }
  }

  /** A list of ports is a word, and no keyword. */
  lemma PortsAreName(ranges: seq<PortRange>)
    requires ranges != []
    ensures IsName(PortsText(ranges))
  {
    PortsTextChars(ranges);
    assert forall c | ListChar(c) :: !IsSpace(c);
    StartsWithDigit(PortsText(ranges));
  }

  lemma StartsWithDigit(w: string)
    requires w != "" && IsDigit(w[0])
    ensures w !in KEYWORDS
  {}

  lemma ShortIsName(ranges: seq<PortRange>, proto: Option<string>)
    requires WhatWellFormed(Short(ranges, proto))
    ensures IsName(ShortWord(ranges, proto))
  {
    var list, w := PortsText(ranges), ShortWord(ranges, proto);
    PortsTextChars(ranges);
    PortsAreName(ranges);
    assert w[0] == list[0];
    StartsWithDigit(w);
    assert !IsSpace('/');
    forall c | c in w
      ensures !IsSpace(c)
    {
      assert c in list || c == '/' || (proto.Some? && c in proto.value);
    }
  }

  lemma NameWords(keyword: string, name: Option<string>)
    requires name.Some? ==> IsName(name.value)
    ensures forall w | w in NameClause(keyword, name) && w in KEYWORDS :: w == keyword
    ensures IsWord(keyword) ==> AreWords(NameClause(keyword, name))
  {}

  lemma PeerWords(keyword: string, peer: Option<Peer>)
    requires peer.Some? ==> IsName(peer.value.address)
    ensures forall w | w in PeerClause(keyword, peer) && w in KEYWORDS :: w == keyword || (w == "port" && peer.value.ports != [])
    ensures IsWord(keyword) ==> AreWords(PeerClause(keyword, peer))
  {
    if peer.Some? && peer.value.ports != [] {
      PortsAreName(peer.value.ports);
      assert IsWord("port");
    }
  }

  lemma KeywordsAreWords()
    ensures IsWord("on") && IsWord("from") && IsWord("to") && IsWord("proto") && IsWord("comment")
    ensures IsWord("in") && IsWord("out") && IsWord("log") && IsWord("ufw") && IsWord("route")
  {}

  lemma ActionIsWord(a: Action)
    ensures IsWord(ActionWord(a)) && ActionWord(a) !in KEYWORDS && ActionWord(a) != "route"
  {}

  /** The keywords a rule's clauses hold. */
  lemma ClauseWords(w: What)
    requires WhatWellFormed(w) && w.Full?
    ensures AreWords(WhatWords(w))
    ensures forall k | k in WhatWords(w) && k in KEYWORDS :: k in {"on", "from", "to", "port", "proto"}
    ensures "on" in WhatWords(w) <==> w.on.Some?
    ensures "from" in WhatWords(w) <==> w.from.Some?
  {
    KeywordsAreWords();
    NameWords("on", w.on);
    PeerWords("from", w.from);
    PeerWords("to", w.to);
    NameWords("proto", w.proto);
  }

  lemma UnloggedWords(w: What)
    requires WhatWellFormed(w)
    ensures AreWords(WhatWords(w))
    ensures forall k | k in WhatWords(w) && k in KEYWORDS :: k in {"on", "from", "to", "port", "proto"}
  {
    match w
    case Short(ranges, proto) => ShortIsName(ranges, proto);
    case Full(_, _, _, _) => ClauseWords(w);
  }

  // ------------------------------------------------------------ ports and protocol

  lemma ProtoOf(f: seq<string>, proto: Option<string>)
    requires "proto" !in f
    ensures ProtoTCP(f + NameClause("proto", proto)) <==> ForTCP(proto)
  {
    IndexInConcat(f, NameClause("proto", proto), "proto");
    if proto.Some? {
      assert NameClause("proto", proto)[0] == "proto";
    }
  }

  /** The clauses after dir, up to proto. */
  function Clauses(dir: seq<string>, w: What): seq<string>
    requires w.Full?
  {
    dir + NameClause("on", w.on) + PeerClause("from", w.from)
  }

  lemma ClausesHold(dir: seq<string>, w: What)
    requires WhatWellFormed(w) && w.Full? && (dir == [] || dir == ["in"])
    ensures "to" !in Clauses(dir, w) && "proto" !in Clauses(dir, w) && "app" !in Clauses(dir, w)
    ensures "port" in Clauses(dir, w) <==> w.from.Some? && w.from.value.ports != []
    ensures "from" in Clauses(dir, w) <==> w.from.Some?
  {
    NameWords("on", w.on);
    PeerWords("from", w.from);
    FromHolds(w.from);
  }

  lemma FromHolds(from: Option<Peer>)
    ensures "from" in PeerClause("from", from) <==> from.Some?
    ensures from.Some? && from.value.ports != [] ==> "port" in PeerClause("from", from)
  {
    if from.Some? {
      var f := PeerClause("from", from);
      assert f[0] == "from";
      if from.value.ports != [] {
        assert f[2] == "port";
      }
    }
  }

  lemma NoDestPort(f: seq<string>)
    requires "to" !in f && ("port" in f ==> "from" in f)
    ensures DestPortIndex(f) == None
  {}

  lemma DestPortAfterTo(front: seq<string>, to: seq<string>, rest: seq<string>)
    requires "to" !in front && to != [] && to[0] == "to" && "port" !in rest
    ensures DestPortIndex(front + (to + rest)) == if "port" in to then Some(|front| + IndexOf(to, "port")) else None
  {
    var f := front + (to + rest);
    FirstTo(front, to + rest);
    assert f[|front|..] == to + rest;
    IndexInConcat(to, rest, "port");
  }

  lemma FirstTo(front: seq<string>, rest: seq<string>)
    requires "to" !in front && rest != [] && rest[0] == "to"
    ensures IndexOf(front + rest, "to") == |front|
  {
    IndexIs(front + rest, "to", |front|);
  }

  /** The match of a rule of more than one word. */
  lemma LongMatches(f: seq<string>, port: int)
    requires |f| > 1 && !(|f| == 2 && f[0] == "in") && "comment" !in f && "log" !in f && "log-all" !in f
    ensures RuleMatchesPort(f, port) == LongForm(f, port)
  {
    NothingLogged(f);
    assert WithoutComment(f) == f;
  }

  predicate LongForm(f: seq<string>, port: int) {
    match DestPortIndex(f)
    case None => "port" !in f && "app" !in f && ProtoTCP(f)
    case Some(i) => i + 1 < |f| && PortListHas(f[i + 1], port) && ProtoTCP(f)
  }

  lemma FullKeywords(dir: seq<string>, w: What)
    requires WhatWellFormed(w) && w.Full? && (dir == [] || dir == ["in"])
    ensures var f := dir + WhatWords(w); "comment" !in f && "log" !in f && "log-all" !in f && "app" !in f
  {
    UnloggedWords(w);
  }

  lemma PeerPort(keyword: string, p: Peer)
    requires IsName(p.address) && keyword != "port"
    ensures var f := PeerClause(keyword, Some(p));
            f[0] == keyword && f[1] == p.address && ("port" in f <==> p.ports != [])
    ensures p.ports != [] ==> var f := PeerClause(keyword, Some(p)); IndexOf(f, "port") == 2 && f[3] == PortsText(p.ports)
  {
    var f := PeerClause(keyword, Some(p));
    if p.ports != [] {
      IndexIs(f, "port", 2);
    }
  }

  lemma FullMatches(dir: seq<string>, w: What, port: int)
    requires WhatWellFormed(w) && w.Full? && (dir == [] || dir == ["in"])
    ensures RuleMatchesPort(dir + WhatWords(w), port) <==> Reaches(w, port)
  {
    FullKeywords(dir, w);
    FullIsLong(dir, w);
    LongMatches(dir + WhatWords(w), port);
    FullProto(dir, w);
    FullSplit(dir, w);
    if w.to.Some? {
      ToForm(dir, w, port);
    } else {
      NoToForm(dir, w, port);
    }
  }

  lemma FullSplit(dir: seq<string>, w: What)
    requires w.Full?
    ensures dir + WhatWords(w) == Clauses(dir, w) + (PeerClause("to", w.to) + NameClause("proto", w.proto))
    ensures dir + WhatWords(w) == Clauses(dir, w) + PeerClause("to", w.to) + NameClause("proto", w.proto)
  {}

  lemma FullProto(dir: seq<string>, w: What)
    requires WhatWellFormed(w) && w.Full? && (dir == [] || dir == ["in"])
    ensures ProtoTCP(dir + WhatWords(w)) <==> ForTCP(w.proto)
  {
    ClausesHold(dir, w);
    PeerWords("to", w.to);
    FullSplit(dir, w);
    ProtoOf(Clauses(dir, w) + PeerClause("to", w.to), w.proto);
  }

  lemma ToForm(dir: seq<string>, w: What, port: int)
    requires WhatWellFormed(w) && w.Full? && (dir == [] || dir == ["in"]) && w.to.Some?
    requires ProtoTCP(dir + WhatWords(w)) <==> ForTCP(w.proto)
    requires "app" !in dir + WhatWords(w)
    ensures LongForm(dir + WhatWords(w), port) <==> Reaches(w, port)
  {
    ClausesHold(dir, w);
    NameWords("proto", w.proto);
    FullSplit(dir, w);
    ToMatches(Clauses(dir, w), w.to.value, NameClause("proto", w.proto), dir + WhatWords(w));
    if w.to.value.ports != [] {
      PortsTextHas(w.to.value.ports, port);
    }
  }

  lemma NoToForm(dir: seq<string>, w: What, port: int)
    requires WhatWellFormed(w) && w.Full? && (dir == [] || dir == ["in"]) && w.to == None
    requires ProtoTCP(dir + WhatWords(w)) <==> ForTCP(w.proto)
    requires "app" !in dir + WhatWords(w)
    ensures LongForm(dir + WhatWords(w), port) <==> Reaches(w, port)
  {
    ClausesHold(dir, w);
    NameWords("proto", w.proto);
    FullSplit(dir, w);
    NoDestPort(dir + WhatWords(w));
  }

  lemma ToMatches(front: seq<string>, p: Peer, proto: seq<string>, f: seq<string>)
    requires IsName(p.address) && f == front + (PeerClause("to", Some(p)) + proto)
    requires "to" !in front && "port" !in proto
    ensures p.ports != [] ==> DestPortIndex(f) == Some(|front| + 2) && |front| + 3 < |f| && f[|front| + 3] == PortsText(p.ports)
    ensures p.ports == [] ==> DestPortIndex(f) == None && ("port" in f <==> "port" in front)
    ensures "proto" in front + PeerClause("to", Some(p)) <==> "proto" in front
  {
    PeerPort("to", p);
    PeerWords("to", Some(p));
    DestPortAfterTo(front, PeerClause("to", Some(p)), proto);
  }

  lemma FullIsLong(dir: seq<string>, w: What)
    requires WhatWellFormed(w) && w.Full? && (dir == [] || dir == ["in"])
    ensures |dir + WhatWords(w)| > 1 && !(|dir + WhatWords(w)| == 2 && (dir + WhatWords(w))[0] == "in")
  {
    UnloggedWords(w);
    assert |WhatWords(w)| >= 2;
    if dir == [] {
      assert WhatWords(w)[0] in WhatWords(w);
    }
  }

  lemma ShortMatches(dir: seq<string>, w: What, port: int)
    requires WhatWellFormed(w) && w.Short? && (dir == [] || dir == ["in"])
    ensures RuleMatchesPort(dir + WhatWords(w), port) <==> Reaches(w, port)
  {
    var word, list := ShortWord(w.ranges, w.proto), PortsText(w.ranges);
    var f := dir + WhatWords(w);
    ShortIsName(w.ranges, w.proto);
    NothingLogged(f);
    assert WithoutComment(f) == f by { assert "comment" !in f; }
    assert f == dir + [word];
    PortsTextHas(w.ranges, port);
    PortsTextChars(w.ranges);
    assert '/' !in list;
    if w.proto.Some? {
      CutAtFirst(list, w.proto.value, '/');
      assert list + ['/'] + w.proto.value == word;
    } else {
      assert word == list;
      SplitOfOnePart(list, '/');
    }
  }

  /** The log keyword does not matter. */
  lemma UnloggedBody(r: UfwRule)
    requires WellFormed(r)
    ensures WithoutLog(BodyWords(r)) == WithoutLog(DirectionWords(r.direction) + WhatWords(r.what))
  {
    LogIsDropped(DirectionWords(r.direction), LogWords(r), WhatWords(r.what));
  }

  lemma LogAlone()
    ensures WithoutLog(["log"]) == []
  {
    assert WithoutLog(["log"][1..]) == [];
  }

  lemma LogIsDropped(dir: seq<string>, log: seq<string>, what: seq<string>)
    requires log == [] || log == ["log"]
    ensures WithoutLog(dir + (log + what)) == WithoutLog(dir + what)
  {
    WithoutLogOfConcat(dir, log + what);
    WithoutLogOfConcat(log, what);
    WithoutLogOfConcat(dir, what);
    LogAlone();
  }

  lemma SameUnlogged(f: seq<string>, g: seq<string>, port: int)
    requires "comment" !in f && "comment" !in g && WithoutLog(f) == WithoutLog(g)
    ensures RuleMatchesPort(f, port) == RuleMatchesPort(g, port)
  {
    assert WithoutComment(f) == f && WithoutComment(g) == g;
  }

  lemma BodyMatches(r: UfwRule, port: int)
    requires WellFormed(r) && r.direction != Out
    ensures RuleMatchesPort(BodyWords(r), port) <==> Reaches(r.what, port)
  {
    var dir, f := DirectionWords(r.direction), BodyWords(r);
    var g := dir + WhatWords(r.what);
    BodyIsUncommented(r);
    UnloggedBody(r);
    SameUnlogged(f, g, port);
    if r.what.Short? {
      ShortMatches(dir, r.what, port);
    } else {
      FullMatches(dir, r.what, port);
    }
  }

  lemma BodyIsUncommented(r: UfwRule)
    requires WellFormed(r)
    ensures "comment" !in BodyWords(r) && AreWords(BodyWords(r))
    ensures "comment" !in DirectionWords(r.direction) + WhatWords(r.what)
    ensures "out" in BodyWords(r) <==> r.direction == Out
  {
    KeywordsAreWords();
    UnloggedWords(r.what);
    if r.direction == Out {
      assert BodyWords(r)[0] == "out";
    }
  }

  // ----------------------------------------------------------------- one rule

  function UfwHead(r: UfwRule): seq<string> {
    (if r.route then ["ufw", "route"] else ["ufw"]) + [ActionWord(r.action)]
  }

  lemma WordsOfText(r: UfwRule)
    requires WellFormed(r)
    ensures Fields(UfwText(r)) == UfwWords(r)
    ensures WithoutComment(UfwWords(r)) == UfwHead(r) + BodyWords(r)
  {
    HeadIsPlain(r);
    BodyIsUncommented(r);
    Regrouped(if r.route then ["ufw", "route"] else ["ufw"], [ActionWord(r.action)], BodyWords(r) + CommentWords(r));
    Regrouped(UfwHead(r), BodyWords(r), CommentWords(r));
    FieldsOfJoin(UfwWords(r));
    CommentIsCut(UfwHead(r) + BodyWords(r), r);
  }

  lemma HeadIsPlain(r: UfwRule)
    requires WellFormed(r)
    ensures AreWords(UfwHead(r)) && AreWords(CommentWords(r)) && "comment" !in UfwHead(r)
  {
    KeywordsAreWords();
    ActionIsWord(r.action);
  }

  lemma CommentIsCut(f: seq<string>, r: UfwRule)
    requires "comment" !in f
    ensures WithoutComment(f + CommentWords(r)) == f
  {
    IndexInConcat(f, CommentWords(r), "comment");
    if r.comment != [] {
      assert CommentWords(r)[0] == "comment";
    }
  }

  /** Where the destination address stands. */
  predicate AddressAfterTo(f: seq<string>, to: Option<Peer>) {
    var t := IndexOf(f, "to");
    if to.Some? then t + 1 < |f| && f[t + 1] == to.value.address else t == |f|
  }

  lemma ToClause(front: seq<string>, to: Option<Peer>, rest: seq<string>)
    requires "to" !in front && "to" !in rest
    ensures AddressAfterTo(front + (PeerClause("to", to) + rest), to)
  {
    var f := front + (PeerClause("to", to) + rest);
    IndexInConcat(front, PeerClause("to", to) + rest, "to");
    if to.Some? {
      assert f[|front|] == "to" && f[|front| + 1] == to.value.address;
      IndexIs(f, "to", |front|);
    } else {
      assert "to" !in f;
    }
  }

  /** The words before the clauses hold none of their keywords. */
  lemma FrontHolds(r: UfwRule)
    requires !r.route
    ensures var front := UfwHead(r) + (DirectionWords(r.direction) + LogWords(r));
            "to" !in front && "from" !in front && "on" !in front
  {
    ActionIsWord(r.action);
  }

  lemma NarrowIsScoped(r: UfwRule)
    requires WellFormed(r) && !r.route
    ensures UfwScoped(UfwHead(r) + BodyWords(r)) <==> IsNarrow(r.what)
  {
    var dir, log, what := DirectionWords(r.direction), LogWords(r), WhatWords(r.what);
    var front := UfwHead(r) + (dir + log);
    Regrouped(dir, log, what);
    Regrouped(UfwHead(r), dir + log, what);
    assert UfwHead(r) + BodyWords(r) == front + what;
    FrontHolds(r);
    if r.what.Short? {
      ShortIsNotNarrow(front, r.what);
    } else {
      FullIsNarrow(front, r.what, front + what);
    }
  }

  lemma ShortIsNotNarrow(front: seq<string>, w: What)
    requires WhatWellFormed(w) && w.Short?
    requires "to" !in front && "from" !in front && "on" !in front
    ensures !UfwScoped(front + WhatWords(w))
  {
    ShortIsName(w.ranges, w.proto);
    NothingScoped(front + WhatWords(w));
  }

  lemma NothingScoped(f: seq<string>)
    requires "to" !in f && "from" !in f && "on" !in f
    ensures !UfwScoped(f)
  {}

  lemma FullIsNarrow(front: seq<string>, w: What, f: seq<string>)
    requires WhatWellFormed(w) && w.Full? && f == front + WhatWords(w)
    requires "to" !in front && "from" !in front && "on" !in front
    ensures UfwScoped(f) <==> IsNarrow(w)
  {
    ClauseWords(w);
    ToOfFull(front, w, f);
    assert "on" in f <==> w.on.Some?;
    assert "from" in f <==> w.from.Some?;
  }

  lemma ToOfFull(front: seq<string>, w: What, f: seq<string>)
    requires WhatWellFormed(w) && w.Full? && f == front + WhatWords(w)
    requires "to" !in front
    ensures AddressAfterTo(f, w.to)
  {
    var clauses, rest := Clauses([], w), PeerClause("to", w.to) + NameClause("proto", w.proto);
    ClausesHold([], w);
    NameWords("proto", w.proto);
    FullSplit([], w);
    assert [] + WhatWords(w) == WhatWords(w);
    Regrouped(front, clauses, rest);
    ToClause(front + clauses, w.to, NameClause("proto", w.proto));
  }

  lemma Regrouped(a: seq<string>, b: seq<string>, c: seq<string>)
    ensures a + (b + c) == a + b + c
  {}

  /** The answer of a rule, with the rule's text where it blocks. */
  function UfwAnswer(r: UfwRule, port: int): Answer {
    Answer(UfwSays(r, port), if UfwSays(r, port) == Blocked then TrimSpace(UfwText(r)) else "")
  }

  lemma ActionWords(a: Action)
    ensures ActionWord(a) == "allow" <==> a == Allow
    ensures ActionWord(a) == "deny" <==> a == Deny
    ensures ActionWord(a) == "reject" <==> a == Reject
  {}

  lemma PlainRuleSays(r: UfwRule, port: int)
    requires WellFormed(r) && !r.route
    ensures UfwVerdict(UfwText(r), port) == UfwAnswer(r, port)
  {
    WordsOfText(r);
    BodyIsUncommented(r);
    ActionWords(r.action);
    ActionIsWord(r.action);
    NarrowIsScoped(r);
    var f := UfwHead(r) + BodyWords(r);
    assert f[0] == "ufw" && f[1] == ActionWord(r.action) && f[2..] == BodyWords(r);
    assert "out" in f <==> r.direction == Out;
    assert BodyWords(r) != [];
    if r.direction != Out {
      BodyMatches(r, port);
    }
  }

  /** What the reader makes of one listed rule. */
  lemma RuleSays(r: UfwRule, port: int)
    requires WellFormed(r)
    ensures UfwVerdict(UfwText(r), port) == UfwAnswer(r, port)
  {
    if r.route {
      WordsOfText(r);
      assert (UfwHead(r) + BodyWords(r))[1] == "route";
    } else {
      PlainRuleSays(r, port);
    }
  }

  // ------------------------------------------------------------------ first match

  function UfwAnswers(rules: seq<UfwRule>, port: int): (answers: seq<Answer>)
    ensures |answers| == |rules| && forall i | 0 <= i < |rules| :: answers[i] == UfwAnswer(rules[i], port)
  {
    seq(|rules|, i requires 0 <= i < |rules| => UfwAnswer(rules[i], port))
  }

  lemma {:induction false} FirstDecides(lines: seq<string>, answers: seq<Answer>, port: int)
    requires |lines| == |answers| && forall i | 0 <= i < |answers| :: UfwVerdict(lines[i], port) == answers[i]
    ensures FirstOf(answers, UfwDecide(lines, port))
  {
    if answers != [] {
      if answers[0].state != Absent {
        assert DecidesFirst(answers, 0);
      } else {
        FirstDecides(lines[1..], answers[1..], port);
        FirstOfMore(answers, UfwDecide(lines[1..], port));
      }
    }
  }

  /** The answer ufw's list gives is that of its first rule that says something:
      an allow admits, a deny or reject that nothing narrows blocks and is named,
      a narrowed one, an `out`, `route` or `limit` rule says nothing. */
  lemma AddedRulesDecide(rules: seq<UfwRule>, port: int)
    requires forall r | r in rules :: WellFormed(r)
    ensures FirstOf(UfwAnswers(rules, port), UfwDecide(UfwTexts(rules), port))
  {
    forall i | 0 <= i < |rules|
      ensures UfwVerdict(UfwTexts(rules)[i], port) == UfwAnswers(rules, port)[i]
    {
      assert rules[i] in rules;
      RuleSays(rules[i], port);
    }
    FirstDecides(UfwTexts(rules), UfwAnswers(rules, port), port);
  }
}
