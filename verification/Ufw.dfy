/** Which answer `ufw show added` gives for one TCP port. */
module Ufw {
  import opened Text
  import opened IptDecide

  function WithoutComment(f: seq<string>): seq<string> {
    f[..IndexOf(f, "comment")]
  }

  function WithoutLog(f: seq<string>): seq<string> {
    if f == [] then []
    else if f[0] == "log" || f[0] == "log-all" then WithoutLog(f[1..])
    else [f[0]] + WithoutLog(f[1..])
  }

  predicate ProtoTCP(f: seq<string>) {
    var j := IndexOf(f, "proto");
    j == |f| || (j + 1 < |f| && f[j + 1] == "tcp")
  }

  /** The index of the destination `port` keyword, the one after `to`; a `port`
      in the `from` clause is a source port. */
  function DestPortIndex(f: seq<string>): Option<nat> {
    var t := IndexOf(f, "to");
    if t < |f| then
      var i := IndexOf(f[t..], "port");
      if t + i < |f| then Some(t + i) else None
    else if "from" in f then None
    else if IndexOf(f, "port") < |f| then Some(IndexOf(f, "port")) else None
  }

  predicate RuleMatchesPort(rule: seq<string>, port: int) {
    var logged := WithoutLog(WithoutComment(rule));
    var f := if |logged| == 2 && logged[0] == "in" then logged[1..] else logged;
    if |f| == 1 then
      var (ports, proto, _) := Cut(f[0], '/');
      (proto == "" || proto == "tcp") && PortListHas(ports, port)
    else
      match DestPortIndex(f)
      case None => "port" !in f && "app" !in f && ProtoTCP(f)
      case Some(i) => i + 1 < |f| && PortListHas(f[i + 1], port) && ProtoTCP(f)
  }

  /** Narrowed by source, interface or destination address. */
  predicate UfwScoped(f: seq<string>) {
    || "from" in f || "on" in f
    || var t := IndexOf(f, "to"); t + 1 < |f| && f[t + 1] != "any"
  }

  function UfwVerdict(line: string, port: int): Answer {
    var f := WithoutComment(Fields(line));
    if |f| < 3 || f[0] != "ufw" || "out" in f || !RuleMatchesPort(f[2..], port) then NOT_DECIDED
    else if f[1] == "allow" then Answer(Present, "")
    else if (f[1] == "deny" || f[1] == "reject") && !UfwScoped(f) then Answer(Blocked, TrimSpace(line))
    else NOT_DECIDED
  }

  function UfwDecide(lines: seq<string>, port: int): (a: Answer)
    ensures a.state != Unknown
  {
    if lines == [] then NOT_DECIDED
    else
      var v := UfwVerdict(lines[0], port);
      if v.state != Absent then v else UfwDecide(lines[1..], port)
  }

  /** ufwDecide: a walk that stops at the first deciding rule. */
  method WalkAdded(lines: seq<string>, port: int) returns (state: RuleState, rule: string)
    ensures Answer(state, rule) == UfwDecide(lines, port)
  {
    for i := 0 to |lines|
      invariant UfwDecide(lines, port) == UfwDecide(lines[i..], port)
    {
      var f := WithoutComment(Fields(lines[i]));
      if |f| < 3 || f[0] != "ufw" || "out" in f || !RuleMatchesPort(f[2..], port) {
        continue;
      }
      if f[1] == "allow" {
        return Present, "";
      }
      if (f[1] == "deny" || f[1] == "reject") && !UfwScoped(f) {
        return Blocked, TrimSpace(lines[i]);
      }
    }
    return Absent, "";
  }

  /** The argument of `ufw allow`, and the line ufw lists for it. */
  function AllowArgument(port: Port): string {
    Itoa(port) + "/tcp"
  }

  function AllowLine(port: Port): string {
    Join(AllowWords(port), ' ')
  }

  function AllowWords(port: Port): seq<string> {
    ["ufw", "allow", AllowArgument(port)]
  }

  lemma AllowArgumentIsWord(port: Port)
    ensures IsWord(AllowArgument(port)) && IsDigit(AllowArgument(port)[0])
  {
    var n, w := Itoa(port), AllowArgument(port);
    ItoaStartsWithDigit(port);
    forall c | c in w
      ensures !IsSpace(c)
    {
      assert c in n || c in "/tcp";
    }
  }

  lemma AllowArgumentCut(port: Port)
    ensures Cut(AllowArgument(port), '/') == (Itoa(port), "tcp", true)
  {
    var n := Itoa(port);
    CutAtFirst(n, "tcp", '/');
    assert n + ['/'] + "tcp" == AllowArgument(port);
  }

  lemma OneWordRule(w: string)
    requires w != "" && IsDigit(w[0])
    ensures WithoutLog(WithoutComment([w])) == [w]
  {
    assert WithoutComment([w]) == [w];
    assert WithoutLog([w][1..]) == [];
  }

  lemma AllowArgumentMatches(port: Port)
    ensures RuleMatchesPort([AllowArgument(port)], port)
  {
    AllowArgumentIsWord(port);
    AllowArgumentCut(port);
    PortListOfItoa(port);
    OneWordRule(AllowArgument(port));
  }

  /** The line setup adds allows the port. */
  lemma AllowLineAdmits(port: Port)
    ensures UfwVerdict(AllowLine(port), port).state == Present
  {
    AllowLineWords(port);
    AllowWordsAdmit(AllowWords(port), port);
  }

  lemma AllowLineWords(port: Port)
    ensures Fields(AllowLine(port)) == AllowWords(port)
  {
    AllowArgumentIsWord(port);
    assert IsWord("ufw") && IsWord("allow");
    FieldsOfJoin(AllowWords(port));
  }

  lemma AllowWordsAdmit(f: seq<string>, port: Port)
    requires f == AllowWords(port)
    ensures WithoutComment(f) == f && |f| == 3 && f[0] == "ufw" && f[1] == "allow" && "out" !in f && RuleMatchesPort(f[2..], port)
  {
    AllowArgumentIsWord(port);
    AllowArgumentMatches(port);
    assert IndexOf(f, "comment") == 3;
    assert f[2..] == [AllowArgument(port)];
  }

  lemma {:induction false} UfwDecideOfConcat(a: seq<string>, b: seq<string>, port: int)
    ensures UfwDecide(a + b, port) == if UfwDecide(a, port).state != Absent then UfwDecide(a, port) else UfwDecide(b, port)
  {
    if a == [] {
      assert a + b == b;
    } else {
      assert (a + b)[1..] == a[1..] + b;
      UfwDecideOfConcat(a[1..], b, port);
    }
  }
}
