/** TCP port lists as iptables and ufw print them. */
module PortLists {
  import opened Text
  import opened IptDecide

  /** The ports lo to hi. */
  datatype PortRange = PortRange(lo: Port, hi: Port)

  function RangeText(r: PortRange): string {
    if r.lo == r.hi then Itoa(r.lo) else Itoa(r.lo) + ":" + Itoa(r.hi)
  }

  function RangeTexts(ranges: seq<PortRange>): (texts: seq<string>)
    ensures |texts| == |ranges| && forall i | 0 <= i < |ranges| :: texts[i] == RangeText(ranges[i])
  {
    seq(|ranges|, i requires 0 <= i < |ranges| => RangeText(ranges[i]))
  }

  function PortsText(ranges: seq<PortRange>): string {
    Join(RangeTexts(ranges), ',')
  }

  predicate AnyHolds(ranges: seq<PortRange>, port: int) {
    exists i | 0 <= i < |ranges| :: ranges[i].lo <= port <= ranges[i].hi
  }

  /** Digits, colons and commas: a character of a printed list. */
  predicate ListChar(c: char) {
    IsDigit(c) || c == ':' || c == ','
  }

  lemma RangeTextChars(r: PortRange)
    ensures RangeText(r) != "" && IsDigit(RangeText(r)[0])
    ensures forall c | c in RangeText(r) :: ListChar(c) && c != ','
  {
    ItoaStartsWithDigit(r.lo);
  }

  lemma RangeTextHas(r: PortRange, port: int)
    ensures PortRangeHas(RangeText(r), port) <==> r.lo <= port <= r.hi
  {
    AtoiOfItoa(r.lo);
    AtoiOfItoa(r.hi);
    assert ':' !in Itoa(r.lo);
    if r.lo == r.hi {
      SplitOfOnePart(Itoa(r.lo), ':');
    } else {
      CutAtFirst(Itoa(r.lo), Itoa(r.hi), ':');
    }
  }

  /** The list printed holds exactly the ports of its ranges. */
  lemma PortsTextHas(ranges: seq<PortRange>, port: int)
    requires ranges != []
    ensures PortListHas(PortsText(ranges), port) <==> AnyHolds(ranges, port)
  {
    var texts := RangeTexts(ranges);
    forall text | text in texts
      ensures ',' !in text
    {
      var i :| 0 <= i < |texts| && texts[i] == text;
      RangeTextChars(ranges[i]);
    }
    SplitOfJoin(texts, ',');
    forall i | 0 <= i < |ranges|
      ensures texts[i] in texts && (PortRangeHas(texts[i], port) <==> ranges[i].lo <= port <= ranges[i].hi)
    {
      RangeTextHas(ranges[i], port);
    }
    if PortListHas(PortsText(ranges), port) {
      var text :| text in texts && PortRangeHas(text, port);
      var i :| 0 <= i < |texts| && texts[i] == text;
      assert ranges[i].lo <= port <= ranges[i].hi;
    }
  }

  lemma {:induction false} JoinedChars(texts: seq<string>)
    requires forall i | 0 <= i < |texts| :: forall c | c in texts[i] :: ListChar(c)
    ensures forall c | c in Join(texts, ',') :: ListChar(c)
  {
    if |texts| > 1 {
      JoinedChars(texts[1..]);
    }
  }

  lemma PortsTextChars(ranges: seq<PortRange>)
    requires ranges != []
    ensures PortsText(ranges) != "" && IsDigit(PortsText(ranges)[0])
    ensures forall c | c in PortsText(ranges) :: ListChar(c)
  {
    var texts := RangeTexts(ranges);
    forall i | 0 <= i < |texts|
      ensures forall c | c in texts[i] :: ListChar(c)
    {
      RangeTextChars(ranges[i]);
    }
    JoinedChars(texts);
    RangeTextChars(ranges[0]);
    assert texts[0] == RangeText(ranges[0]);
  }
}
