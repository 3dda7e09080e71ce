/** Where xrdp.ini makes xrdp listen, said of its lines: the last `port` of the
    [Globals] section. */
module XrdpListens {
  import opened Text
  import opened IptDecide
  import opened XrdpIni

  // ------------------------------------------------------------------ the lines

  predicate IsSection(line: string) {
    var t := TrimSpace(line);
    t != "" && t[0] == '[' && t[|t| - 1] == ']'
  }

  predicate OpensGlobals(line: string) {
    TrimSpace(line) == "[Globals]"
  }

  /** Header h is the last one above line i. */
  predicate LastSection(lines: seq<string>, h: nat, i: nat)
    requires i <= |lines|
  {
    h < i && OpensGlobals(lines[h]) && forall j | h < j < i :: !IsSection(lines[j])
  }

  /** Line i sits below a [Globals] header with no other header in between. */
  predicate InGlobals(lines: seq<string>, i: nat)
    requires i <= |lines|
  {
    exists h: nat | h < i :: LastSection(lines, h, i)
  }

  /** `port = value`, white space aside. */
  ghost predicate SetsPort(line: string, value: string) {
    && !IsSection(line)
    && exists key, rest :: '=' !in key && TrimSpace(line) == key + "=" + rest && TrimSpace(key) == "port" && TrimSpace(rest) == value
  }

  /** `tcp://address:` or `tcp6://address:`, or nothing. */
  ghost predicate IsPrefix(prefix: string) {
    || prefix == ""
    || exists host | IsHostPart(host) :: prefix == "tcp://" + host + ":" || prefix == "tcp6://" + host + ":"
  }

  predicate IsHostPart(host: string) {
    forall c | c in host :: c != ' ' && c != '\t' && c != '\n' && c != '\r' && c != '\U{000C}'
  }

  /** The value names one TCP port: its digits after an address prefix. */
  ghost predicate Names(value: string, prefix: string, port: int) {
    exists digits :: IsDigits(digits) && value == prefix + digits && IsPrefix(prefix)
                     && port == if DigitsValue(digits) <= MAX_INT64 then DigitsValue(digits) else MAX_INT64
  }

  ghost predicate NamesSome(value: string) {
    exists prefix, port :: Names(value, prefix, port)
  }

  // ------------------------------------------------------ one line of the scan

  lemma HostPart(host: string)
    ensures IsHostPart(host) <==> forall c | c in host + ":" :: !PatternSpace(c)
  {
    assert forall c | c in host :: c in host + ":";
  }

  lemma SchemePrefix(prefix: string, scheme: string)
    requires scheme != ""
    ensures (exists host | IsHostPart(host) :: prefix == scheme + host + ":")
       <==> HasPrefix(prefix, scheme) && |prefix| > |scheme| && prefix[|prefix| - 1] == ':'
            && forall c | c in prefix[|scheme|..] :: !PatternSpace(c)
  {
    var n := |scheme|;
    if HasPrefix(prefix, scheme) && |prefix| > n && prefix[|prefix| - 1] == ':' {
      var host := prefix[n..|prefix| - 1];
      assert prefix[n..] == host + ":";
      assert prefix == prefix[..n] + prefix[n..];
      HostPart(host);
    }
    if host :| IsHostPart(host) && prefix == scheme + host + ":" {
      assert prefix[n..] == host + ":" && prefix[..n] == scheme;
      HostPart(host);
    }
  }

  lemma PrefixForms(prefix: string)
    ensures AddressPrefix(prefix) <==> IsPrefix(prefix)
  {
    SchemePrefix(prefix, "tcp://");
    SchemePrefix(prefix, "tcp6://");
  }

  /** The value's pattern. */
  lemma ValueNames(value: string)
    ensures match PortValue(value)
            case Some((prefix, digits)) => IsDigits(digits) && Names(value, prefix, ClampedAtoi(digits))
            case None => !NamesSome(value)
  {
    var n := ThroughLastColon(value);
    assert value == value[..n] + value[n..];
    PrefixForms(value[..n]);
    if prefix, port :| Names(value, prefix, port) {
      var digits :| IsDigits(digits) && value == prefix + digits && IsPrefix(prefix);
      PrefixForms(prefix);
      ColonOfDigits(prefix, digits);
      assert value[..n] == prefix && value[n..] == digits;
    }
  }

  lemma SectionIs(line: string)
    ensures IsSection(line) <==> IsHeader(TrimSpace(line))
    ensures OpensGlobals(line) ==> IsSection(line)
  {}

  /** What the scan sees in a line. */
  lemma KindMeans(line: string)
    ensures IsSection(line) <==> KindOf(line).Header?
    ensures IsSection(line) ==> KindOf(line) == Header(TrimSpace(line))
    ensures match KindOf(line)
            case PortLine(value, names) =>
              && SetsPort(line, value) && (forall other | SetsPort(line, other) :: other == value)
              && (names.Some? ==> Names(value, names.value.0, names.value.1)) && (names.None? ==> !NamesSome(value))
            case _ => forall value :: !SetsPort(line, value)
  {
    SectionIs(line);
    var t := TrimSpace(line);
    if !IsHeader(t) {
      AssignmentMeans(line);
      if PortAssignment(t).Some? {
        ValueNames(PortAssignment(t).value);
      }
    }
  }

  lemma AssignmentMeans(line: string)
    requires !IsSection(line)
    ensures match PortAssignment(TrimSpace(line))
            case Some(value) => SetsPort(line, value) && forall other | SetsPort(line, other) :: other == value
            case None => forall value :: !SetsPort(line, value)
  {
    var t := TrimSpace(line);
    var (key, rest, found) := Cut(t, '=');
    CutMeans(t);
    if found && TrimSpace(key) == "port" {
      assert SetsPort(line, TrimSpace(rest));
    }
    forall value | SetsPort(line, value)
      ensures PortAssignment(t) == Some(value)
    {
      var k, r :| '=' !in k && t == k + "=" + r && TrimSpace(k) == "port" && TrimSpace(r) == value;
      CutAtFirst(k, r, '=');
    }
  }

  lemma CutMeans(s: string)
    ensures var (key, rest, found) := Cut(s, '='); found ==> '=' !in key && s == key + "=" + rest
  {
    var parts := Split(s, '=');
    SplitPartsHoldNoSeparator(s, '=');
    JoinOfSplit(s, '=');
    assert parts[0] in parts;
  }

  // ------------------------------------------------------------------- the scan

  /** A `port` line of [Globals]. */
  ghost predicate GlobalsPort(lines: seq<string>, i: nat, value: string) {
    i < |lines| && InGlobals(lines, i) && SetsPort(lines[i], value)
  }

  /** Every `port` of [Globals] in the first n lines names a port, and is found or
      comes before the one that is. */
  ghost predicate PortsSeen(lines: seq<string>, n: nat, line: Option<nat>) {
    forall i: nat, value | i < n && GlobalsPort(lines, i, value) :: NamesSome(value) && line.Some? && i <= line.value
  }

  /** The line found is one of them, with its prefix and port. */
  ghost predicate LineFound(lines: seq<string>, n: nat, a: Found) {
    match a.line
    case None => a.prefix == "" && a.port == 3389
    case Some(i) => i < n && exists value :: GlobalsPort(lines, i, value) && Names(value, a.prefix, a.port)
  }

  /** The header found is the first [Globals] of the first n lines. */
  predicate GlobalsFound(lines: seq<string>, n: nat, globals: Option<nat>)
    requires n <= |lines|
  {
    match globals
    case None => forall i | 0 <= i < n :: !OpensGlobals(lines[i])
    case Some(g) => g < n && OpensGlobals(lines[g]) && forall i | 0 <= i < g :: !OpensGlobals(lines[i])
  }

  /** What is found in the first n lines: the last `port` of [Globals], all of them
      naming a port, and the first [Globals]. */
  ghost predicate FoundMeans(lines: seq<string>, n: nat, a: Found)
    requires n <= |lines|
  {
    PortsSeen(lines, n, a.line) && LineFound(lines, n, a) && GlobalsFound(lines, n, a.globals)
  }

  /** The first `port` of [Globals] that names none. */
  ghost predicate BadMeans(lines: seq<string>, text: string) {
    exists i: nat ::
      && GlobalsPort(lines, i, text) && !NamesSome(text)
      && forall j: nat, value | j < i && GlobalsPort(lines, j, value) :: NamesSome(value)
  }

  lemma SectionStays(lines: seq<string>, h: nat, i: nat)
    requires i < |lines| && h < i
    ensures LastSection(lines, h, i + 1) <==> LastSection(lines, h, i) && !IsSection(lines[i])
  {}

  lemma SectionOpens(lines: seq<string>, i: nat)
    requires i < |lines|
    ensures InGlobals(lines, i + 1) <==> OpensGlobals(lines[i]) || (!IsSection(lines[i]) && InGlobals(lines, i))
  {
    forall h: nat | h < i
      ensures LastSection(lines, h, i + 1) <==> LastSection(lines, h, i) && !IsSection(lines[i])
    {
      SectionStays(lines, h, i);
    }
    assert LastSection(lines, i, i + 1) <==> OpensGlobals(lines[i]);
    var n := i + 1;
    if h: nat :| h < n && LastSection(lines, h, n) {
      assert h < i ==> LastSection(lines, h, i);
    }
    if h: nat :| h < i && LastSection(lines, h, i) {
      assert !IsSection(lines[i]) ==> LastSection(lines, h, i + 1);
    }
  }

  lemma NothingSeen(lines: seq<string>, i: nat, line: Option<nat>)
    requires PortsSeen(lines, i, line) && forall value :: !GlobalsPort(lines, i, value)
    ensures PortsSeen(lines, i + 1, line)
  {}

  lemma OneSeen(lines: seq<string>, i: nat, line: Option<nat>, value: string)
    requires PortsSeen(lines, i, line) && NamesSome(value) && forall other | GlobalsPort(lines, i, other) :: other == value
    ensures PortsSeen(lines, i + 1, Some(i))
  {}

  /** One line of the scan keeps what is known, or is the first bad port. */
  lemma LineKeeps(lines: seq<string>, i: nat, section: string, a: Found)
    requires i < |lines| && FoundMeans(lines, i, a) && (section == GLOBALS <==> InGlobals(lines, i))
    ensures match ScanLine(KindOf(lines[i]), i, section, a)
            case Ok((next, b)) => FoundMeans(lines, i + 1, b) && (next == GLOBALS <==> InGlobals(lines, i + 1))
            case BadPort(text) => BadMeans(lines, text)
  {
    SectionIs(lines[i]);
    KindMeans(lines[i]);
    SectionOpens(lines, i);
    match KindOf(lines[i])
    case Header(_) => NothingSeen(lines, i, a.line);
    case Other => NothingSeen(lines, i, a.line);
    case PortLine(value, names) =>
      if section != GLOBALS {
        NothingSeen(lines, i, a.line);
      } else if names.Some? {
        PortKeeps(lines, i, a, value, names.value.0, names.value.1);
      } else {
        BadPortFound(lines, i, a.line, value);
      }
  }

  lemma PortKeeps(lines: seq<string>, i: nat, a: Found, value: string, prefix: string, port: int)
    requires i < |lines| && FoundMeans(lines, i, a) && GlobalsPort(lines, i, value) && Names(value, prefix, port)
    requires !OpensGlobals(lines[i]) && forall other | SetsPort(lines[i], other) :: other == value
    ensures FoundMeans(lines, i + 1, a.(line := Some(i), prefix := prefix, port := port))
  {
    assert NamesSome(value);
    OneSeen(lines, i, a.line, value);
  }

  lemma BadPortFound(lines: seq<string>, i: nat, line: Option<nat>, value: string)
    requires PortsSeen(lines, i, line) && GlobalsPort(lines, i, value) && !NamesSome(value)
    ensures BadMeans(lines, value)
  {}

  lemma {:induction false} ScanMeans(lines: seq<string>, i: nat, section: string, a: Found)
    requires i <= |lines| && FoundMeans(lines, i, a) && (section == GLOBALS <==> InGlobals(lines, i))
    ensures match Scan(Kinds(lines)[i..], i, section, a)
            case Ok(found) => FoundMeans(lines, |lines|, found)
            case BadPort(text) => BadMeans(lines, text)
    decreases |lines| - i
  {
    if i < |lines| {
      var kind := KindOf(lines[i]);
      LineKeeps(lines, i, section, a);
      assert Kinds(lines)[i..][0] == kind && Kinds(lines)[i..][1..] == Kinds(lines)[i + 1..];
      match ScanLine(kind, i, section, a)
      case Ok((next, b)) => ScanMeans(lines, i + 1, next, b);
      case BadPort(_) =>
    }
  }

  /** The read, by the lines: the listener is that of the last `port` of [Globals],
      3389 where there is none, and a value that names no single port is refused,
      the first one first. */
  lemma ReadMeans(text: string)
    ensures match XrdpIni.Read(text)
            case Ok(l) => l.lines == Split(text, '\n') && FoundMeans(l.lines, |l.lines|, l.found)
            case BadPort(value) => BadMeans(Split(text, '\n'), value)
  {
    var lines := Split(text, '\n');
    assert Kinds(lines)[0..] == Kinds(lines);
    assert !InGlobals(lines, 0);
    ScanMeans(lines, 0, "", NOTHING_FOUND);
  }
}
