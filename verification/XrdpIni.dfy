/** Where xrdp.ini makes xrdp listen, and the rewrite that moves it. */
module XrdpIni {
  import opened Text
  import opened IptDecide

  const DEFAULT_RDP_PORT: Port := 3389
  const GLOBALS := "[Globals]"

  /** What the scan of the [Globals] section found so far: the last `port=` line
      and the first [Globals] header. */
  datatype Found = Found(line: Option<nat>, globals: Option<nat>, prefix: string, port: int)

  const NOTHING_FOUND := Found(None, None, "", DEFAULT_RDP_PORT)

  datatype Listener = Listener(lines: seq<string>, found: Found)

  /** BadPort carries the value that names no single TCP port. */
  datatype Result<+T> = Ok(value: T) | BadPort(text: string)

  // --------------------------------------------------------------- one line

  predicate IsHeader(line: string) {
    HasPrefix(line, "[") && HasSuffix(line, "]")
  }

  /** The value of a `port=` line. */
  function PortAssignment(line: string): Option<string> {
    var (key, value, found) := Cut(line, '=');
    if found && TrimSpace(key) == "port" then Some(TrimSpace(value)) else None
  }

  /** The white space of the value's pattern. */
  predicate PatternSpace(c: char) {
    c in {'\t', '\n', '\U{000C}', '\r', ' '}
  }

  /** How much of s comes up to and including its last colon. */
  function ThroughLastColon(s: string): (n: nat)
    ensures n <= |s|
  {
    if s == "" then 0 else if s[|s| - 1] == ':' then |s| else ThroughLastColon(s[..|s| - 1])
  }

  predicate AddressPrefix(prefix: string) {
    || prefix == ""
    || exists scheme | scheme in {"tcp://", "tcp6://"} ::
         && HasPrefix(prefix, scheme) && |prefix| > |scheme| && prefix[|prefix| - 1] == ':'
         && forall c | c in prefix[|scheme|..] :: !PatternSpace(c)
  }

  /** A value that names one TCP port, split into everything before the port and
      the port's digits: `^((?:tcp6?://[^\s]*:)?)(\d+)$`. */
  function PortValue(value: string): Option<(string, string)> {
    var n := ThroughLastColon(value);
    if AddressPrefix(value[..n]) && IsDigits(value[n..]) then Some((value[..n], value[n..])) else None
  }

  /** strconv.Atoi with its error dropped: too large a number reads as the
      largest int. */
  function ClampedAtoi(digits: string): int
    requires IsDigits(digits)
  {
    if DigitsValue(digits) <= MAX_INT64 then DigitsValue(digits) else MAX_INT64
  }

  // ---------------------------------------------------------------- the scan

  /** What a line is to the scan: a section header, a `port=` line with what its
      value names, or anything else. */
  datatype Kind = Header(text: string) | PortLine(value: string, names: Option<(string, int)>) | Other

  function KindOf(raw: string): Kind {
    var line := TrimSpace(raw);
    if IsHeader(line) then Header(line)
    else
      match PortAssignment(line)
      case None => Other
      case Some(value) =>
        match PortValue(value)
        case None => PortLine(value, None)
        case Some((prefix, digits)) => PortLine(value, Some((prefix, ClampedAtoi(digits))))
  }

  function Kinds(lines: seq<string>): (kinds: seq<Kind>)
    ensures |kinds| == |lines| && forall i | 0 <= i < |lines| :: kinds[i] == KindOf(lines[i])
  {
    seq(|lines|, i requires 0 <= i < |lines| => KindOf(lines[i]))
  }

  /** One line of the scan: the section the next line sits in, and what is found. */
  function ScanLine(kind: Kind, i: nat, section: string, a: Found): Result<(string, Found)> {
    match kind
    case Header(text) => Ok((text, if text == GLOBALS && a.globals == None then a.(globals := Some(i)) else a))
    case Other => Ok((section, a))
    case PortLine(value, names) =>
      if section != GLOBALS then Ok((section, a))
      else if names == None then BadPort(value)
      else Ok((section, a.(line := Some(i), prefix := names.value.0, port := names.value.1)))
  }

  /** The scan of the lines rest, the first of which is line i. */
  function Scan(rest: seq<Kind>, i: nat, section: string, a: Found): Result<Found>
    decreases rest
  {
    if rest == [] then Ok(a)
    else
      match ScanLine(rest[0], i, section, a)
      case BadPort(text) => BadPort(text)
      case Ok((next, b)) => Scan(rest[1..], i + 1, next, b)
  }

  function Read(text: string): Result<Listener> {
    var lines := Split(text, '\n');
    match Scan(Kinds(lines), 0, "", NOTHING_FOUND)
    case Ok(found) => Ok(Listener(lines, found))
    case BadPort(value) => BadPort(value)
  }

  /** readXRDPListener, once the file is read. */
  method ReadListener(text: string) returns (r: Result<Listener>)
    ensures r == Read(text)
  {
    var lines := Split(text, '\n');
    var a := NOTHING_FOUND;
    var section := "";
    for i := 0 to |lines|
      invariant Scan(Kinds(lines), 0, "", NOTHING_FOUND) == Scan(Kinds(lines)[i..], i, section, a)
    {
      assert Kinds(lines)[i..][0] == KindOf(lines[i]) && Kinds(lines)[i..][1..] == Kinds(lines)[i + 1..];
      var line := TrimSpace(lines[i]);
      if IsHeader(line) {
        section := line;
        if section == GLOBALS && a.globals == None {
          a := a.(globals := Some(i));
        }
        continue;
      }
      var assignment := PortAssignment(line);
      if section != GLOBALS || assignment == None {
        continue;
      }
      var m := PortValue(assignment.value);
      if m == None {
        return BadPort(assignment.value);
      }
      a := a.(line := Some(i), prefix := m.value.0, port := ClampedAtoi(m.value.1));
    }
    r := Ok(Listener(lines, a));
  }

  // -------------------------------------------------------------- the rewrite

  function Entry(prefix: string, port: Port): string {
    "port=" + prefix + Itoa(port)
  }

  predicate HasPlace(l: Listener) {
    l.found.line.Some? || l.found.globals.Some?
  }

  /** An index the scan found is one of a line. */
  predicate InRange(l: Listener) {
    && (l.found.line.Some? ==> l.found.line.value < |l.lines|)
    && (l.found.globals.Some? ==> l.found.globals.value < |l.lines|)
  }

  function RewrittenLines(l: Listener, port: Port): seq<string>
    requires HasPlace(l) && InRange(l)
  {
    WithLine(l.lines, l.found, Entry(l.found.prefix, port))
  }

  /** The last port line replaced, or a line put after the first [Globals] header. */
  function WithLine(lines: seq<string>, found: Found, line: string): seq<string>
    requires FoundIn(found, |lines|)
  {
    if found.line.Some? then lines[found.line.value := line]
    else
      var at := found.globals.value + 1;
      lines[..at] + [line] + lines[at..]
  }

  predicate FoundIn(found: Found, n: nat) {
    && (found.line.Some? || found.globals.Some?)
    && (found.line.Some? ==> found.line.value < n)
    && (found.globals.Some? ==> found.globals.value < n)
  }

  /** withPort: the file with [Globals] listening on port. */
  function WithPort(l: Listener, port: Port): string
    requires HasPlace(l) && InRange(l)
  {
    Join(RewrittenLines(l, port), '\n')
  }

  // ------------------------------------------------------------- round trip

  lemma {:induction false} ColonOfDigits(prefix: string, digits: string)
    requires prefix == "" || prefix[|prefix| - 1] == ':'
    requires forall c | c in digits :: IsDigit(c)
    ensures ThroughLastColon(prefix + digits) == |prefix|
  {
    if digits == "" {
      assert prefix + digits == prefix;
    } else {
      var s, front := prefix + digits, digits[..|digits| - 1];
      assert s[|s| - 1] == digits[|digits| - 1] && digits[|digits| - 1] in digits;
      assert s[..|s| - 1] == prefix + front;
      ColonOfDigits(prefix, front);
    }
  }

  /** The value written is read back as the same prefix and the new port. */
  lemma WrittenValueReadsBack(prefix: string, port: Port)
    requires AddressPrefix(prefix)
    ensures PortValue(prefix + Itoa(port)) == Some((prefix, Itoa(port)))
    ensures ClampedAtoi(Itoa(port)) == port
  {
    var n, v := Itoa(port), prefix + Itoa(port);
    ColonOfDigits(prefix, n);
    assert v[..|prefix|] == prefix && v[|prefix|..] == n;
    DigitsOfItoa(port);
  }

  lemma PrefixStartsPlainly(prefix: string)
    requires AddressPrefix(prefix) && prefix != ""
    ensures prefix[0] == 't'
  {
    var scheme :| scheme in {"tcp://", "tcp6://"} && HasPrefix(prefix, scheme) && |prefix| > |scheme|;
    assert prefix[0] == scheme[0];
  }

  /** The line written is a `port=` assignment, whatever surrounds it. */
  lemma EntryIsAssignment(prefix: string, port: Port)
    requires AddressPrefix(prefix)
    ensures var line := TrimSpace(Entry(prefix, port));
            !IsHeader(line) && PortAssignment(line) == Some(prefix + Itoa(port))
  {
    var n, entry := Itoa(port), Entry(prefix, port);
    var value := prefix + n;
    assert entry[0] == 'p';
    assert n[|n| - 1] in n;
    assert entry[|entry| - 1] == n[|n| - 1];
    TrimmedIsFixed(entry);
    ItoaStartsWithDigit(port);
    if prefix != "" {
      PrefixStartsPlainly(prefix);
    }
    assert value[|value| - 1] == n[|n| - 1];
    TrimmedIsFixed(value);
    TrimmedIsFixed("port");
    assert entry == "port" + ['='] + value;
    CutAtFirst("port", value, '=');
  }

  /** What the scan makes of the line written. */
  lemma KindOfEntry(prefix: string, port: Port)
    requires AddressPrefix(prefix)
    ensures KindOf(Entry(prefix, port)) == PortLine(prefix + Itoa(port), Some((prefix, port)))
  {
    EntryIsAssignment(prefix, port);
    WrittenValueReadsBack(prefix, port);
  }

  /** What the scan keeps: inside [Globals] a header was seen, and indices are
      those of lines passed. */
  ghost predicate Sound(section: string, a: Found, i: nat) {
    && (section == GLOBALS ==> a.globals.Some?)
    && (a.line.Some? ==> a.line.value < i && a.globals.Some?)
    && (a.globals.Some? ==> a.globals.value < i)
    && (a.line == None ==> a.prefix == "" && a.port == DEFAULT_RDP_PORT)
  }

  ghost predicate SoundKind(kind: Kind) {
    kind.PortLine? && kind.names.Some? ==> AddressPrefix(kind.names.value.0)
  }

  ghost predicate SoundKinds(kinds: seq<Kind>) {
    forall i | 0 <= i < |kinds| :: SoundKind(kinds[i])
  }

  lemma KindsAreSound(lines: seq<string>)
    ensures SoundKinds(Kinds(lines))
  {}

  /** b was found after a, from line i on. */
  ghost predicate FoundLater(a: Found, b: Found, i: nat) {
    && (a.line.Some? ==> b.line.Some?)
    && (a.globals.Some? ==> b.globals == a.globals)
    && (b.line != a.line ==> b.line.Some? && b.line.value >= i)
    && (b.globals != a.globals ==> b.globals.Some? && b.globals.value >= i)
  }

  lemma {:induction false} ScanIsSound(rest: seq<Kind>, i: nat, section: string, a: Found)
    requires Sound(section, a, i)
    ensures Scan(rest, i, section, a).Ok? ==> Sound("", Scan(rest, i, section, a).value, i + |rest|)
    ensures Scan(rest, i, section, a).Ok? ==> FoundLater(a, Scan(rest, i, section, a).value, i)
    decreases rest
  {
    if rest != [] {
      var step := ScanLine(rest[0], i, section, a);
      if step.Ok? {
        ScanIsSound(rest[1..], i + 1, step.value.0, step.value.1);
      }
    }
  }

  lemma {:induction false} ScanKeepsPrefix(rest: seq<Kind>, i: nat, section: string, a: Found)
    requires AddressPrefix(a.prefix) && SoundKinds(rest)
    ensures Scan(rest, i, section, a).Ok? ==> AddressPrefix(Scan(rest, i, section, a).value.prefix)
    decreases rest
  {
    if rest != [] && ScanLine(rest[0], i, section, a).Ok? {
      assert SoundKind(rest[0]);
      var (next, b) := ScanLine(rest[0], i, section, a).value;
      ScanKeepsPrefix(rest[1..], i + 1, next, b);
    }
  }

  lemma ReadIsInRange(text: string)
    ensures Read(text).Ok? ==> InRange(Read(text).value) && AddressPrefix(Read(text).value.found.prefix)
  {
    KindsAreSound(Split(text, '\n'));
    ScanIsSound(Kinds(Split(text, '\n')), 0, "", NOTHING_FOUND);
    ScanKeepsPrefix(Kinds(Split(text, '\n')), 0, "", NOTHING_FOUND);
  }

  /** Lines that hold no further port line change nothing, whatever was found
      before them and wherever they sit. */
  lemma {:induction false} NoFurtherPort(rest: seq<Kind>, i: nat, section: string, a: Found, j: nat, b: Found)
    requires Sound(section, a, i) && a.globals.Some? && b.globals.Some?
    requires Scan(rest, i, section, a).Ok? && Scan(rest, i, section, a).value.line == a.line
    ensures Scan(rest, j, section, b) == Ok(b)
    decreases rest
  {
    if rest != [] {
      var (next, a') := ScanLine(rest[0], i, section, a).value;
      ScanIsSound(rest[1..], i + 1, next, a');
      NoFurtherPort(rest[1..], i + 1, next, a', j + 1, b);
    }
  }

  /** The last port line replaced by one that names prefix and port. */
  lemma {:induction false} ScanWithReplacedPort(rest: seq<Kind>, i: nat, section: string, a: Found, k: nat, entry: Kind, port: int)
    requires Sound(section, a, i) && i <= k < i + |rest|
    requires Scan(rest, i, section, a).Ok? && Scan(rest, i, section, a).value.line == Some(k)
    requires entry.PortLine? && entry.names == Some((Scan(rest, i, section, a).value.prefix, port))
    ensures Scan(rest[k - i := entry], i, section, a) == Ok(Scan(rest, i, section, a).value.(port := port))
    decreases rest
  {
    var out := rest[k - i := entry];
    var (next, b) := ScanLine(rest[0], i, section, a).value;
    ScanIsSound(rest[1..], i + 1, next, b);
    if k == i {
      ReplacedHere(rest, i, section, a, entry, port);
    } else {
      ScanWithReplacedPort(rest[1..], i + 1, next, b, k, entry, port);
      assert out[0] == rest[0] && out[1..] == rest[1..][k - (i + 1) := entry];
    }
  }

  lemma ReplacedHere(rest: seq<Kind>, i: nat, section: string, a: Found, entry: Kind, port: int)
    requires rest != [] && Sound(section, a, i)
    requires Scan(rest, i, section, a).Ok? && Scan(rest, i, section, a).value.line == Some(i)
    requires entry.PortLine? && entry.names == Some((Scan(rest, i, section, a).value.prefix, port))
    ensures Scan(rest[0 := entry], i, section, a) == Ok(Scan(rest, i, section, a).value.(port := port))
  {
    var out := rest[0 := entry];
    var (next, b) := ScanLine(rest[0], i, section, a).value;
    ScanIsSound(rest[1..], i + 1, next, b);
    NoFurtherPort(rest[1..], i + 1, next, b, i + 1, b);
    NoFurtherPort(rest[1..], i + 1, next, b, i + 1, b.(port := port));
    assert out[0] == entry && out[1..] == rest[1..];
  }

  /** A port line inserted right after the first [Globals] header of a file that
      has none. */
  lemma {:induction false} ScanWithInsertedPort(rest: seq<Kind>, i: nat, section: string, a: Found, g: nat, entry: Kind, port: int)
    requires Sound(section, a, i) && a.globals == None && i <= g < i + |rest|
    requires Scan(rest, i, section, a).Ok?
    requires Scan(rest, i, section, a).value.line == None && Scan(rest, i, section, a).value.globals == Some(g)
    requires entry.PortLine? && entry.names == Some(("", port))
    ensures Scan(rest[..g - i + 1] + [entry] + rest[g - i + 1..], i, section, a)
         == Ok(Scan(rest, i, section, a).value.(line := Some(g + 1), port := port))
    decreases rest
  {
    var out := rest[..g - i + 1] + [entry] + rest[g - i + 1..];
    var (next, b) := ScanLine(rest[0], i, section, a).value;
    ScanIsSound(rest[1..], i + 1, next, b);
    assert out[0] == rest[0];
    if g == i {
      assert out[1..] == [entry] + rest[1..];
      assert out[1..][1..] == rest[1..];
      NoFurtherPort(rest[1..], i + 1, next, b, i + 1, b);
      NoFurtherPort(rest[1..], i + 1, next, b, i + 2, b.(line := Some(i + 1), port := port));
    } else {
      ScanWithInsertedPort(rest[1..], i + 1, next, b, g, entry, port);
      assert out[1..] == rest[1..][..g - (i + 1) + 1] + [entry] + rest[1..][g - (i + 1) + 1..];
    }
  }

  /** Every character of the prefix kept comes from the file, so the rewritten
      lines hold no newline and split back into themselves. */
  lemma PrefixHoldsNoNewline(prefix: string)
    requires AddressPrefix(prefix)
    ensures '\n' !in prefix
  {
    if prefix != "" {
      var scheme :| scheme in {"tcp://", "tcp6://"} && HasPrefix(prefix, scheme)
                    && forall c | c in prefix[|scheme|..] :: !PatternSpace(c);
      assert prefix == scheme + prefix[|scheme|..];
      assert '\n' !in scheme && PatternSpace('\n');
    }
  }

  lemma RewrittenLinesSplitBack(text: string, port: Port)
    requires Read(text).Ok? && HasPlace(Read(text).value)
    ensures InRange(Read(text).value)
    ensures var l := Read(text).value; Split(WithPort(l, port), '\n') == RewrittenLines(l, port)
  {
    ReadIsInRange(text);
    var l := Read(text).value;
    SplitPartsHoldNoSeparator(text, '\n');
    PrefixHoldsNoNewline(l.found.prefix);
    assert '\n' !in Itoa(port);
    assert '\n' !in Entry(l.found.prefix, port);
    var out := RewrittenLines(l, port);
    forall line | line in out
      ensures '\n' !in line
    {
      if line != Entry(l.found.prefix, port) {
        assert line in l.lines;
      }
    }
    SplitOfJoin(out, '\n');
  }

  function RewrittenKinds(kinds: seq<Kind>, found: Found, entry: Kind): seq<Kind>
    requires FoundIn(found, |kinds|)
  {
    if found.line.Some? then kinds[found.line.value := entry]
    else var g := found.globals.value; kinds[..g + 1] + [entry] + kinds[g + 1..]
  }

  function RewrittenFound(found: Found, port: Port): Found
    requires found.line.Some? || found.globals.Some?
  {
    found.(line := if found.line.Some? then found.line else Some(found.globals.value + 1), port := port)
  }

  /** The file as a second read finds it. */
  function Rewritten(l: Listener, port: Port): Listener
    requires HasPlace(l) && InRange(l)
  {
    Listener(RewrittenLines(l, port), RewrittenFound(l.found, port))
  }

  lemma {:induction false} KindsOfWithLine(lines: seq<string>, found: Found, line: string)
    requires FoundIn(found, |lines|)
    ensures Kinds(WithLine(lines, found, line)) == RewrittenKinds(Kinds(lines), found, KindOf(line))
  {
    if found.line.Some? {
      KindsOfReplaced(lines, found.line.value, line);
    } else {
      KindsOfInserted(lines, found.globals.value + 1, line);
    }
  }

  lemma KindsOfReplaced(lines: seq<string>, k: nat, line: string)
    requires k < |lines|
    ensures Kinds(lines[k := line]) == Kinds(lines)[k := KindOf(line)]
  {}

  lemma KindsOfInserted(lines: seq<string>, k: nat, line: string)
    requires k <= |lines|
    ensures Kinds(lines[..k] + [line] + lines[k..]) == Kinds(lines)[..k] + [KindOf(line)] + Kinds(lines)[k..]
  {}

  lemma {:induction false} ReplacedKindsScan(kinds: seq<Kind>, section: string, a: Found, found: Found, entry: Kind, port: Port, out: seq<Kind>)
    requires Sound(section, a, 0) && Scan(kinds, 0, section, a) == Ok(found)
    requires found.line.Some? && found.line.value < |kinds| && out == kinds[found.line.value := entry]
    requires entry.PortLine? && entry.names == Some((found.prefix, port))
    ensures Scan(out, 0, section, a) == Ok(found.(port := port))
  {
    ScanWithReplacedPort(kinds, 0, section, a, found.line.value, entry, port);
  }

  lemma {:induction false} InsertedKindsScan(kinds: seq<Kind>, section: string, a: Found, found: Found, entry: Kind, port: Port, out: seq<Kind>)
    requires Sound(section, a, 0) && a.globals == None && Scan(kinds, 0, section, a) == Ok(found)
    requires found.line == None && found.globals.Some? && found.globals.value < |kinds|
    requires out == kinds[..found.globals.value + 1] + [entry] + kinds[found.globals.value + 1..]
    requires entry.PortLine? && entry.names == Some((found.prefix, port))
    ensures Scan(out, 0, section, a) == Ok(found.(line := Some(found.globals.value + 1), port := port))
  {
    ScanIsSound(kinds, 0, section, a);
    ScanWithInsertedPort(kinds, 0, section, a, found.globals.value, entry, port);
  }

  lemma RewrittenScan(l: Listener, port: Port, entry: Kind)
    requires HasPlace(l) && InRange(l)
    requires KindOf(Entry(l.found.prefix, port)) == entry
    requires entry.PortLine? && entry.names == Some((l.found.prefix, port))
    requires Scan(Kinds(l.lines), 0, "", NOTHING_FOUND) == Ok(l.found)
    ensures Scan(Kinds(Rewritten(l, port).lines), 0, "", NOTHING_FOUND) == Ok(Rewritten(l, port).found)
  {
    KindsOfWithLine(l.lines, l.found, Entry(l.found.prefix, port));
    var kinds, out := Kinds(l.lines), Kinds(RewrittenLines(l, port));
    if l.found.line.Some? {
      ReplacedKindsScan(kinds, "", NOTHING_FOUND, l.found, entry, port, out);
    } else {
      InsertedKindsScan(kinds, "", NOTHING_FOUND, l.found, entry, port, out);
    }
  }

  lemma ReadOfLines(text: string, l: Listener)
    requires Split(text, '\n') == l.lines
    ensures Read(text) == Ok(l) <==> Scan(Kinds(l.lines), 0, "", NOTHING_FOUND) == Ok(l.found)
  {}

  /** Reading the rewritten file yields the declared port with the same address
      prefix, so a second run asks for no rewrite. The other lines are those of
      the file, in order (RewriteKeepsOtherLines). */
  lemma RewriteRoundTrip(text: string, l: Listener, port: Port)
    requires Read(text) == Ok(l) && HasPlace(l)
    ensures InRange(l)
    ensures Read(WithPort(l, port)) == Ok(Rewritten(l, port))
  {
    ReadIsInRange(text);
    ReadOfLines(text, l);
    KindOfEntry(l.found.prefix, port);
    RewrittenScan(l, port, KindOf(Entry(l.found.prefix, port)));
    RewrittenLinesSplitBack(text, port);
    ReadOfLines(WithPort(l, port), Rewritten(l, port));
  }

  /** The rewrite touches one line only: the port line, or a new line right
      after the [Globals] header. */
  lemma RewriteKeepsOtherLines(l: Listener, port: Port)
    requires HasPlace(l) && InRange(l)
    ensures var out := RewrittenLines(l, port);
            if l.found.line.Some? then
              |out| == |l.lines| && forall i | 0 <= i < |out| && i != l.found.line.value :: out[i] == l.lines[i]
            else
              var at := l.found.globals.value + 1;
              |out| == |l.lines| + 1 && out[..at] + out[at + 1..] == l.lines
  {}
}
