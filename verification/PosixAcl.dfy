/** The access ACL of a directory as Linux stores it: a little-endian version,
    then entries of tag, permissions and id. */
module PosixAcl {
  import opened Bytes

  const VERSION: u32 := 2
  const HEADER := 4
  const ENTRY := 8

  const USER_OBJ: u16 := 0x01
  const USER: u16 := 0x02
  const GROUP_OBJ: u16 := 0x04
  const GROUP: u16 := 0x08
  const MASK: u16 := 0x10
  const OTHER: u16 := 0x20

  datatype Entry = Entry(tag: u16, perm: u16, id: u32)
  datatype Writer = User(id: u32) | Group(id: u32)
  datatype AclError = BadLength | BadVersion(version: u32) | BadCount(tag: u16, found: nat) | NamedWithoutMask
  datatype AclRead = Writers(named: seq<Writer>) | Refused(error: AclError)

  // ------------------------------------------------------------ the stored form

  function Le16(b: seq<byte>): u16
    requires |b| >= 2
  {
    b[0] as int + 0x100 * b[1] as int
  }

  function Le32(b: seq<byte>): u32
    requires |b| >= 4
  {
    Le16(b) + 0x1_0000 * Le16(b[2..])
  }

  function Bytes16(n: u16): (b: seq<byte>)
    ensures |b| == 2
  {
    [(n % 0x100) as byte, (n / 0x100) as byte]
  }

  function Bytes32(n: u32): (b: seq<byte>)
    ensures |b| == 4
  {
    Bytes16(n % 0x1_0000) + Bytes16(n / 0x1_0000)
  }

  function EntryBytes(e: Entry): (b: seq<byte>)
    ensures |b| == ENTRY
  {
    Bytes16(e.tag) + Bytes16(e.perm) + Bytes32(e.id)
  }

  function EntryOf(b: seq<byte>): Entry
    requires |b| == ENTRY
  {
    Entry(Le16(b), Le16(b[2..]), Le32(b[4..]))
  }

  function EntriesBytes(es: seq<Entry>): (b: seq<byte>)
    ensures |b| == ENTRY * |es|
  {
    if es == [] then [] else EntryBytes(es[0]) + EntriesBytes(es[1..])
  }

  /** The value the kernel stores for an ACL. */
  function Stored(es: seq<Entry>): seq<byte> {
    Bytes32(VERSION) + EntriesBytes(es)
  }

  function EntriesOf(b: seq<byte>): (es: seq<Entry>)
    requires |b| % ENTRY == 0
    ensures |es| == |b| / ENTRY
  {
    if b == [] then [] else [EntryOf(b[..ENTRY])] + EntriesOf(b[ENTRY..])
  }

  lemma EntryRoundTrip(e: Entry)
    ensures EntryOf(EntryBytes(e)) == e
  {
    var b := EntryBytes(e);
    assert b[2..][..2] == Bytes16(e.perm) && b[4..] == Bytes32(e.id);
    assert b[4..][2..] == Bytes16(e.id / 0x1_0000);
  }

  lemma BytesRoundTrip(b: seq<byte>)
    requires |b| == ENTRY
    ensures EntryBytes(EntryOf(b)) == b
  {
    Half(b[..2]);
    Half(b[2..4]);
    WordRoundTrip(b[4..]);
    assert Le16(b) == Le16(b[..2]) && Le16(b[2..]) == Le16(b[2..4]);
    assert b == b[..2] + b[2..4] + b[4..];
  }

  lemma WordRoundTrip(w: seq<byte>)
    requires |w| == 4
    ensures Bytes32(Le32(w)) == w
  {
    var lo, hi := Le16(w[..2]), Le16(w[2..]);
    Half(w[..2]);
    Half(w[2..]);
    assert Le16(w) == lo;
    Halves(lo, hi);
    assert w == w[..2] + w[2..];
  }

  lemma Halves(lo: u16, hi: u16)
    ensures (lo + 0x1_0000 * hi) % 0x1_0000 == lo && (lo + 0x1_0000 * hi) / 0x1_0000 == hi
  {}

  lemma Half(b: seq<byte>)
    requires |b| == 2
    ensures Bytes16(Le16(b)) == b
  {}

  lemma {:induction false} EntriesRoundTrip(es: seq<Entry>)
    ensures EntriesOf(EntriesBytes(es)) == es
  {
    if es != [] {
      EntryRoundTrip(es[0]);
      EntriesRoundTrip(es[1..]);
      var b := EntriesBytes(es);
      assert b[..ENTRY] == EntryBytes(es[0]) && b[ENTRY..] == EntriesBytes(es[1..]);
    }
  }

  lemma {:induction false} EntriesBytesRoundTrip(b: seq<byte>)
    requires |b| % ENTRY == 0
    ensures EntriesBytes(EntriesOf(b)) == b
    decreases |b|
  {
    if b != [] {
      BytesRoundTrip(b[..ENTRY]);
      EntriesBytesRoundTrip(b[ENTRY..]);
      assert b == b[..ENTRY] + b[ENTRY..];
    }
  }

  // ------------------------------------------------------------------ the shape

  function Count(es: seq<Entry>, tag: u16): nat {
    if es == [] then 0 else (if es[0].tag == tag then 1 else 0) + Count(es[1..], tag)
  }

  /** The kernel's posix_acl_valid shape. */
  predicate WellShaped(es: seq<Entry>) {
    && Count(es, USER_OBJ) == Count(es, GROUP_OBJ) == Count(es, OTHER) == 1
    && (Count(es, USER) + Count(es, GROUP) > 0 ==> Count(es, MASK) == 1)
  }

  predicate MayWrite(perm: u16) {
    perm / 2 % 2 == 1
  }

  /** A named user or group other than root, with the write bit. */
  predicate NamesWriter(e: Entry) {
    (e.tag == USER || e.tag == GROUP) && MayWrite(e.perm) && e.id != 0
  }

  function WriterOf(e: Entry): Writer {
    if e.tag == GROUP then Group(e.id) else User(e.id)
  }

  /** The writers an ACL names, in its own order; the mask is not applied. */
  function NamedWriters(es: seq<Entry>): seq<Writer> {
    if es == [] then []
    else (if NamesWriter(es[0]) then [WriterOf(es[0])] else []) + NamedWriters(es[1..])
  }

  lemma {:induction false} NoneNamed(es: seq<Entry>)
    ensures NamedWriters(es) == [] <==> forall e | e in es :: !NamesWriter(e)
  {
    if es != [] {
      NoneNamed(es[1..]);
      assert es == [es[0]] + es[1..];
    }
  }

  // ------------------------------------------------------------------- the reader

  /** aclHeaderValid. */
  function HeaderError(raw: seq<byte>): (e: AclRead)
    ensures e.Writers? <==> |raw| >= HEADER && (|raw| - HEADER) % ENTRY == 0 && raw[..HEADER] == Bytes32(VERSION)
  {
    if |raw| < HEADER || (|raw| - HEADER) % ENTRY != 0 then Refused(BadLength)
    else if Le32(raw) != VERSION then Refused(BadVersion(Le32(raw)))
    else
      HeaderIsVersion(raw);
      Writers([])
  }

  lemma HeaderIsVersion(raw: seq<byte>)
    requires |raw| >= HEADER
    ensures Le32(raw) == VERSION <==> raw[..HEADER] == Bytes32(VERSION)
  {
    assert Bytes32(VERSION) == [2, 0, 0, 0];
    if Le32(raw) == VERSION {
      assert raw[2..][0] == raw[2] && raw[2..][1] == raw[3];
    }
  }

  function Seen(seen: map<u16, nat>, tag: u16): nat {
    if tag in seen then seen[tag] else 0
  }

  /** The tags a well-shaped ACL holds once. */
  const WANTED: seq<u16> := [USER_OBJ, GROUP_OBJ, OTHER]

  /** The first count of a wanted tag, from the i-th on, that is not one. */
  function CountError(es: seq<Entry>, i: nat): AclRead
    requires i <= |WANTED|
    decreases |WANTED| - i
  {
    if i == |WANTED| then Writers([])
    else if Count(es, WANTED[i]) != 1 then Refused(BadCount(WANTED[i], Count(es, WANTED[i])))
    else CountError(es, i + 1)
  }

  function ShapeError(es: seq<Entry>): (e: AclRead)
    ensures e.Writers? <==> WellShaped(es)
  {
    if CountError(es, 0).Refused? then CountError(es, 0)
    else if Count(es, USER) + Count(es, GROUP) > 0 && Count(es, MASK) != 1 then Refused(NamedWithoutMask)
    else Writers([])
  }

  function ReadAcl(raw: seq<byte>): AclRead {
    if HeaderError(raw).Refused? then HeaderError(raw)
    else
      var es := EntriesFrom(raw, HEADER);
      if ShapeError(es).Refused? then ShapeError(es) else Writers(NamedWriters(es))
  }

  /** A whole number of entries is left from off. */
  predicate Aligned(raw: seq<byte>, off: nat) {
    HEADER <= off <= |raw| && (|raw| - off) % ENTRY == 0
  }

  function EntriesFrom(raw: seq<byte>, off: nat): seq<Entry>
    requires Aligned(raw, off)
  {
    EntriesOf(raw[off..])
  }

  lemma EntryAtOffset(raw: seq<byte>, off: nat)
    requires Aligned(raw, off) && off < |raw|
    ensures off + ENTRY <= |raw| && Aligned(raw, off + ENTRY)
    ensures EntriesFrom(raw, off) == [EntryOf(raw[off..off + ENTRY])] + EntriesFrom(raw, off + ENTRY)
    ensures Le16(raw[off..]) == EntryOf(raw[off..off + ENTRY]).tag
  {
    assert raw[off..][..ENTRY] == raw[off..off + ENTRY] && raw[off..][ENTRY..] == raw[off + ENTRY..];
  }

  /** aclShapeValid: one count per tag met. */
  method ShapeValid(raw: seq<byte>) returns (e: AclRead)
    requires Aligned(raw, HEADER)
    ensures e == ShapeError(EntriesFrom(raw, HEADER))
  {
    ghost var es := EntriesFrom(raw, HEADER);
    var seen: map<u16, nat> := map[];
    var off := HEADER;
    while off < |raw|
      invariant Aligned(raw, off)
      invariant forall tag: u16 :: Count(es, tag) == Seen(seen, tag) + Count(EntriesFrom(raw, off), tag)
    {
      EntryAtOffset(raw, off);
      var tag := Le16(raw[off..]);
      seen := seen[tag := Seen(seen, tag) + 1];
      off := off + ENTRY;
    }
    assert EntriesFrom(raw, off) == [];
    for i := 0 to |WANTED|
      invariant CountError(es, 0) == CountError(es, i)
    {
      if Seen(seen, WANTED[i]) != 1 {
        return Refused(BadCount(WANTED[i], Seen(seen, WANTED[i])));
      }
    }
    if Seen(seen, USER) + Seen(seen, GROUP) > 0 && Seen(seen, MASK) != 1 {
      return Refused(NamedWithoutMask);
    }
    return Writers([]);
  }

  /** aclWriters. */
  method AclWriters(raw: seq<byte>) returns (r: AclRead)
    ensures r == ReadAcl(raw)
  {
    r := HeaderError(raw);
    if r.Refused? {
      return;
    }
    r := ShapeValid(raw);
    if r.Refused? {
      return;
    }
    var named: seq<Writer> := [];
    var off := HEADER;
    while off < |raw|
      invariant Aligned(raw, off)
      invariant NamedWriters(EntriesFrom(raw, HEADER)) == named + NamedWriters(EntriesFrom(raw, off))
    {
      EntryAtOffset(raw, off);
      var e := EntryOf(raw[off..off + ENTRY]);
      if NamesWriter(e) {
        named := named + [WriterOf(e)];
      }
      off := off + ENTRY;
    }
    return Writers(named);
  }

  /** The reader returns the named writers, in order, of every well-shaped ACL as
      the kernel stores it, and refuses every other byte string. */
  lemma ReaderAcceptsStoredOnly(raw: seq<byte>, writers: seq<Writer>)
    ensures ReadAcl(raw) == Writers(writers) <==>
              exists es :: WellShaped(es) && raw == Stored(es) && writers == NamedWriters(es)
  {
    if ReadAcl(raw) == Writers(writers) {
      var es := EntriesFrom(raw, HEADER);
      AcceptedIsStored(raw);
      assert WellShaped(es);
    }
    if es :| WellShaped(es) && raw == Stored(es) && writers == NamedWriters(es) {
      StoredIsRead(es);
    }
  }

  /** The stored form of an ACL that names no writer. */
  ghost predicate IsReadableWithoutWriter(raw: seq<byte>) {
    exists es :: WellShaped(es) && raw == Stored(es) && forall e | e in es :: !NamesWriter(e)
  }

  lemma ReadsNoWriter(raw: seq<byte>)
    ensures ReadAcl(raw) == Writers([]) <==> IsReadableWithoutWriter(raw)
  {
    ReaderAcceptsStoredOnly(raw, []);
    forall es | WellShaped(es) && raw == Stored(es)
      ensures NamedWriters(es) == [] <==> forall e | e in es :: !NamesWriter(e)
    {
      NoneNamed(es);
    }
  }

  lemma AcceptedIsStored(raw: seq<byte>)
    requires HeaderError(raw).Writers?
    ensures raw == Stored(EntriesFrom(raw, HEADER))
  {
    EntriesBytesRoundTrip(raw[HEADER..]);
    assert raw == raw[..HEADER] + raw[HEADER..];
  }

  lemma StoredIsRead(es: seq<Entry>)
    ensures ReadAcl(Stored(es)) == if ShapeError(es).Refused? then ShapeError(es) else Writers(NamedWriters(es))
  {
    var raw := Stored(es);
    assert raw[..HEADER] == Bytes32(VERSION) && raw[HEADER..] == EntriesBytes(es);
    HeaderIsVersion(raw);
    EntriesRoundTrip(es);
  }

  // ------------------------------------------------------------ byte by byte

  /** The i-th entry's tag, permissions and id, in its eight bytes after the
      four of the version. */
  predicate HasEntry(raw: seq<byte>, i: nat) {
    12 + 8 * i <= |raw|
  }

  function TagAt(raw: seq<byte>, i: nat): int
    requires HasEntry(raw, i)
  {
    raw[4 + 8 * i] as int + 256 * raw[5 + 8 * i] as int
  }

  /** Bit 2 of the permissions' low byte. */
  predicate WritesAt(raw: seq<byte>, i: nat)
    requires HasEntry(raw, i)
  {
    raw[6 + 8 * i] as int / 2 % 2 == 1
  }

  /** The id is not root's. */
  predicate NotRootAt(raw: seq<byte>, i: nat)
    requires HasEntry(raw, i)
  {
    raw[8 + 8 * i] != 0 || raw[9 + 8 * i] != 0 || raw[10 + 8 * i] != 0 || raw[11 + 8 * i] != 0
  }

  ghost predicate OneTag(raw: seq<byte>, tag: int) {
    exists i: nat :: HasEntry(raw, i) && TagAt(raw, i) == tag && forall j: nat | HasEntry(raw, j) && TagAt(raw, j) == tag :: j == i
  }

  /** Entry i alone has the tag. */
  predicate Only(es: seq<Entry>, tag: u16, i: nat) {
    i < |es| && es[i].tag == tag && forall j | 0 <= j < |es| && es[j].tag == tag :: j == i
  }

  lemma OnlyInRest(es: seq<Entry>, tag: u16, i: nat)
    requires es != [] && es[0].tag != tag
    ensures Only(es, tag, i + 1) <==> Only(es[1..], tag, i)
  {
    assert forall j | 0 <= j < |es[1..]| :: es[1..][j] == es[j + 1];
    if Only(es[1..], tag, i) {
      forall j | 0 <= j < |es| && es[j].tag == tag
        ensures j == i + 1
      {
        assert es[1..][j - 1].tag == tag;
      }
    }
  }

  lemma {:induction false} CountsNone(es: seq<Entry>, tag: u16)
    ensures Count(es, tag) == 0 <==> forall i | 0 <= i < |es| :: es[i].tag != tag
  {
    if es != [] {
      CountsNone(es[1..], tag);
      assert forall i | 1 <= i < |es| :: es[i] == es[1..][i - 1];
      assert forall i | 0 <= i < |es[1..]| :: es[1..][i] == es[i + 1];
    }
  }

  lemma {:induction false} CountsOne(es: seq<Entry>, tag: u16)
    ensures Count(es, tag) == 1 <==> exists i: nat | i < |es| :: Only(es, tag, i)
  {
    if es != [] {
      if es[0].tag == tag {
        CountsNone(es[1..], tag);
        FirstIsOnly(es, tag);
      } else {
        CountsOne(es[1..], tag);
        if i: nat :| i < |es[1..]| && Only(es[1..], tag, i) {
          OnlyInRest(es, tag, i);
        }
        if i: nat :| i < |es| && Only(es, tag, i) {
          OnlyInRest(es, tag, i - 1);
        }
      }
    }
  }

  lemma FirstIsOnly(es: seq<Entry>, tag: u16)
    requires es != [] && es[0].tag == tag
    ensures (exists i: nat | i < |es| :: Only(es, tag, i)) <==> forall j | 0 <= j < |es[1..]| :: es[1..][j].tag != tag
  {
    assert forall j | 0 <= j < |es[1..]| :: es[1..][j] == es[j + 1];
    assert forall j | 1 <= j < |es| :: es[j] == es[1..][j - 1];
    if forall j | 0 <= j < |es[1..]| :: es[1..][j].tag != tag {
      assert Only(es, tag, 0);
    }
  }

  lemma {:induction false} EntryAt(b: seq<byte>, i: nat)
    requires |b| % ENTRY == 0 && ENTRY * i < |b|
    ensures i < |EntriesOf(b)| && ENTRY * i + ENTRY <= |b| && EntriesOf(b)[i] == EntryOf(b[ENTRY * i..ENTRY * i + ENTRY])
    decreases i
  {
    if i > 0 {
      var rest := b[ENTRY..];
      EntryAt(rest, i - 1);
      var at := ENTRY * (i - 1);
      assert b[at + ENTRY..at + ENTRY + ENTRY] == rest[at..at + ENTRY];
      assert at + ENTRY == ENTRY * i;
      assert EntriesOf(b)[i] == EntriesOf(rest)[i - 1];
    }
  }

  lemma EntryByBytes(b: seq<byte>)
    requires |b| == ENTRY
    ensures var e := EntryOf(b);
            && e.tag == b[0] as int + 256 * b[1] as int
            && (MayWrite(e.perm) <==> b[2] as int / 2 % 2 == 1)
            && (e.id == 0 <==> b[4] == 0 && b[5] == 0 && b[6] == 0 && b[7] == 0)
  {
    var e, low := EntryOf(b), b[4..];
    assert e.perm == b[2] as int + 256 * b[3] as int;
    assert low[2..][0] == b[6] && low[2..][1] == b[7];
    assert e.id == Le16(low) + 0x1_0000 * Le16(low[2..]);
  }

  lemma FieldsAt(raw: seq<byte>, i: nat)
    requires Aligned(raw, HEADER)
    ensures i < |EntriesFrom(raw, HEADER)| <==> HasEntry(raw, i)
    ensures HasEntry(raw, i) ==>
              var e := EntriesFrom(raw, HEADER)[i];
              e.tag == TagAt(raw, i) && (MayWrite(e.perm) <==> WritesAt(raw, i)) && (e.id != 0 <==> NotRootAt(raw, i))
  {
    var b := raw[HEADER..];
    if HasEntry(raw, i) {
      EntryAt(b, i);
      var eight := b[ENTRY * i..ENTRY * i + ENTRY];
      assert forall k | 0 <= k < ENTRY :: eight[k] == raw[HEADER + ENTRY * i + k];
      EntryByBytes(eight);
    }
  }

  lemma OneTagCounted(raw: seq<byte>, tag: u16)
    requires Aligned(raw, HEADER)
    ensures OneTag(raw, tag) <==> Count(EntriesFrom(raw, HEADER), tag) == 1
  {
    var es := EntriesFrom(raw, HEADER);
    forall i: nat
      ensures i < |es| <==> HasEntry(raw, i)
      ensures HasEntry(raw, i) ==> es[i].tag == TagAt(raw, i)
    {
      FieldsAt(raw, i);
    }
    CountsOne(es, tag);
    if i: nat :| HasEntry(raw, i) && TagAt(raw, i) == tag && forall j: nat | HasEntry(raw, j) && TagAt(raw, j) == tag :: j == i {
      assert Only(es, tag, i);
    }
    if i: nat :| i < |es| && Only(es, tag, i) {
      assert HasEntry(raw, i) && TagAt(raw, i) == tag;
    }
  }

  /** Some entry names a user or a group. */
  predicate NamesAnyone(raw: seq<byte>) {
    exists i: nat | i < |raw| && HasEntry(raw, i) :: TagAt(raw, i) == 0x02 || TagAt(raw, i) == 0x08
  }

  /** No entry names a user or a group other than root with the write bit. */
  predicate NobodyWrites(raw: seq<byte>) {
    forall i: nat | i < |raw| && HasEntry(raw, i) ::
      (TagAt(raw, i) == 0x02 || TagAt(raw, i) == 0x08) && NotRootAt(raw, i) ==> !WritesAt(raw, i)
  }

  /** The byte strings under which nobody is named who may write: version 2, whole
      entries, one of each required tag, a mask where anyone is named. */
  lemma AcceptedByBytes(raw: seq<byte>)
    ensures IsReadableWithoutWriter(raw) <==>
              && |raw| >= 4 && |raw| % 8 == 4 && raw[0] == 2 && raw[1] == 0 && raw[2] == 0 && raw[3] == 0
              && OneTag(raw, 0x01) && OneTag(raw, 0x04) && OneTag(raw, 0x20)
              && (NamesAnyone(raw) ==> OneTag(raw, 0x10))
              && NobodyWrites(raw)
  {
    ReadsNoWriter(raw);
    HeaderByBytes(raw);
    if HeaderError(raw).Writers? {
      OneTagCounted(raw, USER_OBJ);
      OneTagCounted(raw, GROUP_OBJ);
      OneTagCounted(raw, OTHER);
      OneTagCounted(raw, MASK);
      NamesCounted(raw);
      NobodyNamed(raw);
    }
  }

  lemma HeaderByBytes(raw: seq<byte>)
    ensures HeaderError(raw).Writers? <==>
              |raw| >= 4 && |raw| % 8 == 4 && raw[0] == 2 && raw[1] == 0 && raw[2] == 0 && raw[3] == 0
  {
    assert Bytes32(VERSION) == [2, 0, 0, 0];
    if |raw| >= 4 {
      assert raw[..4] == [raw[0], raw[1], raw[2], raw[3]];
    }
  }

  lemma NamesCounted(raw: seq<byte>)
    requires Aligned(raw, HEADER)
    ensures var es := EntriesFrom(raw, HEADER); NamesAnyone(raw) <==> Count(es, USER) + Count(es, GROUP) > 0
  {
    var es := EntriesFrom(raw, HEADER);
    CountsNone(es, USER);
    CountsNone(es, GROUP);
    forall i: nat
      ensures i < |es| <==> HasEntry(raw, i)
      ensures HasEntry(raw, i) ==> es[i].tag == TagAt(raw, i)
    {
      FieldsAt(raw, i);
    }
  }

  lemma NobodyNamed(raw: seq<byte>)
    requires Aligned(raw, HEADER)
    ensures NobodyWrites(raw) <==> NamedWriters(EntriesFrom(raw, HEADER)) == []
  {
    var es := EntriesFrom(raw, HEADER);
    NoneNamed(es);
    forall i: nat
      ensures i < |es| <==> HasEntry(raw, i)
      ensures HasEntry(raw, i) ==>
                (NamesWriter(es[i]) <==> (TagAt(raw, i) == 0x02 || TagAt(raw, i) == 0x08) && WritesAt(raw, i) && NotRootAt(raw, i))
    {
      FieldsAt(raw, i);
    }
    if e :| e in es && NamesWriter(e) {
      var i: nat :| i < |es| && es[i] == e;
      assert HasEntry(raw, i);
    }
  }
}
