/** The two copies of a proxied connection, interleaved read by read and write by
    write, with half-close. */
module Relay {
  import opened Text
  import opened Bytes

  const BUFFER := 32 * 1024

  datatype Side = Client | Remote

  function Other(side: Side): Side {
    if side == Client then Remote else Client
  }

  /** One end: the bytes its peer sends and how many are read, the bytes its peer
      is sent, and what is closed of it here. */
  datatype Conn = Conn(source: seq<byte>, pos: nat, received: seq<byte>, canHalfClose: bool, writeClosed: bool, closed: bool)

  /** Why a copy ends: EOF, an error expected of a closing connection, the idle
      deadline, or any other error. */
  datatype Cause = EOF | Expected | Idle | Broken

  /** Publishing: n bytes are written and not yet in the direction's counter. */
  datatype Pc =
    | Reading
    | Writing(chunk: seq<byte>, after: Option<Cause>)
    | Publishing(n: nat, after: Option<Cause>)
    | Ending(cause: Cause)
    | ClosingSource
    | Finished

  /** One direction, by the end it reads. published: the bytes it has added to its
      counter, which is also what io.CopyBuffer has counted for it. */
  datatype Copy = Copy(pc: Pc, published: nat)

  datatype Relay = Relay(client: Conn, remote: Conn, fromClient: Copy, fromRemote: Copy, returned: bool)

  function ConnOf(s: Relay, side: Side): Conn {
    if side == Client then s.client else s.remote
  }

  function CopyOf(s: Relay, side: Side): Copy {
    if side == Client then s.fromClient else s.fromRemote
  }

  function WithConn(s: Relay, side: Side, c: Conn): Relay {
    if side == Client then s.(client := c) else s.(remote := c)
  }

  function WithCopy(s: Relay, side: Side, c: Copy): Relay {
    if side == Client then s.(fromClient := c) else s.(fromRemote := c)
  }

  function WithPc(s: Relay, side: Side, pc: Pc): Relay {
    WithCopy(s, side, CopyOf(s, side).(pc := pc))
  }

  // ------------------------------------------------------------------- steps

  /** side is the end the direction reads. */
  datatype Event =
    | Read(side: Side, n: nat, cause: Option<Cause>)
    | Write(side: Side, n: nat, cause: Option<Cause>)
    | Publish(side: Side)
    | Finish(side: Side)
    | CloseSource(side: Side)
    | Return

  /** What the connections may answer: a closed one fails with an expected error,
      a read hands out the next bytes and ends in EOF after the last. */
  predicate Enabled(s: Relay, e: Event) {
    match e
    case Read(side, n, cause) =>
      var c := ConnOf(s, side);
      && CopyOf(s, side).pc.Reading?
      && (if c.closed then n == 0 && cause == Some(Expected)
          else
            && n <= BUFFER && c.pos + n <= |c.source| && (n > 0 || cause.Some?)
            && (cause == Some(EOF) ==> c.pos + n == |c.source|))
    case Write(side, n, cause) =>
      var to := ConnOf(s, Other(side));
      && CopyOf(s, side).pc.Writing?
      && n <= |CopyOf(s, side).pc.chunk|
      && (cause == None ==> n == |CopyOf(s, side).pc.chunk|) && cause != Some(EOF) && cause != Some(Idle)
      && (to.closed || to.writeClosed ==> n == 0 && cause == Some(Expected))
    case Publish(side) => CopyOf(s, side).pc.Publishing?
    case Finish(side) => CopyOf(s, side).pc.Ending?
    case CloseSource(side) => CopyOf(s, side).pc.ClosingSource?
    case Return => s.fromClient.pc.Finished? && s.fromRemote.pc.Finished? && !s.returned
  }

  function Next(s: Relay, e: Event): Relay
    requires Enabled(s, e)
  {
    match e
    case Read(side, n, cause) => ReadNext(s, side, n, cause)
    case Write(side, n, cause) => WriteNext(s, side, n, cause)
    case Publish(side) => PublishNext(s, side)
    case Finish(side) => FinishNext(s, side)
    case CloseSource(side) =>
      WithPc(WithConn(s, side, ConnOf(s, side).(closed := true)), side, Finished)
    case Return => s.(client := s.client.(closed := true), remote := s.remote.(closed := true), returned := true)
  }

  function ReadNext(s: Relay, side: Side, n: nat, cause: Option<Cause>): Relay
    requires Enabled(s, Read(side, n, cause))
  {
    var c := ConnOf(s, side);
    if n == 0 then WithPc(s, side, Ending(cause.value))
    else WithPc(WithConn(s, side, c.(pos := c.pos + n)), side, Writing(c.source[c.pos..c.pos + n], cause))
  }

  /** Where a direction is once a chunk is dealt with. */
  function Onward(after: Option<Cause>): Pc {
    if after.Some? then Ending(after.value) else Reading
  }

  /** The write itself, of the whole chunk or of part of it. */
  function WriteNext(s: Relay, side: Side, n: nat, cause: Option<Cause>): Relay
    requires Enabled(s, Write(side, n, cause))
  {
    var to, pc := ConnOf(s, Other(side)), CopyOf(s, side).pc;
    var after := if cause.Some? then cause else pc.after;
    WithPc(WithConn(s, Other(side), to.(received := to.received + pc.chunk[..n])), side,
           if n > 0 then Publishing(n, after) else Onward(after))
  }

  /** meteredWriter's add, after the write. */
  function PublishNext(s: Relay, side: Side): Relay
    requires Enabled(s, Publish(side))
  {
    var copy := CopyOf(s, side);
    WithCopy(s, side, Copy(Onward(copy.pc.after), copy.published + copy.pc.n))
  }

  /** How copyDirection ends: finishGraceful, or both ends closed. */
  function FinishNext(s: Relay, side: Side): Relay
    requires Enabled(s, Finish(side))
  {
    var to, cause := ConnOf(s, Other(side)), CopyOf(s, side).pc.cause;
    if cause != EOF && cause != Expected then
      WithPc(WithConn(s, Other(side), to.(closed := true)), side, ClosingSource)
    else if to.canHalfClose then WithPc(WithConn(s, Other(side), to.(writeClosed := true)), side, Finished)
    else WithPc(WithConn(s, Other(side), to.(closed := true)), side, Finished)
  }

  function Opened(source: seq<byte>, canHalfClose: bool): Conn {
    Conn(source, 0, [], canHalfClose, false, false)
  }

  const IDLE_COPY := Copy(Reading, 0)

  /** proxyConnections as it begins. */
  function Initial(client: seq<byte>, remote: seq<byte>, clientHalf: bool, remoteHalf: bool): Relay {
    Relay(Opened(client, clientHalf), Opened(remote, remoteHalf), IDLE_COPY, IDLE_COPY, false)
  }

  predicate Possible(s: Relay, events: seq<Event>)
    decreases events
  {
    events == [] || (Enabled(s, events[0]) && Possible(Next(s, events[0]), events[1..]))
  }

  function After(s: Relay, events: seq<Event>): Relay
    requires Possible(s, events)
    decreases events
  {
    if events == [] then s else After(Next(s, events[0]), events[1..])
  }

  // -------------------------------------------------------- what always holds

  /** The bytes a direction holds between its read and its write. */
  function Held(s: Relay, side: Side): seq<byte> {
    var pc := CopyOf(s, side).pc;
    if pc.Writing? then pc.chunk else []
  }

  /** The bytes written and not yet published. */
  function Unpublished(s: Relay, side: Side): nat {
    var pc := CopyOf(s, side).pc;
    if pc.Publishing? then pc.n else 0
  }

  /** One direction: what it delivered, then what it holds, is what it read, in
      order, unless it has ended and may have dropped what it held. */
  predicate Faithful(s: Relay, side: Side) {
    var from, got, copy := ConnOf(s, side), ConnOf(s, Other(side)).received, CopyOf(s, side);
    && from.pos <= |from.source| && |got| + |Held(s, side)| <= from.pos
    && got + Held(s, side) == from.source[..|got| + |Held(s, side)|]
    && (copy.pc.Reading? || copy.pc.Writing? || (copy.pc.Publishing? && copy.pc.after == None) ==> |got| + |Held(s, side)| == from.pos)
    && copy.published + Unpublished(s, side) == |got| && |Held(s, side)| <= BUFFER && Unpublished(s, side) <= BUFFER
  }

  predicate Sound(s: Relay) {
    && Faithful(s, Client) && Faithful(s, Remote)
    && (s.returned ==> s.client.closed && s.remote.closed)
  }

  lemma ReadIsFaithful(s: Relay, side: Side, n: nat, cause: Option<Cause>)
    requires Faithful(s, side) && Enabled(s, Read(side, n, cause))
    ensures Faithful(ReadNext(s, side, n, cause), side)
  {
    var c, got := ConnOf(s, side), ConnOf(s, Other(side)).received;
    if n > 0 {
      assert got == c.source[..c.pos];
      assert c.source[..c.pos + n] == c.source[..c.pos] + c.source[c.pos..c.pos + n];
    }
  }

  lemma WriteIsFaithful(s: Relay, side: Side, n: nat, cause: Option<Cause>)
    requires Faithful(s, side) && Enabled(s, Write(side, n, cause))
    ensures Faithful(WriteNext(s, side, n, cause), side)
  {
    var c, got, chunk := ConnOf(s, side), ConnOf(s, Other(side)).received, CopyOf(s, side).pc.chunk;
    assert (got + chunk)[..|got| + n] == got + chunk[..n];
    assert c.source[..|got| + |chunk|][..|got| + n] == c.source[..|got| + n];
  }

  lemma NextIsSound(s: Relay, e: Event)
    requires Sound(s) && Enabled(s, e)
    ensures Sound(Next(s, e))
  {
    NextKeepsEnds(s, e);
    match e
    case Read(side, n, cause) =>
      ReadIsFaithful(s, side, n, cause);
      OtherIsFaithful(s, e, Other(side));
    case Write(side, n, cause) =>
      WriteIsFaithful(s, side, n, cause);
      OtherIsFaithful(s, e, Other(side));
    case Publish(side) =>
      PublishIsFaithful(s, side, Client);
      PublishIsFaithful(s, side, Remote);
    case Finish(side) =>
      FinishIsFaithful(s, side, Client);
      FinishIsFaithful(s, side, Remote);
    case _ =>
      CloseIsFaithful(s, e, Client);
      CloseIsFaithful(s, e, Remote);
  }

  lemma PublishIsFaithful(s: Relay, published: Side, side: Side)
    requires Faithful(s, side) && Enabled(s, Publish(published))
    ensures Faithful(PublishNext(s, published), side)
  {}

  lemma FinishIsFaithful(s: Relay, ended: Side, side: Side)
    requires Faithful(s, side) && Enabled(s, Finish(ended))
    ensures Faithful(FinishNext(s, ended), side)
  {
    if ended == side {
      OwnFinishIsFaithful(s, side);
    } else {
      OtherFinishIsFaithful(s, side);
    }
  }

  lemma OwnFinishIsFaithful(s: Relay, side: Side)
    requires Faithful(s, side) && Enabled(s, Finish(side))
    ensures Faithful(FinishNext(s, side), side)
  {}

  lemma OtherFinishIsFaithful(s: Relay, side: Side)
    requires Faithful(s, side) && Enabled(s, Finish(Other(side)))
    ensures Faithful(FinishNext(s, Other(side)), side)
  {}

  /** A direction's steps leave the other one's bytes alone. */
  lemma OtherIsFaithful(s: Relay, e: Event, side: Side)
    requires Faithful(s, side) && Enabled(s, e) && (e.Read? || e.Write?) && Other(e.side) == side
    ensures Faithful(Next(s, e), side)
  {}

  lemma CloseIsFaithful(s: Relay, e: Event, side: Side)
    requires Faithful(s, side) && Enabled(s, e) && (e.CloseSource? || e.Return?)
    ensures Faithful(Next(s, e), side)
  {}

  lemma NextKeepsEnds(s: Relay, e: Event)
    requires Enabled(s, e)
    ensures SameEnds(s, Next(s, e))
    ensures s.client.closed && s.remote.closed ==> Next(s, e).client.closed && Next(s, e).remote.closed
    ensures Next(s, e).returned && !s.returned ==> Next(s, e).client.closed && Next(s, e).remote.closed
  {}

  lemma {:induction false} RunIsSound(s: Relay, events: seq<Event>)
    requires Sound(s) && Possible(s, events)
    ensures Sound(After(s, events))
    ensures SameEnds(s, After(s, events))
    decreases events
  {
    if events != [] {
      NextIsSound(s, events[0]);
      NextKeepsEnds(s, events[0]);
      RunIsSound(Next(s, events[0]), events[1..]);
    }
  }

  predicate SameEnds(s: Relay, t: Relay) {
    && s.client.source == t.client.source && s.remote.source == t.remote.source
    && s.client.canHalfClose == t.client.canHalfClose && s.remote.canHalfClose == t.remote.canHalfClose
  }

  /** In every interleaving, failures included: what arrives each way is an
      in-order prefix of what was sent, what is published of it lags by at most
      the chunk just written, and both ends are closed at return. */
  lemma RelayIsFaithful(client: seq<byte>, remote: seq<byte>, clientHalf: bool, remoteHalf: bool, events: seq<Event>)
    requires Possible(Initial(client, remote, clientHalf, remoteHalf), events)
    ensures var s := After(Initial(client, remote, clientHalf, remoteHalf), events);
            && s.remote.received <= client && s.client.received <= remote
            && s.fromClient.published + Unpublished(s, Client) == |s.remote.received|
            && s.fromRemote.published + Unpublished(s, Remote) == |s.client.received|
            && Unpublished(s, Client) <= BUFFER && Unpublished(s, Remote) <= BUFFER
            && (s.returned ==> s.client.closed && s.remote.closed)
  {
    RunIsSound(Initial(client, remote, clientHalf, remoteHalf), events);
    var s := After(Initial(client, remote, clientHalf, remoteHalf), events);
    PrefixFromFaithful(s, Client);
    PrefixFromFaithful(s, Remote);
  }

  lemma PrefixFromFaithful(s: Relay, side: Side)
    requires Faithful(s, side)
    ensures ConnOf(s, Other(side)).received <= ConnOf(s, side).source
  {
    var got, held, source := ConnOf(s, Other(side)).received, Held(s, side), ConnOf(s, side).source;
    assert (got + held)[..|got|] == got;
    assert source[..|got| + |held|][..|got|] == source[..|got|];
  }

  // ----------------------------------------------------- runs without a fault

  /** No write fails, and a read ends in EOF, or because this side closed it. */
  predicate Faultless(s: Relay, e: Event) {
    match e
    case Read(side, _, cause) => cause == None || cause == Some(EOF) || ConnOf(s, side).closed
    case Write(_, _, cause) => cause == None
    case _ => true
  }

  predicate AllFaultless(s: Relay, events: seq<Event>)
    requires Possible(s, events)
    decreases events
  {
    events == [] || (Faultless(s, events[0]) && AllFaultless(Next(s, events[0]), events[1..]))
  }

  /** Closing an end costs nothing its peer sends. */
  predicate Lossless(c: Conn) {
    c.canHalfClose || c.source == []
  }

  /** A direction that has ended delivered everything; an end closed early had
      nothing to send. */
  predicate Whole(s: Relay, side: Side) {
    var pc := CopyOf(s, side).pc;
    && Lossless(ConnOf(s, side)) && !pc.ClosingSource?
    && ((pc.Writing? || pc.Publishing?) && pc.after.Some? ==> pc.after == Some(EOF) && ConnOf(s, side).pos == |ConnOf(s, side).source|)
    && (pc.Publishing? && pc.after.Some? ==> ConnOf(s, Other(side)).received == ConnOf(s, side).source)
    && (pc.Ending? ==> pc.cause == EOF || pc.cause == Expected)
    && (pc.Ending? || pc.Finished? ==> ConnOf(s, Other(side)).received == ConnOf(s, side).source)
    && (ConnOf(s, side).closed && !s.returned ==> ConnOf(s, side).source == [])
  }

  lemma NextIsWhole(s: Relay, e: Event)
    requires Sound(s) && Whole(s, Client) && Whole(s, Remote) && Enabled(s, e) && Faultless(s, e)
    requires s.returned ==> s.fromClient.pc.Finished? && s.fromRemote.pc.Finished?
    ensures Whole(Next(s, e), Client) && Whole(Next(s, e), Remote)
  {
    match e
    case Read(side, n, cause) => ReadIsWhole(s, side, n, cause);
    case Write(side, n, cause) => WriteIsWhole(s, side, n, cause);
    case Publish(side) => PublishIsWhole(s, side);
    case Finish(side) => FinishIsWhole(s, side);
    case CloseSource(_) =>
    case Return =>
  }

  lemma PublishIsWhole(s: Relay, side: Side)
    requires Whole(s, Client) && Whole(s, Remote) && Enabled(s, Publish(side))
    ensures Whole(PublishNext(s, side), Client) && Whole(PublishNext(s, side), Remote)
  {}

  lemma FinishIsWhole(s: Relay, side: Side)
    requires Sound(s) && Whole(s, Client) && Whole(s, Remote) && Enabled(s, Finish(side)) && !s.returned
    ensures Whole(FinishNext(s, side), Client) && Whole(FinishNext(s, side), Remote)
  {}

  lemma ReadIsWhole(s: Relay, side: Side, n: nat, cause: Option<Cause>)
    requires Sound(s) && Whole(s, Client) && Whole(s, Remote) && Enabled(s, Read(side, n, cause)) && Faultless(s, Read(side, n, cause))
    requires !s.returned
    ensures Whole(ReadNext(s, side, n, cause), Client) && Whole(ReadNext(s, side, n, cause), Remote)
  {
    ReadKeepsOtherWhole(s, side, n, cause);
    ReadKeepsWhole(s, side, n, cause);
  }

  lemma ReadKeepsWhole(s: Relay, side: Side, n: nat, cause: Option<Cause>)
    requires Faithful(s, side) && Whole(s, side) && Enabled(s, Read(side, n, cause)) && Faultless(s, Read(side, n, cause))
    requires !s.returned
    ensures Whole(ReadNext(s, side, n, cause), side)
  {
    var c := ConnOf(s, side);
    assert c.source[..|c.source|] == c.source;
  }

  lemma ReadKeepsOtherWhole(s: Relay, side: Side, n: nat, cause: Option<Cause>)
    requires Whole(s, Other(side)) && Enabled(s, Read(side, n, cause))
    ensures Whole(ReadNext(s, side, n, cause), Other(side))
  {}

  lemma WriteIsWhole(s: Relay, side: Side, n: nat, cause: Option<Cause>)
    requires Sound(s) && Whole(s, Client) && Whole(s, Remote) && Enabled(s, Write(side, n, cause)) && cause == None
    ensures Whole(WriteNext(s, side, n, cause), Client) && Whole(WriteNext(s, side, n, cause), Remote)
  {
    var c, chunk := ConnOf(s, side), CopyOf(s, side).pc.chunk;
    assert chunk[..n] == chunk && c.source[..|c.source|] == c.source;
  }

  lemma {:induction false} RunIsWhole(s: Relay, events: seq<Event>)
    requires Sound(s) && Whole(s, Client) && Whole(s, Remote) && Possible(s, events) && AllFaultless(s, events)
    requires s.returned ==> s.fromClient.pc.Finished? && s.fromRemote.pc.Finished?
    ensures Whole(After(s, events), Client) && Whole(After(s, events), Remote)
    ensures After(s, events).returned ==> After(s, events).fromClient.pc.Finished? && After(s, events).fromRemote.pc.Finished?
    decreases events
  {
    if events != [] {
      NextIsSound(s, events[0]);
      NextIsWhole(s, events[0]);
      RunIsWhole(Next(s, events[0]), events[1..]);
    }
  }

  /** A run without a fault that returns delivered everything both ways. */
  predicate DeliversAll(start: Relay, events: seq<Event>) {
    Possible(start, events) && AllFaultless(start, events) && After(start, events).returned ==>
      && After(start, events).remote.received == start.client.source
      && After(start, events).client.received == start.remote.source
  }

  lemma LosslessDeliversAll(client: seq<byte>, remote: seq<byte>, clientHalf: bool, remoteHalf: bool, events: seq<Event>)
    requires (clientHalf || client == []) && (remoteHalf || remote == [])
    ensures DeliversAll(Initial(client, remote, clientHalf, remoteHalf), events)
  {
    var start := Initial(client, remote, clientHalf, remoteHalf);
    if Possible(start, events) && AllFaultless(start, events) {
      RunIsSound(start, events);
      RunIsWhole(start, events);
    }
  }

  // -------------------------------------------- why half-close is needed

  lemma {:induction false} RunOfConcat(s: Relay, a: seq<Event>, b: seq<Event>)
    requires Possible(s, a) && AllFaultless(s, a) && Possible(After(s, a), b) && AllFaultless(After(s, a), b)
    ensures Possible(s, a + b) && AllFaultless(s, a + b) && After(s, a + b) == After(After(s, a), b)
    decreases a
  {
    if a == [] {
      assert a + b == b;
    } else {
      assert (a + b)[0] == a[0] && (a + b)[1..] == a[1..] + b;
      RunOfConcat(Next(s, a[0]), a[1..], b);
    }
  }

  lemma OneEvent(s: Relay, e: Event)
    requires Enabled(s, e) && Faultless(s, e)
    ensures Possible(s, [e]) && AllFaultless(s, [e]) && After(s, [e]) == Next(s, e)
  {
    assert [e][1..] == [];
    assert Possible(Next(s, e), []) && After(Next(s, e), []) == Next(s, e);
  }

  lemma OneFirst(s: Relay, e: Event, more: seq<Event>) returns (events: seq<Event>)
    requires Enabled(s, e) && Faultless(s, e) && Possible(Next(s, e), more) && AllFaultless(Next(s, e), more)
    ensures Possible(s, events) && AllFaultless(s, events) && After(s, events) == After(Next(s, e), more)
  {
    events := [e] + more;
    assert events[1..] == more;
  }

  /** One direction running alone to its end. */
  lemma {:induction false} RunAlone(s: Relay, side: Side) returns (events: seq<Event>)
    requires CopyOf(s, side).pc.Reading? && !ConnOf(s, side).closed && ConnOf(s, side).pos <= |ConnOf(s, side).source|
    requires !ConnOf(s, Other(side)).closed && !ConnOf(s, Other(side)).writeClosed
    ensures Possible(s, events) && AllFaultless(s, events)
    ensures var end := After(s, events);
            && CopyOf(end, side).pc.Finished? && CopyOf(end, Other(side)) == CopyOf(s, Other(side)) && end.returned == s.returned
            && ConnOf(end, side).received == ConnOf(s, side).received
            && (!ConnOf(s, Other(side)).canHalfClose ==> ConnOf(end, Other(side)).closed)
    decreases |ConnOf(s, side).source| - ConnOf(s, side).pos
  {
    if ConnOf(s, side).pos == |ConnOf(s, side).source| {
      events := EndAlone(s, side);
    } else {
      var chunk := ChunkAlone(s, side);
      var more := RunAlone(After(s, chunk), side);
      RunOfConcat(s, chunk, more);
      events := chunk + more;
    }
  }

  /** Its last read and its end. */
  lemma EndAlone(s: Relay, side: Side) returns (events: seq<Event>)
    requires CopyOf(s, side).pc.Reading? && !ConnOf(s, side).closed && ConnOf(s, side).pos == |ConnOf(s, side).source|
    ensures Possible(s, events) && AllFaultless(s, events)
    ensures var end := After(s, events);
            && CopyOf(end, side).pc.Finished? && CopyOf(end, Other(side)) == CopyOf(s, Other(side)) && end.returned == s.returned
            && ConnOf(end, side).received == ConnOf(s, side).received
            && (!ConnOf(s, Other(side)).canHalfClose ==> ConnOf(end, Other(side)).closed)
  {
    var t := Next(s, Read(side, 0, Some(EOF)));
    OneEvent(t, Finish(side));
    events := OneFirst(s, Read(side, 0, Some(EOF)), [Finish(side)]);
  }

  /** One chunk read, written and published. */
  lemma ChunkAlone(s: Relay, side: Side) returns (events: seq<Event>)
    requires CopyOf(s, side).pc.Reading? && !ConnOf(s, side).closed && ConnOf(s, side).pos < |ConnOf(s, side).source|
    requires !ConnOf(s, Other(side)).closed && !ConnOf(s, Other(side)).writeClosed
    ensures Possible(s, events) && AllFaultless(s, events)
    ensures var t := After(s, events);
            && CopyOf(t, side).pc.Reading? && CopyOf(t, Other(side)) == CopyOf(s, Other(side)) && t.returned == s.returned
            && ConnOf(s, side).pos < ConnOf(t, side).pos <= |ConnOf(s, side).source|
            && ConnOf(t, side) == ConnOf(s, side).(pos := ConnOf(t, side).pos)
            && ConnOf(t, Other(side)) == ConnOf(s, Other(side)).(received := ConnOf(t, Other(side)).received)
  {
    var c := ConnOf(s, side);
    var n := if |c.source| - c.pos < BUFFER then |c.source| - c.pos else BUFFER;
    var t := Next(s, Read(side, n, None));
    var u := Next(t, Write(side, n, None));
    OneEvent(u, Publish(side));
    events := OneFirst(t, Write(side, n, None), [Publish(side)]);
    events := OneFirst(s, Read(side, n, None), events);
  }

  /** Without half-close the direction that ends first closes the other's source. */
  lemma ClosingEarlyLoses(client: seq<byte>, remote: seq<byte>, clientHalf: bool, remoteHalf: bool, side: Side) returns (events: seq<Event>)
    requires var c := ConnOf(Initial(client, remote, clientHalf, remoteHalf), Other(side)); !Lossless(c)
    ensures !DeliversAll(Initial(client, remote, clientHalf, remoteHalf), events)
  {
    var start := Initial(client, remote, clientHalf, remoteHalf);
    var other := Other(side);
    var first := RunAlone(start, side);
    var s := After(start, first);
    var rest := [Read(other, 0, Some(Expected)), Finish(other), Return];
    var t := Next(s, rest[0]);
    var u := Next(t, rest[1]);
    assert rest[1..] == [Finish(other), Return] && rest[1..][1..] == [Return];
    OneEvent(u, Return);
    assert Possible(t, rest[1..]) && AllFaultless(t, rest[1..]) && After(t, rest[1..]) == Next(u, Return);
    RunOfConcat(start, first, rest);
    events := first + rest;
    RunIsSound(start, events);
  }

  /** Every run without a fault delivers everything both ways, whichever side
      ends first, exactly when each end can be half-closed or sends nothing. */
  lemma HalfCloseDeliversAll(client: seq<byte>, remote: seq<byte>, clientHalf: bool, remoteHalf: bool)
    ensures (forall events :: DeliversAll(Initial(client, remote, clientHalf, remoteHalf), events)) <==>
              (clientHalf || client == []) && (remoteHalf || remote == [])
  {
    var start := Initial(client, remote, clientHalf, remoteHalf);
    if (clientHalf || client == []) && (remoteHalf || remote == []) {
      forall events
        ensures DeliversAll(start, events)
      {
        LosslessDeliversAll(client, remote, clientHalf, remoteHalf, events);
      }
    } else {
      var side := if Lossless(start.client) then Client else Remote;
      var events := ClosingEarlyLoses(client, remote, clientHalf, remoteHalf, side);
      assert !DeliversAll(start, events);
    }
  }
}
