/** The SOCKS5 handshake (sections 3 to 6 of RFC 1928) over a connection whose
    bytes arrive in any chunks. */
module Socks5 {
  import opened Text
  import opened Bytes

  const VERSION: byte := 0x05
  const NO_AUTH: byte := 0x00
  const NO_ACCEPTABLE: byte := 0xFF
  const CONNECT: byte := 0x01
  const IPV4: byte := 0x01
  const DOMAIN: byte := 0x03
  const IPV6: byte := 0x04

  const FAILURE: byte := 0x01
  const COMMAND_NOT_SUPPORTED: byte := 0x07
  const ADDRESS_NOT_SUPPORTED: byte := 0x08

  function Flatten(chunks: seq<seq<byte>>): seq<byte> {
    if chunks == [] then [] else chunks[0] + Flatten(chunks[1..])
  }

  /** A client connection: the chunks still to arrive before its stream ends, and
      the bytes written to it. */
  class Conn {
    var arriving: seq<seq<byte>>
    var written: seq<byte>
    const writable: bool

    constructor (chunks: seq<seq<byte>>, writable: bool)
      ensures arriving == chunks && written == [] && this.writable == writable
    {
      arriving := chunks;
      written := [];
      this.writable := writable;
    }

    ghost function Pending(): seq<byte>
      reads this
    {
      Flatten(arriving)
    }

    /** Read: at most max bytes of what has arrived; ok is false at the end. */
    method Read(max: nat) returns (got: seq<byte>, ok: bool)
      modifies this`arriving
      ensures |got| <= max && got + Pending() == old(Pending())
      ensures !ok ==> got == [] && old(Pending()) == []
      ensures ok && max > 0 ==> |arriving| < old(|arriving|) || (|arriving| == old(|arriving|) && |got| > 0)
    {
      if arriving == [] {
        return [], false;
      }
      var chunk := arriving[0];
      if |chunk| <= max {
        arriving := arriving[1..];
        return chunk, true;
      }
      assert chunk == chunk[..max] + chunk[max..];
      arriving := [chunk[max..]] + arriving[1..];
      return chunk[..max], true;
    }

    /** io.ReadFull. */
    method ReadFull(n: nat) returns (got: seq<byte>, ok: bool)
      modifies this`arriving
      ensures ok <==> |old(Pending())| >= n
      ensures ok ==> got == old(Pending())[..n] && Pending() == old(Pending())[n..]
      ensures !ok ==> Pending() == []
    {
      got := [];
      while |got| < n
        invariant |got| <= n && got + Pending() == old(Pending())
        decreases |arriving|, n - |got|
      {
        var more, open := Read(n - |got|);
        if !open {
          return got, false;
        }
        got := got + more;
      }
      return got, true;
    }

    method Write(b: seq<byte>) returns (ok: bool)
      modifies this`written
      ensures ok == writable && written == old(written) + (if writable then b else [])
    {
      if writable {
        written := written + b;
      }
      ok := writable;
    }
  }

  // ------------------------------------------------------------- the messages

  datatype Greeting = Offered | NotOffered | BadVersion | CutShort

  /** What the first bytes of a stream greet, and what follows the greeting. */
  function ReadGreeting(b: seq<byte>): (Greeting, seq<byte>) {
    if |b| < 2 then (CutShort, [])
    else if b[0] != VERSION then (BadVersion, b[2..])
    else if |b| < 2 + b[1] as nat then (CutShort, [])
    else
      var n := b[1] as nat;
      (if NO_AUTH in b[2..2 + n] then Offered else NotOffered, b[2 + n..])
  }

  datatype Request = Target(kind: byte, host: seq<byte>, port: u16) | Unsupported(reply: byte) | Incomplete

  function AddressLength(kind: byte): nat {
    if kind == IPV4 then 4 else 16
  }

  function PortOf(hi: byte, lo: byte): u16 {
    hi as int * 0x100 + lo as int
  }

  /** The address of n bytes and the port at the front of b. */
  function ReadHost(b: seq<byte>, kind: byte, n: nat): (Request, seq<byte>) {
    if |b| < n + 2 then (Incomplete, []) else (Target(kind, b[..n], PortOf(b[n], b[n + 1])), b[n + 2..])
  }

  function ReadRequest(b: seq<byte>): (Request, seq<byte>) {
    if |b| < 4 then (Incomplete, [])
    else if b[0] != VERSION then (Unsupported(FAILURE), b[4..])
    else if b[1] != CONNECT then (Unsupported(COMMAND_NOT_SUPPORTED), b[4..])
    else if b[3] != IPV4 && b[3] != DOMAIN && b[3] != IPV6 then (Unsupported(ADDRESS_NOT_SUPPORTED), b[4..])
    else if b[3] != DOMAIN then ReadHost(b[4..], b[3], AddressLength(b[3]))
    else if |b| < 5 then (Incomplete, [])
    else ReadHost(b[5..], DOMAIN, b[4] as nat)
  }

  /** What a client that offers the methods sends. */
  function GreetingBytes(methods: seq<byte>): seq<byte>
    requires |methods| <= 255
  {
    [VERSION, |methods| as byte] + methods
  }

  predicate IsHost(kind: byte, host: seq<byte>) {
    (kind == IPV4 && |host| == 4) || (kind == IPV6 && |host| == 16) || (kind == DOMAIN && |host| <= 255)
  }

  /** What a client that asks for host and port sends. reserved: any value. */
  function RequestBytes(kind: byte, host: seq<byte>, port: u16, reserved: byte): seq<byte>
    requires IsHost(kind, host)
  {
    [VERSION, CONNECT, reserved, kind] + (if kind == DOMAIN then [|host| as byte] else []) + host
    + [(port / 0x100) as byte, (port % 0x100) as byte]
  }

  /** writeSOCKS5Reply. */
  function ReplyBytes(reply: byte): seq<byte> {
    [VERSION, reply, 0x00, 0x01, 0x00, 0x00, 0x00, 0x00, 0x00, 0x00]
  }

  // ----------------------------------------------------------------- the server

  /** negotiateSOCKS5. */
  method Negotiate(conn: Conn) returns (ok: bool, greeting: Greeting)
    modifies conn
    ensures (greeting, conn.Pending()) == ReadGreeting(old(conn.Pending()))
    ensures ok <==> greeting.Offered? && conn.writable
    ensures conn.writable && greeting.Offered? ==> conn.written == old(conn.written) + [0x05, 0x00]
    ensures conn.writable && greeting.NotOffered? ==> conn.written == old(conn.written) + [0x05, 0xFF]
    ensures !conn.writable || greeting.BadVersion? || greeting.CutShort? ==> conn.written == old(conn.written)
  {
    var header, full := conn.ReadFull(2);
    if !full {
      return false, CutShort;
    }
    if header[0] != VERSION {
      return false, BadVersion;
    }
    ghost var before := conn.Pending();
    var methods;
    methods, full := conn.ReadFull(header[1] as nat);
    if !full {
      return false, CutShort;
    }
    MethodsOf(old(conn.Pending()), header, before);
    for i := 0 to |methods|
      invariant NO_AUTH !in methods[..i]
      invariant conn.written == old(conn.written) && conn.Pending() == before[header[1] as nat..]
    {
      if methods[i] == NO_AUTH {
        ok := conn.Write([VERSION, NO_AUTH]);
        return ok, Offered;
      }
    }
    assert methods[..|methods|] == methods;
    var _ := conn.Write([VERSION, NO_ACCEPTABLE]);
    return false, NotOffered;
  }

  lemma MethodsOf(b: seq<byte>, header: seq<byte>, rest: seq<byte>)
    requires |b| >= 2 && header == b[..2] && rest == b[2..] && |rest| >= b[1] as nat
    ensures b[2..2 + b[1] as nat] == rest[..b[1] as nat] && b[2 + b[1] as nat..] == rest[b[1] as nat..]
  {}

  /** readSOCKS5Connect and readSOCKS5Address. */
  method ReadConnect(conn: Conn) returns (request: Request)
    modifies conn`arriving
    ensures (request, conn.Pending()) == ReadRequest(old(conn.Pending()))
  {
    var header, full := conn.ReadFull(4);
    if !full {
      return Incomplete;
    }
    if header[0] != VERSION {
      return Unsupported(FAILURE);
    }
    if header[1] != CONNECT {
      return Unsupported(COMMAND_NOT_SUPPORTED);
    }
    if header[3] != IPV4 && header[3] != DOMAIN && header[3] != IPV6 {
      return Unsupported(ADDRESS_NOT_SUPPORTED);
    }
    var length := AddressLength(header[3]);
    if header[3] == DOMAIN {
      ghost var b := conn.Pending();
      var size;
      size, full := conn.ReadFull(1);
      if !full {
        return Incomplete;
      }
      assert old(conn.Pending())[4..] == b && b[1..] == old(conn.Pending())[5..];
      length := size[0] as nat;
    }
    ghost var b := conn.Pending();
    var address;
    address, full := conn.ReadFull(length + 2);
    if !full {
      return Incomplete;
    }
    assert address[..length] == b[..length];
    return Target(header[3], address[..|address| - 2], PortOf(address[|address| - 2], address[|address| - 1]));
  }

  datatype Handshake = Rejected | Connecting(kind: byte, host: seq<byte>, port: u16)

  /** handleSOCKS5Conn, up to the resolution of its target. */
  method Handle(conn: Conn) returns (h: Handshake)
    modifies conn
    ensures h.Connecting? ==> conn.written == old(conn.written) + [0x05, 0x00]
    ensures var (greeting, rest) := ReadGreeting(old(conn.Pending()));
            var (request, left) := ReadRequest(rest);
            if greeting.Offered? && conn.writable then
              match request
              case Target(kind, host, port) => h == Connecting(kind, host, port) && conn.Pending() == left
              case Unsupported(reply) => h == Rejected && conn.written == old(conn.written) + [0x05, 0x00] + [0x05, reply, 0, 1, 0, 0, 0, 0, 0, 0]
              case Incomplete => h == Rejected && conn.written == old(conn.written) + [0x05, 0x00] + [0x05, 0x01, 0, 1, 0, 0, 0, 0, 0, 0]
            else h == Rejected && conn.written == old(conn.written) + (if greeting.NotOffered? && conn.writable then [0x05, 0xFF] else [])
  {
    var ok, _ := Negotiate(conn);
    if !ok {
      return Rejected;
    }
    var request := ReadConnect(conn);
    match request
    case Target(kind, host, port) => return Connecting(kind, host, port);
    case Unsupported(reply) =>
      var _ := conn.Write(ReplyBytes(reply));
      return Rejected;
    case Incomplete =>
      var _ := conn.Write(ReplyBytes(FAILURE));
      return Rejected;
  }

  // ------------------------------------------------------------- round trips

  lemma GreetingRoundTrip(methods: seq<byte>, rest: seq<byte>)
    requires |methods| <= 255
    ensures ReadGreeting(GreetingBytes(methods) + rest) == (if NO_AUTH in methods then Offered else NotOffered, rest)
  {
    var b := GreetingBytes(methods) + rest;
    assert b[2..2 + |methods|] == methods && b[2 + |methods|..] == rest;
  }

  /** What greets the server, byte by byte. */
  lemma GreetingMeans(b: seq<byte>)
    ensures ReadGreeting(b).0.BadVersion? <==> |b| >= 2 && b[0] != 0x05
    ensures ReadGreeting(b).0.CutShort? <==> |b| < 2 || (b[0] == 0x05 && |b| < 2 + b[1] as int)
    ensures ReadGreeting(b).0.Offered? <==>
              |b| >= 2 && b[0] == 0x05 && |b| >= 2 + b[1] as int && exists i :: 2 <= i < 2 + b[1] as int && b[i] == 0x00
  {
    if |b| >= 2 && |b| >= 2 + b[1] as int {
      var methods := b[2..2 + b[1] as int];
      assert forall i | 0 <= i < |methods| :: methods[i] == b[i + 2];
      if NO_AUTH in methods {
        var j :| 0 <= j < |methods| && methods[j] == NO_AUTH;
        assert b[j + 2] == 0x00;
      }
      if i :| 2 <= i < 2 + b[1] as int && b[i] == 0x00 {
        assert methods[i - 2] == NO_AUTH;
      }
    }
  }

  /** What a request that is no CONNECT to a known kind of address is answered:
      a general failure, an unsupported command, or an unsupported address. */
  lemma RefusalsByByte(b: seq<byte>, reply: byte)
    ensures ReadRequest(b).0 == Unsupported(reply) <==>
              && |b| >= 4
              && (|| (b[0] != 0x05 && reply == 0x01)
                  || (b[0] == 0x05 && b[1] != 0x01 && reply == 0x07)
                  || (b[0] == 0x05 && b[1] == 0x01 && b[3] != 0x01 && b[3] != 0x03 && b[3] != 0x04 && reply == 0x08))
  {}

  /** How many bytes a request of each kind of address has at least. */
  lemma IncompleteExactly(b: seq<byte>)
    ensures ReadRequest(b).0.Incomplete? <==>
              || |b| < 4
              || (&& b[0] == 0x05 && b[1] == 0x01
                  && (|| (b[3] == 0x01 && |b| < 10) || (b[3] == 0x04 && |b| < 22)
                      || (b[3] == 0x03 && (|b| < 5 || |b| < 7 + b[4] as int))))
  {}

  /** Where the host and the port of a request stand: after its kind, a name after
      its length, and the port in network order. */
  lemma TargetByByte(b: seq<byte>)
    requires ReadRequest(b).0.Target?
    ensures var (t, rest) := ReadRequest(b);
            var start := if b[3] == 0x03 then 5 else 4;
            var end := if b[3] == 0x01 then 8 else if b[3] == 0x04 then 20 else 5 + b[4] as int;
            && t.kind == b[3] && |b| >= end + 2
            && t.host == b[start..end] && t.port as int == 256 * b[end] as int + b[end + 1] as int && rest == b[end + 2..]
  {}

  lemma PortRoundTrip(port: u16)
    ensures PortOf((port / 0x100) as byte, (port % 0x100) as byte) == port
  {}

  /** A request is read exactly where one was encoded: host bytes, big-endian
      port, and every byte after it left unread. */
  lemma RequestRoundTrip(b: seq<byte>, kind: byte, host: seq<byte>, port: u16, rest: seq<byte>)
    ensures ReadRequest(b) == (Target(kind, host, port), rest) <==>
              IsHost(kind, host) && exists reserved :: b == RequestBytes(kind, host, port, reserved) + rest
  {
    PortRoundTrip(port);
    if ReadRequest(b) == (Target(kind, host, port), rest) {
      ReadIsEncoded(b, kind, host, port, rest);
    }
    if IsHost(kind, host) {
      forall reserved | b == RequestBytes(kind, host, port, reserved) + rest
        ensures ReadRequest(b) == (Target(kind, host, port), rest)
      {
        EncodedIsRead(kind, host, port, reserved, rest);
      }
    }
  }

  lemma EncodedIsRead(kind: byte, host: seq<byte>, port: u16, reserved: byte, rest: seq<byte>)
    requires IsHost(kind, host)
    ensures ReadRequest(RequestBytes(kind, host, port, reserved) + rest) == (Target(kind, host, port), rest)
  {
    var b := RequestBytes(kind, host, port, reserved) + rest;
    var ports := [(port / 0x100) as byte, (port % 0x100) as byte];
    PortRoundTrip(port);
    if kind == DOMAIN {
      assert b[5..] == host + ports + rest;
    } else {
      assert b[4..] == host + ports + rest;
    }
    HostIsRead(host, ports, rest, kind);
  }

  lemma HostIsRead(host: seq<byte>, ports: seq<byte>, rest: seq<byte>, kind: byte)
    requires |ports| == 2
    ensures ReadHost(host + ports + rest, kind, |host|) == (Target(kind, host, PortOf(ports[0], ports[1])), rest)
  {
    var b := host + ports + rest;
    assert b[..|host|] == host && b[|host| + 2..] == rest;
  }

  lemma ReadIsEncoded(b: seq<byte>, kind: byte, host: seq<byte>, port: u16, rest: seq<byte>)
    requires ReadRequest(b) == (Target(kind, host, port), rest)
    ensures IsHost(kind, host) && b == RequestBytes(kind, host, port, b[2]) + rest
  {
    assert b == [b[0], b[1], b[2], b[3]] + b[4..];
    if kind == DOMAIN {
      HostIsWhole(b[5..], kind, |host|);
      assert b[4..] == [b[4]] + b[5..];
      DomainIsEncoded(b, host, port, rest);
    } else {
      HostIsWhole(b[4..], kind, |host|);
      AddressIsEncoded(b, kind, host, port, rest);
    }
  }

  lemma AddressIsEncoded(b: seq<byte>, kind: byte, host: seq<byte>, port: u16, rest: seq<byte>)
    requires |b| >= 4 && kind != DOMAIN && IsHost(kind, host)
    requires b == [VERSION, CONNECT, b[2], kind] + b[4..]
    requires b[4..] == host + [(port / 0x100) as byte, (port % 0x100) as byte] + rest
    ensures b == RequestBytes(kind, host, port, b[2]) + rest
  {}

  lemma DomainIsEncoded(b: seq<byte>, host: seq<byte>, port: u16, rest: seq<byte>)
    requires |b| >= 5 && |host| == b[4] as nat && b[4..] == [b[4]] + b[5..]
    requires b == [VERSION, CONNECT, b[2], DOMAIN] + b[4..]
    requires b[5..] == host + [(port / 0x100) as byte, (port % 0x100) as byte] + rest
    ensures b == RequestBytes(DOMAIN, host, port, b[2]) + rest
  {}

  lemma HostIsWhole(b: seq<byte>, kind: byte, n: nat)
    requires ReadHost(b, kind, n).0.Target?
    ensures var (t, rest) := ReadHost(b, kind, n);
            |t.host| == n && b == t.host + [(t.port / 0x100) as byte, (t.port % 0x100) as byte] + rest
  {
    assert b == b[..n] + [b[n], b[n + 1]] + b[n + 2..];
  }

  /** Whatever chunks they arrive in, a greeting that offers no authentication, a
      CONNECT request and a payload: the server answers the greeting, gets the
      host bytes and the port, and leaves exactly the payload. */
  method ServeEncoded(conn: Conn, methods: seq<byte>, kind: byte, host: seq<byte>, port: u16, reserved: byte, payload: seq<byte>)
    returns (h: Handshake)
    requires |methods| <= 255 && NO_AUTH in methods && IsHost(kind, host) && conn.writable
    requires conn.Pending() == GreetingBytes(methods) + (RequestBytes(kind, host, port, reserved) + payload)
    modifies conn
    ensures h == Connecting(kind, host, port) && conn.Pending() == payload
    ensures conn.written == old(conn.written) + [0x05, 0x00]
  {
    GreetingRoundTrip(methods, RequestBytes(kind, host, port, reserved) + payload);
    EncodedIsRead(kind, host, port, reserved, payload);
    h := Handle(conn);
  }
}
