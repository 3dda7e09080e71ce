/** Any number of relays at once, and the two byte counters they share. */
module Traffic {
  import opened Bytes
  import opened Relay

  /** rx counts what clients send, tx what remotes send, as copyDirection names
      its directions. */
  datatype Traffic = Traffic(relays: seq<Relay>, rx: nat, tx: nat)

  datatype Step =
    | Open(client: seq<byte>, remote: seq<byte>, clientHalf: bool, remoteHalf: bool)
    | At(relay: nat, event: Event)

  predicate Allowed(t: Traffic, s: Step) {
    match s
    case Open(_, _, _, _) => true
    case At(i, e) => i < |t.relays| && Enabled(t.relays[i], e)
  }

  /** One step of one relay; a publish is one atomic add to a shared counter. */
  function Taken(t: Traffic, s: Step): Traffic
    requires Allowed(t, s)
  {
    match s
    case Open(client, remote, clientHalf, remoteHalf) =>
      t.(relays := t.relays + [Initial(client, remote, clientHalf, remoteHalf)])
    case At(i, e) =>
      var relays := t.relays[i := Next(t.relays[i], e)];
      if !e.Publish? then t.(relays := relays)
      else
        var n := CopyOf(t.relays[i], e.side).pc.n;
        if e.side == Client then Traffic(relays, t.rx + n, t.tx) else Traffic(relays, t.rx, t.tx + n)
  }

  predicate AllAllowed(t: Traffic, steps: seq<Step>)
    decreases steps
  {
    steps == [] || (Allowed(t, steps[0]) && AllAllowed(Taken(t, steps[0]), steps[1..]))
  }

  function AfterAll(t: Traffic, steps: seq<Step>): Traffic
    requires AllAllowed(t, steps)
    decreases steps
  {
    if steps == [] then t else AfterAll(Taken(t, steps[0]), steps[1..])
  }

  const QUIET := Traffic([], 0, 0)

  // ------------------------------------------------------------------- the sums

  /** The bytes the relays have published of the direction that reads side. */
  function Published(relays: seq<Relay>, side: Side): nat {
    if relays == [] then 0 else CopyOf(relays[0], side).published + Published(relays[1..], side)
  }

  /** The bytes they have written. */
  function Written(relays: seq<Relay>, side: Side): nat {
    if relays == [] then 0 else |ConnOf(relays[0], Other(side)).received| + Written(relays[1..], side)
  }

  /** The bytes between a write and its publish. */
  function Pending(relays: seq<Relay>, side: Side): nat {
    if relays == [] then 0 else Unpublished(relays[0], side) + Pending(relays[1..], side)
  }

  lemma {:induction false} PublishedOfUpdate(relays: seq<Relay>, i: nat, r: Relay, side: Side)
    requires i < |relays|
    ensures Published(relays[i := r], side) == Published(relays, side) - CopyOf(relays[i], side).published + CopyOf(r, side).published
  {
    if i == 0 {
      assert relays[i := r][1..] == relays[1..];
    } else {
      assert relays[i := r][1..] == relays[1..][i - 1 := r];
      PublishedOfUpdate(relays[1..], i - 1, r, side);
    }
  }

  lemma {:induction false} PublishedOfOpened(relays: seq<Relay>, r: Relay, side: Side)
    ensures Published(relays + [r], side) == Published(relays, side) + CopyOf(r, side).published
  {
    if relays == [] {
      assert (relays + [r])[1..] == [];
    } else {
      assert (relays + [r])[1..] == relays[1..] + [r];
      PublishedOfOpened(relays[1..], r, side);
    }
  }

  // -------------------------------------------------------------- what is kept

  predicate Counted(t: Traffic) {
    && (forall i | 0 <= i < |t.relays| :: Sound(t.relays[i]) && Settled(t.relays[i]))
    && t.rx == Published(t.relays, Client) && t.tx == Published(t.relays, Remote)
  }

  /** A relay that has returned has nothing left to publish. */
  predicate Settled(r: Relay) {
    r.returned ==> r.fromClient.pc.Finished? && r.fromRemote.pc.Finished?
  }

  lemma PublishedByEvent(r: Relay, e: Event, side: Side)
    requires Enabled(r, e)
    ensures CopyOf(Next(r, e), side).published
         == CopyOf(r, side).published + (if e == Publish(side) then CopyOf(r, side).pc.n else 0)
  {}

  lemma EventKeepsSettled(r: Relay, e: Event)
    requires Enabled(r, e) && Settled(r)
    ensures Settled(Next(r, e))
  {}

  lemma TakenIsCounted(t: Traffic, s: Step)
    requires Counted(t) && Allowed(t, s)
    ensures Counted(Taken(t, s))
  {
    match s
    case Open(client, remote, clientHalf, remoteHalf) =>
      OpenedIsCounted(t, Initial(client, remote, clientHalf, remoteHalf));
    case At(i, e) =>
      MovedIsCounted(t, i, e);
  }

  lemma OpenedIsCounted(t: Traffic, r: Relay)
    requires Counted(t) && Sound(r) && Settled(r) && CopyOf(r, Client).published == CopyOf(r, Remote).published == 0
    ensures Counted(t.(relays := t.relays + [r]))
  {
    PublishedOfOpened(t.relays, r, Client);
    PublishedOfOpened(t.relays, r, Remote);
  }

  lemma MovedIsCounted(t: Traffic, i: nat, e: Event)
    requires Counted(t) && Allowed(t, At(i, e))
    ensures Counted(Taken(t, At(i, e)))
  {
    var r := Next(t.relays[i], e);
    NextIsSound(t.relays[i], e);
    EventKeepsSettled(t.relays[i], e);
    PublishedOfUpdate(t.relays, i, r, Client);
    PublishedOfUpdate(t.relays, i, r, Remote);
    PublishedByEvent(t.relays[i], e, Client);
    PublishedByEvent(t.relays[i], e, Remote);
  }

  lemma {:induction false} AllIsCounted(t: Traffic, steps: seq<Step>)
    requires Counted(t) && AllAllowed(t, steps)
    ensures Counted(AfterAll(t, steps))
    decreases steps
  {
    if steps != [] {
      TakenIsCounted(t, steps[0]);
      AllIsCounted(Taken(t, steps[0]), steps[1..]);
    }
  }

  lemma {:induction false} WrittenIsPublishedOrPending(relays: seq<Relay>, side: Side)
    requires forall i | 0 <= i < |relays| :: Sound(relays[i])
    ensures Written(relays, side) == Published(relays, side) + Pending(relays, side)
  {
    if relays != [] {
      assert Faithful(relays[0], side);
      WrittenIsPublishedOrPending(relays[1..], side);
    }
  }

  lemma {:induction false} NothingPending(relays: seq<Relay>, side: Side)
    requires forall i | 0 <= i < |relays| :: Settled(relays[i]) && relays[i].returned
    ensures Pending(relays, side) == 0
  {
    if relays != [] {
      assert Settled(relays[0]);
      NothingPending(relays[1..], side);
    }
  }

  /** In every interleaving of any number of relays, each shared counter is what
      the relays have published, falls short of what they have written by exactly
      the chunks written and not yet published, and equals it once every relay
      has returned. */
  lemma CountersAreExact(steps: seq<Step>)
    requires AllAllowed(QUIET, steps)
    ensures var t := AfterAll(QUIET, steps);
            && t.rx == Published(t.relays, Client) && t.tx == Published(t.relays, Remote)
            && t.rx + Pending(t.relays, Client) == Written(t.relays, Client)
            && t.tx + Pending(t.relays, Remote) == Written(t.relays, Remote)
            && ((forall i | 0 <= i < |t.relays| :: t.relays[i].returned) ==>
                  t.rx == Written(t.relays, Client) && t.tx == Written(t.relays, Remote))
  {
    AllIsCounted(QUIET, steps);
    var t := AfterAll(QUIET, steps);
    WrittenIsPublishedOrPending(t.relays, Client);
    WrittenIsPublishedOrPending(t.relays, Remote);
    if forall i | 0 <= i < |t.relays| :: t.relays[i].returned {
      NothingPending(t.relays, Client);
      NothingPending(t.relays, Remote);
    }
  }
}
