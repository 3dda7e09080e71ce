/** The connection slots every accept loop shares: one counter, moved by the
    atomic loads, compare-and-swaps and adds of many threads. */
module Slots {

  /** An accept loop between two atomic operations. Claimed: the slot is taken and
      the handler not yet spawned. */
  datatype Loop = Accepting | Trying | Loaded(seen: int) | Claimed

  /** active is the counter; handlers, the connections handlers are serving. */
  datatype System = System(active: int, handlers: nat, loops: seq<Loop>, rejected: nat)

  datatype Event =
    | Accept(loop: nat)
    | Load(loop: nat)
    | Swap(loop: nat)
    | Spawn(loop: nat)
    | Release

  predicate Enabled(s: System, e: Event) {
    match e
    case Accept(i) => i < |s.loops| && s.loops[i].Accepting?
    case Load(i) => i < |s.loops| && s.loops[i].Trying?
    case Swap(i) => i < |s.loops| && s.loops[i].Loaded?
    case Spawn(i) => i < |s.loops| && s.loops[i].Claimed?
    case Release => s.handlers > 0
  }

  /** TryClaimConnection step by step, the handler's spawn, and the release it
      defers. */
  function Next(max: nat, s: System, e: Event): System
    requires Enabled(s, e)
  {
    match e
    case Accept(i) => s.(loops := s.loops[i := Trying])
    case Load(i) =>
      if s.active >= max then s.(loops := s.loops[i := Accepting], rejected := s.rejected + 1)
      else s.(loops := s.loops[i := Loaded(s.active)])
    case Swap(i) =>
      if s.active == s.loops[i].seen then s.(active := s.active + 1, loops := s.loops[i := Claimed])
      else s.(loops := s.loops[i := Trying])
    case Spawn(i) => s.(loops := s.loops[i := Accepting], handlers := s.handlers + 1)
    case Release => s.(active := s.active - 1, handlers := s.handlers - 1)
  }

  predicate Possible(max: nat, s: System, events: seq<Event>)
    decreases events
  {
    events == [] || (Enabled(s, events[0]) && Possible(max, Next(max, s, events[0]), events[1..]))
  }

  function After(max: nat, s: System, events: seq<Event>): System
    requires Possible(max, s, events)
    decreases events
  {
    if events == [] then s else After(max, Next(max, s, events[0]), events[1..])
  }

  /** The slots taken whose handler is not spawned yet. */
  function ClaimedIn(loops: seq<Loop>): nat {
    if loops == [] then 0 else (if loops[0].Claimed? then 1 else 0) + ClaimedIn(loops[1..])
  }

  /** The slots claimed and not released. */
  function Taken(s: System): nat {
    ClaimedIn(s.loops) + s.handlers
  }

  predicate Accurate(max: nat, s: System) {
    && s.active == Taken(s) && s.active <= max
    && forall i | 0 <= i < |s.loops| && s.loops[i].Loaded? :: 0 <= s.loops[i].seen < max
  }

  lemma {:induction false} ClaimedOfUpdate(loops: seq<Loop>, i: nat, l: Loop)
    requires i < |loops|
    ensures ClaimedIn(loops[i := l])
         == ClaimedIn(loops) - (if loops[i].Claimed? then 1 else 0) + (if l.Claimed? then 1 else 0)
  {
    if i == 0 {
      assert loops[i := l][1..] == loops[1..];
    } else {
      assert loops[i := l][1..] == loops[1..][i - 1 := l];
      ClaimedOfUpdate(loops[1..], i - 1, l);
    }
  }

  lemma NextIsAccurate(max: nat, s: System, e: Event)
    requires Accurate(max, s) && Enabled(s, e)
    ensures Accurate(max, Next(max, s, e))
  {
    if !e.Release? {
      ClaimedOfUpdate(s.loops, e.loop, Next(max, s, e).loops[e.loop]);
    }
  }

  function Initial(n: nat): System {
    System(0, 0, seq(n, _ => Accepting), 0)
  }

  lemma {:induction false} NoneClaimed(n: nat)
    ensures ClaimedIn(seq(n, _ => Accepting)) == 0
  {
    if n > 0 {
      NoneClaimed(n - 1);
      assert seq(n, _ => Accepting)[1..] == seq(n - 1, _ => Accepting);
    }
  }

  lemma {:induction false} RunIsAccurate(max: nat, s: System, events: seq<Event>)
    requires Accurate(max, s) && Possible(max, s, events)
    ensures Accurate(max, After(max, s, events))
    decreases events
  {
    if events != [] {
      NextIsAccurate(max, s, events[0]);
      RunIsAccurate(max, Next(max, s, events[0]), events[1..]);
    }
  }

  /** In every interleaving of any number of accept loops and handlers, the
      counter is the number of slots claimed and not released, within 0..max. */
  lemma SlotsAreCounted(max: nat, n: nat, events: seq<Event>)
    requires Possible(max, Initial(n), events)
    ensures var s := After(max, Initial(n), events);
            s.active == Taken(s) && 0 <= s.active <= max
  {
    NoneClaimed(n);
    RunIsAccurate(max, Initial(n), events);
  }

  lemma FirstThenRest(max: nat, s: System, e: Event, rest: seq<Event>)
    requires Enabled(s, e) && Possible(max, Next(max, s, e), rest)
    ensures Possible(max, s, [e] + rest) && After(max, s, [e] + rest) == After(max, Next(max, s, e), rest)
  {
    assert ([e] + rest)[1..] == rest;
  }

  /** Left alone, a loop that accepts a connection serves it on a slot of its own
      while one is free, and turns it away exactly when none is. */
  lemma UncontendedClaim(max: nat, s: System, i: nat)
    requires i < |s.loops| && s.loops[i].Accepting?
    ensures var events := [Accept(i)] + if s.active < max then [Load(i)] + ([Swap(i)] + ([Spawn(i)] + [])) else [Load(i)] + [];
            && Possible(max, s, events)
            && After(max, s, events)
               == if s.active < max then s.(active := s.active + 1, handlers := s.handlers + 1) else s.(rejected := s.rejected + 1)
  {
    var tried := Next(max, s, Accept(i));
    var loaded := Next(max, tried, Load(i));
    if s.active < max {
      var claimed := Next(max, loaded, Swap(i));
      assert claimed.loops[i := Accepting] == s.loops;
      FirstThenRest(max, claimed, Spawn(i), []);
      FirstThenRest(max, loaded, Swap(i), [Spawn(i)] + []);
      FirstThenRest(max, tried, Load(i), [Swap(i)] + ([Spawn(i)] + []));
      FirstThenRest(max, s, Accept(i), [Load(i)] + ([Swap(i)] + ([Spawn(i)] + [])));
    } else {
      assert loaded.loops == s.loops;
      FirstThenRest(max, tried, Load(i), []);
      FirstThenRest(max, s, Accept(i), [Load(i)] + []);
    }
  }

  /** The event moves the counter: another loop's successful swap, or a release. */
  predicate Moves(s: System, e: Event)
    requires Enabled(s, e)
  {
    e.Release? || (e.Swap? && s.active == s.loops[e.loop].seen)
  }

  predicate ByAnother(events: seq<Event>, loop: nat) {
    forall e | e in events :: e.Release? || e.loop != loop
  }

  /** A swap is lost only to a thread that moved the counter since the load. */
  lemma {:induction false} LostSwapWasOvertaken(max: nat, s: System, events: seq<Event>, loop: nat) returns (k: nat)
    requires Possible(max, s, events) && ByAnother(events, loop)
    requires loop < |s.loops| && s.loops[loop] == Loaded(s.active)
    requires After(max, s, events).active != s.active
    ensures k < |events| && Possible(max, s, events[..k])
    ensures Enabled(After(max, s, events[..k]), events[k]) && Moves(After(max, s, events[..k]), events[k])
    ensures loop < |After(max, s, events[..k]).loops| && After(max, s, events[..k]).loops[loop] == Loaded(s.active)
    decreases events
  {
    assert events[0] in events && forall e | e in events[1..] :: e in events;
    if Moves(s, events[0]) {
      k := 0;
      assert events[..0] == [];
    } else {
      var j := LostSwapWasOvertaken(max, Next(max, s, events[0]), events[1..], loop);
      k := j + 1;
      assert events[..k][1..] == events[1..][..j];
    }
  }
}
