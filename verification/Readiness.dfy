/** Readiness folded from the reports of several sources, and the watch over the
    control session. */
module Readiness {
  import opened Text
  import opened NameOrder

  const CONTROL := "control"
  const BOOTSTRAP := "bootstrap"
  const CONTROL_PLANE_UNREACHABLE := "control_plane_unreachable"
  const SSH_BOOTSTRAP_FAILED := "ssh_bootstrap_failed"
  const RUNNING := "Running"

  class Health {
    var down: map<string, string>
    var ready: bool
    var reason: string

    constructor ()
      ensures down == map[] && ready && reason == ""
    {
      down := map[];
      ready := true;
      reason := "";
    }

    /** What /health/ready says: ready when no source is down, else the reason of
        the first one that is. */
    predicate Folded()
      reads this
    {
      && (ready <==> down == map[])
      && (!ready ==> exists first | first in down :: IsLeast(first, down.Keys) && reason == down[first])
    }

    method Down(source: string, why: string)
      modifies this
      ensures down == old(down)[source := why] && Folded()
    {
      down := down[source := why];
      Store();
    }

    method Up(source: string)
      modifies this
      ensures down == old(down) - {source} && Folded()
    {
      down := down - {source};
      Store();
    }

    /** store. */
    method Store()
      modifies this`ready, this`reason
      ensures Folded()
    {
      if |down| == 0 {
        ready := true;
        return;
      }
      var sources := Sorted(down.Keys);
      assert sources[0] == Least(down.Keys);
      ready := false;
      reason := down[sources[0]];
    }
  }

  // ------------------------------------------------- reports of any interleaving

  /** One report of one source: down with a reason, or up. */
  datatype Report = Report(source: string, down: Option<string>)

  function DownFrom(reports: seq<Report>): map<string, string> {
    if reports == [] then map[]
    else
      var before, last := DownFrom(reports[..|reports| - 1]), reports[|reports| - 1];
      match last.down
      case Some(why) => before[last.source := why]
      case None => before - {last.source}
  }

  function LastOf(reports: seq<Report>, source: string): Option<string> {
    if reports == [] then None
    else if reports[|reports| - 1].source == source then reports[|reports| - 1].down
    else LastOf(reports[..|reports| - 1], source)
  }

  /** However the reports of several sources interleave, each is down exactly when
      its own last report says so, with that report's reason. */
  lemma {:induction false} OwnLastReportDecides(reports: seq<Report>, source: string)
    ensures LastOf(reports, source) == if source in DownFrom(reports) then Some(DownFrom(reports)[source]) else None
  {
    if reports != [] {
      OwnLastReportDecides(reports[..|reports| - 1], source);
    }
  }

  // ------------------------------------------------------- the control session

  /** The states without those that repeat whether the session is up. */
  function Changes(states: seq<string>): (ups: seq<bool>)
    ensures states != [] ==> ups != [] && ups[|ups| - 1] == (states[|states| - 1] == RUNNING)
    ensures states == [] ==> ups == []
  {
    if states == [] then []
    else
      var before, up := Changes(states[..|states| - 1]), states[|states| - 1] == RUNNING;
      if before != [] && before[|before| - 1] == up then before else before + [up]
  }

  /** No report says what the one before it said. */
  lemma {:induction false} ChangesAlternate(states: seq<string>)
    ensures forall i | 0 < i < |Changes(states)| :: Changes(states)[i] != Changes(states)[i - 1]
  {
    if states != [] {
      ChangesAlternate(states[..|states| - 1]);
    }
  }

  /** One more state is reported exactly where it is the first or says otherwise
      than the one before it. */
  lemma ReportedOnChange(states: seq<string>, state: string)
    ensures Changes(states + [state])
         == Changes(states)
            + (if states != [] && (states[|states| - 1] == "Running") == (state == "Running") then [] else [state == "Running"])
  {
    assert (states + [state])[..|states|] == states;
  }

  /** One report of the control session. */
  method Tell(h: Health, up: bool)
    modifies h
    ensures h.Folded() && OnlyControl(old(h.down), h.down)
    ensures if up then CONTROL !in h.down else CONTROL in h.down && h.down[CONTROL] == CONTROL_PLANE_UNREACHABLE
  {
    if up {
      h.Up(CONTROL);
    } else {
      h.Down(CONTROL, CONTROL_PLANE_UNREACHABLE);
    }
  }

  predicate OnlyControl(before: map<string, string>, now: map<string, string>) {
    before - {CONTROL} == now - {CONTROL}
  }

  /** WatchControlSession, over the states received before it ends. busEnded: the
      channel closed; stopped: serve was stopping by then. */
  method WatchControlSession(states: seq<string>, busEnded: bool, stopped: bool, h: Health) returns (reports: seq<bool>)
    modifies h
    ensures reports == Changes(states) + (if busEnded && !stopped then [false] else [])
    ensures OnlyControl(old(h.down), h.down)
    ensures reports != [] ==> h.Folded()
    ensures reports != [] ==> (CONTROL in h.down <==> (busEnded && !stopped) || states[|states| - 1] != RUNNING)
    ensures CONTROL in h.down && reports != [] ==> h.down[CONTROL] == CONTROL_PLANE_UNREACHABLE
    ensures reports == [] ==> h.down == old(h.down)
  {
    reports := [];
    var reported, wasUp := false, false;
    for i := 0 to |states|
      invariant reports == Changes(states[..i]) && reported == (reports != [])
      invariant reported ==> wasUp == reports[|reports| - 1] && h.Folded() && (CONTROL in h.down <==> !wasUp)
      invariant reported && CONTROL in h.down ==> h.down[CONTROL] == CONTROL_PLANE_UNREACHABLE
      invariant OnlyControl(old(h.down), h.down) && (!reported ==> h.down == old(h.down))
    {
      assert states[..i + 1][..i] == states[..i];
      var up := states[i] == RUNNING;
      if reported && up == wasUp {
        continue;
      }
      reported, wasUp := true, up;
      reports := reports + [up];
      Tell(h, up);
    }
    assert states[..|states|] == states;
    if busEnded && !stopped {
      Tell(h, false);
      reports := reports + [false];
    }
  }
}
