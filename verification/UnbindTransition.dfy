/** UnbindCredential deletes the key before any reference to it, so that an
    interrupted removal can be run again. */
module UnbindTransition {
  import opened Text
  import opened NameOrder
  import opened Credentials
  import opened Profiles
  import opened BindTransition

  /** Every reference has a stored key. */
  predicate NoDangling(d: Disk) {
    forall p | p in d.profiles && d.profiles[p].credential != "" :: d.profiles[p].credential in d.keys
  }

  /** Only references to name may lack a key. */
  predicate DanglingOnly(d: Disk, name: string) {
    forall p | p in d.profiles && d.profiles[p].credential != "" && d.profiles[p].credential != name ::
      d.profiles[p].credential in d.keys
  }

  /** The map with the references of the given profiles cleared. */
  function ClearedAll(profiles: Entries, names: set<string>): Entries {
    map p | p in profiles :: if p in names then profiles[p].(credential := "") else profiles[p]
  }

  // ------------------------------------------------- what a removal comes to

  /** The credential selected, None when the request selects none. */
  function Selected(d: Disk, r: Removal): Option<string> {
    if r.credential != "" || r.profile == "" then Some(r.credential)
    else if r.profile in d.profiles && d.profiles[r.profile].credential != "" then Some(d.profiles[r.profile].credential)
    else None
  }

  /** Only the profile's own reference goes: others still use the key. */
  predicate KeepsKey(d: Disk, r: Removal, name: string) {
    r.profile != "" && |ReferencedBy(d.profiles, name)| > 1
  }

  /** The key goes, and the references with it. */
  predicate RemovesKey(d: Disk, r: Removal, name: string) {
    var refs := ReferencedBy(d.profiles, name);
    && !KeepsKey(d, r, name) && IsValidName(name)
    && (r.profile == "" && refs != {} ==> r.force)
    && (name in d.keys || refs != {})
  }

  /** The profiles whose reference is cleared once the key is gone. */
  function Cleared(d: Disk, r: Removal, name: string): set<string> {
    if r.profile != "" then {r.profile} else ReferencedBy(d.profiles, name)
  }

  /** The disk a removal comes to when nothing fails. */
  function Removed(d: Disk, r: Removal): Disk {
    match Selected(d, r)
    case None => d
    case Some(name) =>
      if KeepsKey(d, r, name) then d.(profiles := ClearedAll(d.profiles, {r.profile}))
      else if RemovesKey(d, r, name) then Disk(ClearedAll(d.profiles, Cleared(d, r, name)), d.keys - {name})
      else d
  }

  // -------------------------------------------------------- a run, step by step

  /** now is profiles with the references of all cleared, except that those of
      left may not be yet. */
  predicate ClearedBut(profiles: Entries, all: set<string>, left: set<string>, now: Entries) {
    && now.Keys == profiles.Keys
    && forall p | p in profiles ::
         || (now[p] == profiles[p].(credential := "") && p in all)
         || (now[p] == profiles[p] && (p !in all || p in left))
  }

  function SetOf(names: seq<string>): set<string> {
    set n | n in names
  }

  /** The key is gone, unless only a reference goes, and every clear is made but
      perhaps those of left. */
  predicate Partway(d: Disk, r: Removal, name: string, left: set<string>, now: Disk) {
    && left <= Cleared(d, r, name) && ClearedBut(d.profiles, Cleared(d, r, name), left, now.profiles)
    && (if KeepsKey(d, r, name) then now.keys == d.keys else RemovesKey(d, r, name) && now.keys == d.keys - {name})
  }

  /** Where a run of Unbind that began on d can be, and what the disk then is. */
  predicate UnbindAt(d: Disk, r: Removal, s: State) {
    var selected := Selected(d, r);
    match s.pc
    case Start(request) => s.disk == d && request == Unbind(r)
    case UnbindList(r', name) => s.disk == d && r' == r && selected == Some(name)
    case UnbindRemove(name, dangling, clear, _) =>
      && s.disk == d && selected == Some(name) && !KeepsKey(d, r, name)
      && (r.profile == "" && ReferencedBy(d.profiles, name) != {} ==> r.force)
      && dangling == (ReferencedBy(d.profiles, name) != {}) && SetOf(clear) == Cleared(d, r, name)
    case ClearLoad(clear, _) => selected.Some? && Partway(d, r, selected.value, SetOf(clear), s.disk)
    case ClearSave(clear, loaded, changed, _) =>
      && selected.Some? && Partway(d, r, selected.value, Cleared(d, r, selected.value), s.disk)
      && Partway(d, r, selected.value, SetOf(clear), s.disk.(profiles := changed))
    case Finished(Done(_)) => selected.Some? && Partway(d, r, selected.value, {}, s.disk)
    case Finished(Failed(_)) => s.disk == d || (selected.Some? && Partway(d, r, selected.value, Cleared(d, r, selected.value), s.disk))
    case _ => false
  }

  lemma StartStays(canon: Canon, d: Disk, r: Removal, fault: bool)
    ensures UnbindAt(d, r, State(StartStep(canon, Unbind(r), d, fault), d))
  {}

  lemma ListStays(d: Disk, r: Removal, name: string, fault: bool)
    requires Selected(d, r) == Some(name)
    ensures UnbindAt(d, r, State(ListStep(r, name, d, fault), d))
  {
    if r.profile == "" {
      ListByNameStays(d, r, name, fault);
    } else {
      ListThroughStays(d, r, name, fault);
    }
  }

  lemma ListByNameStays(d: Disk, r: Removal, name: string, fault: bool)
    requires Selected(d, r) == Some(name) && r.profile == ""
    ensures UnbindAt(d, r, State(ListStep(r, name, d, fault), d))
  {
    var refs := References(d.profiles, name);
    assert SetOf(refs) == ReferencedBy(d.profiles, name);
  }

  lemma ListThroughStays(d: Disk, r: Removal, name: string, fault: bool)
    requires Selected(d, r) == Some(name) && r.profile != ""
    ensures UnbindAt(d, r, State(ListStep(r, name, d, fault), d))
  {
    assert SetOf([r.profile]) == {r.profile};
  }

  lemma NextStays(d: Disk, r: Removal, name: string, clear: seq<string>, outcome: Outcome, now: Disk)
    requires Selected(d, r) == Some(name) && Partway(d, r, name, SetOf(clear), now)
    ensures UnbindAt(d, r, State(ClearNext(clear, outcome), now))
  {
    assert clear == [] ==> SetOf(clear) == {};
  }

  lemma RemoveStays(d: Disk, r: Removal, s: State, fault: bool)
    requires UnbindAt(d, r, s) && s.pc.UnbindRemove?
    ensures UnbindAt(d, r, RemoveStep(s.pc.name, s.pc.dangling, s.pc.clear, s.pc.outcome, d, fault))
  {
    var name := s.pc.name;
    if IsValidName(name) && !fault && (name in d.keys || s.pc.dangling) {
      assert d.keys - {name} == if name in d.keys then d.keys - {name} else d.keys;
      NextStays(d, r, name, s.pc.clear, s.pc.outcome, d.(keys := d.keys - {name}));
    }
  }

  lemma LoadStays(d: Disk, r: Removal, s: State, fault: bool)
    requires UnbindAt(d, r, s) && s.pc.ClearLoad?
    ensures UnbindAt(d, r, State(ClearStep(s.pc.clear, s.pc.outcome, s.disk, fault), s.disk))
  {
    var name, clear := Selected(d, r).value, s.pc.clear;
    assert Partway(d, r, name, Cleared(d, r, name), s.disk);
    if clear == [] {
      assert SetOf(clear) == {};
    } else if clear[0] in s.disk.profiles {
      ClearOne(d, r, name, clear, s.disk);
    }
  }

  /** One more reference cleared. */
  lemma ClearOne(d: Disk, r: Removal, name: string, clear: seq<string>, now: Disk)
    requires clear != [] && Partway(d, r, name, SetOf(clear), now) && clear[0] in now.profiles
    ensures Partway(d, r, name, SetOf(clear[1..]), now.(profiles := WithCredential(now.profiles, clear[0], "")))
  {
    assert clear[0] in SetOf(clear);
    assert forall n | n in SetOf(clear[1..]) :: n in SetOf(clear);
    assert forall n | n in SetOf(clear) && n != clear[0] :: n in SetOf(clear[1..]) by {
      assert clear == [clear[0]] + clear[1..];
    }
  }

  lemma SaveStays(d: Disk, r: Removal, s: State, fault: bool)
    requires UnbindAt(d, r, s) && s.pc.ClearSave?
    ensures !fault ==> UnbindAt(d, r, State(ClearNext(s.pc.clear, s.pc.outcome), s.disk.(profiles := s.pc.changed)))
    ensures fault ==> UnbindAt(d, r, Stop(s.disk, IO))
  {
    NextStays(d, r, Selected(d, r).value, s.pc.clear, s.pc.outcome, s.disk.(profiles := s.pc.changed));
  }

  lemma StepStays(canon: Canon, d: Disk, r: Removal, s: State, fault: bool)
    requires UnbindAt(d, r, s)
    ensures UnbindAt(d, r, Step(canon, s, fault))
  {
    match s.pc
    case Start(_) => StartStays(canon, d, r, fault);
    case UnbindList(_, name) => ListStays(d, r, name, fault);
    case UnbindRemove(_, _, _, _) => RemoveStays(d, r, s, fault);
    case ClearLoad(_, _) => LoadStays(d, r, s, fault);
    case ClearSave(_, _, _, _) => SaveStays(d, r, s, fault);
    case Finished(_) =>
  }

  lemma {:induction false} RunStays(canon: Canon, d: Disk, r: Removal, s: State, faults: seq<bool>)
    requires UnbindAt(d, r, s)
    ensures UnbindAt(d, r, Run(canon, s, faults))
    decreases faults
  {
    if faults != [] {
      StepStays(canon, d, r, s, faults[0]);
      RunStays(canon, d, r, Step(canon, s, faults[0]), faults[1..]);
    }
  }

  /** Every disk a run of Unbind leaves, crashed, failed or done: untouched, or
      partway through the clears. */
  lemma RunLeaves(canon: Canon, d: Disk, r: Removal, faults: seq<bool>)
    ensures var now := Run(canon, State(Start(Unbind(r)), d), faults).disk;
            now == d || (Selected(d, r).Some? && Partway(d, r, Selected(d, r).value, Cleared(d, r, Selected(d, r).value), now))
  {
    RunStays(canon, d, r, State(Start(Unbind(r)), d), faults);
  }

  // ------------------------------------------------ a run nothing interrupts

  /** What a finished run of an unfailed removal leaves is Removed. */
  lemma {:induction false} CompleteIsRemoved(canon: Canon, d: Disk, r: Removal, s: State)
    requires UnbindAt(d, r, s) && Honest(d, r, s)
    ensures Complete(canon, s).disk == Removed(d, r)
    decreases Rank(s)
  {
    if s.pc.Finished? {
      EndIsRemoved(d, r, s);
    } else {
      StepsEnd(canon, s, false);
      StepStays(canon, d, r, s, false);
      StaysHonest(canon, d, r, s);
      CompleteIsRemoved(canon, d, r, Step(canon, s, false));
    }
  }

  /** Failed only where the request itself is refused, or where the profile it
      names is missing. */
  predicate Honest(d: Disk, r: Removal, s: State) {
    match s.pc
    case Finished(Failed(_)) => s.disk == Removed(d, r)
    case ClearLoad(clear, _) => r.profile == "" || clear == [r.profile]
    case ClearSave(clear, _, _, _) => r.profile == "" || clear == []
    case UnbindRemove(_, _, clear, _) => r.profile == "" || clear == [r.profile]
    case _ => true
  }

  lemma EndIsRemoved(d: Disk, r: Removal, s: State)
    requires UnbindAt(d, r, s) && Honest(d, r, s) && s.pc.Finished?
    ensures s.disk == Removed(d, r)
  {
    if s.pc.result.Done? {
      var name := Selected(d, r).value;
      NothingLeft(d, r, name, s.disk);
    }
  }

  lemma NothingLeft(d: Disk, r: Removal, name: string, now: Disk)
    requires Selected(d, r) == Some(name) && Partway(d, r, name, {}, now)
    ensures now == Removed(d, r)
  {
    assert now.profiles == ClearedAll(d.profiles, Cleared(d, r, name));
  }

  lemma StaysHonest(canon: Canon, d: Disk, r: Removal, s: State)
    requires UnbindAt(d, r, s) && Honest(d, r, s) && !s.pc.Finished?
    ensures Honest(d, r, Step(canon, s, false))
  {
    match s.pc
    case Start(_) =>
    case UnbindList(_, name) =>
      assert SetOf(References(d.profiles, name)) == ReferencedBy(d.profiles, name);
    case UnbindRemove(_, _, _, _) =>
    case ClearLoad(clear, _) => LoadStaysHonest(d, r, s);
    case ClearSave(_, _, _, _) =>
  }

  /** A profile to clear is missing only when the request named it. */
  lemma LoadStaysHonest(d: Disk, r: Removal, s: State)
    requires UnbindAt(d, r, s) && Honest(d, r, s) && s.pc.ClearLoad?
    ensures Honest(d, r, State(ClearStep(s.pc.clear, s.pc.outcome, s.disk, false), s.disk))
  {
    var name, clear := Selected(d, r).value, s.pc.clear;
    if clear != [] && clear[0] !in s.disk.profiles {
      assert clear[0] in SetOf(clear);
      assert clear[0] == r.profile;
      assert Cleared(d, r, name) == {r.profile};
      NothingLeftBut(d, r, name, s.disk);
    }
  }

  lemma NothingLeftBut(d: Disk, r: Removal, name: string, now: Disk)
    requires Selected(d, r) == Some(name) && r.profile != "" && r.profile !in now.profiles
    requires Partway(d, r, name, {r.profile}, now)
    ensures now == Removed(d, r)
  {
    assert now.profiles == ClearedAll(d.profiles, {r.profile});
  }

  /** What a removal comes to when no file operation fails. */
  lemma RemovalComesTo(canon: Canon, d: Disk, r: Removal)
    ensures Complete(canon, State(Start(Unbind(r)), d)).disk == Removed(d, r)
  {
    CompleteIsRemoved(canon, d, r, State(Start(Unbind(r)), d));
  }

  // --------------------------------------------------- interrupted, and again

  /** Wherever a removal is interrupted, the only references without a key are to
      the name removed. */
  lemma InterruptedDanglesOnlyRemoved(canon: Canon, d: Disk, r: Removal, faults: seq<bool>)
    requires NoDangling(d)
    ensures var now := Run(canon, State(Start(Unbind(r)), d), faults).disk;
            if Selected(d, r).Some? then DanglingOnly(now, Selected(d, r).value) else NoDangling(now)
  {
    RunLeaves(canon, d, r, faults);
  }

  /** A removal whose rerun cannot always finish what an interruption left: it
      names a credential and a profile, and either the profile is one of exactly
      two that reference the credential, or none does and the profile references
      another one. */
  predicate Unresumable(d: Disk, r: Removal) {
    var refs := ReferencedBy(d.profiles, r.credential);
    && r.credential != "" && r.profile != "" && IsValidName(r.credential)
    && r.profile in d.profiles && r.credential in d.keys
    && ((r.profile in refs && |refs| == 2) || (refs == {} && d.profiles[r.profile].credential != ""))
  }

  /** What a removal leaves partway, run again, comes to what the whole run does. */
  lemma RerunFinishes(d: Disk, r: Removal, now: Disk)
    requires !Unresumable(d, r) && Selected(d, r).Some?
    requires Partway(d, r, Selected(d, r).value, Cleared(d, r, Selected(d, r).value), now)
    ensures Removed(now, r) == Removed(d, r)
  {
    var name := Selected(d, r).value;
    if r.profile == "" {
      RerunByName(d, r, now);
    } else if KeepsKey(d, r, name) {
      RerunUnlink(d, r, now);
    } else {
      RerunThroughProfile(d, r, now);
    }
  }

  lemma RerunByName(d: Disk, r: Removal, now: Disk)
    requires r.profile == "" && Partway(d, r, r.credential, Cleared(d, r, r.credential), now)
    ensures Removed(now, r) == Removed(d, r)
  {
    var name := r.credential;
    var refs, left := ReferencedBy(d.profiles, name), ReferencedBy(now.profiles, name);
    assert IsValidName(name) && left <= refs;
    forall p | p in refs
      ensures p in left || now.profiles[p] == d.profiles[p].(credential := "")
    {}
    assert ClearedAll(now.profiles, left) == ClearedAll(d.profiles, refs);
    assert now.keys - {name} == now.keys;
    if left == {} {
      assert ClearedAll(now.profiles, left) == now.profiles;
    }
  }

  lemma RerunThroughProfile(d: Disk, r: Removal, now: Disk)
    requires r.profile != "" && Selected(d, r).Some? && !Unresumable(d, r) && RemovesKey(d, r, Selected(d, r).value)
    requires Partway(d, r, Selected(d, r).value, {r.profile}, now)
    ensures Removed(now, r) == Removed(d, r)
  {
    var name, p := Selected(d, r).value, r.profile;
    var refs, left := ReferencedBy(d.profiles, name), ReferencedBy(now.profiles, name);
    assert Removed(d, r) == Disk(ClearedAll(d.profiles, {p}), d.keys - {name});
    assert ClearedAll(now.profiles, {p}) == ClearedAll(d.profiles, {p});
    assert now.keys - {name} == now.keys;
    assert left <= refs;
    FewerNames(left, refs);
    OneCleared(d.profiles, p, now.profiles);
    if now.profiles == d.profiles {
      assert left == refs;
      if refs == {} {
        NothingToClear(d, r);
        assert ClearedAll(now.profiles, {p}) == now.profiles;
      }
    }
  }

  /** A removal through a profile that no reference leads to clears nothing. */
  lemma NothingToClear(d: Disk, r: Removal)
    requires r.profile != "" && Selected(d, r).Some? && !Unresumable(d, r) && RemovesKey(d, r, Selected(d, r).value)
    requires ReferencedBy(d.profiles, Selected(d, r).value) == {}
    ensures r.profile in d.profiles ==> d.profiles[r.profile].credential == ""
  {
    var name := Selected(d, r).value;
    assert r.profile in d.profiles && d.profiles[r.profile].credential == name ==> r.profile in ReferencedBy(d.profiles, name);
  }

  lemma OneCleared(profiles: Entries, p: string, now: Entries)
    requires ClearedBut(profiles, {p}, {p}, now)
    ensures now == profiles || (p in profiles && now == ClearedAll(profiles, {p}))
  {
    if p !in profiles || now[p] == profiles[p] {
      assert forall q | q in profiles :: now[q] == profiles[q];
    } else {
      assert forall q | q in profiles :: now[q] == ClearedAll(profiles, {p})[q];
    }
  }

  lemma RerunUnlink(d: Disk, r: Removal, now: Disk)
    requires Selected(d, r).Some? && !Unresumable(d, r) && KeepsKey(d, r, Selected(d, r).value)
    requires Partway(d, r, Selected(d, r).value, {r.profile}, now)
    ensures Removed(now, r) == Removed(d, r)
  {
    var name, p := Selected(d, r).value, r.profile;
    assert ClearedAll(now.profiles, {p}) == ClearedAll(d.profiles, {p});
    OneCleared(d.profiles, p, now.profiles);
    if now.profiles != d.profiles {
      UnlinkedReferences(d, r, name, now);
    }
  }

  lemma UnlinkedReferences(d: Disk, r: Removal, name: string, now: Disk)
    requires now == d.(profiles := ClearedAll(d.profiles, {r.profile})) && r.profile in d.profiles && name != ""
    ensures ReferencedBy(now.profiles, name) == ReferencedBy(d.profiles, name) - {r.profile}
    ensures |ReferencedBy(now.profiles, name)|
         == |ReferencedBy(d.profiles, name)| - (if r.profile in ReferencedBy(d.profiles, name) then 1 else 0)
  {}

  /** Running the same removal again, on the disk an interruption left, ends where
      the uninterrupted run does. */
  predicate RerunAgrees(canon: Canon, d: Disk, r: Removal, faults: seq<bool>) {
    var now := Run(canon, State(Start(Unbind(r)), d), faults).disk;
    Complete(canon, State(Start(Unbind(r)), now)).disk == Complete(canon, State(Start(Unbind(r)), d)).disk
  }

  /** Unbind is resumable, exactly: from every interruption, unless the request
      is Unresumable on the disk it began on. */
  lemma UnbindIsResumable(canon: Canon, d: Disk, r: Removal)
    ensures (forall faults :: RerunAgrees(canon, d, r, faults)) <==> !Unresumable(d, r)
  {
    if Unresumable(d, r) {
      var faults := StrayInterruption(canon, d, r);
      assert !RerunAgrees(canon, d, r, faults);
    } else {
      forall faults
        ensures RerunAgrees(canon, d, r, faults)
      {
        ResumedFrom(canon, d, r, faults);
      }
    }
  }

  lemma ResumedFrom(canon: Canon, d: Disk, r: Removal, faults: seq<bool>)
    requires !Unresumable(d, r)
    ensures RerunAgrees(canon, d, r, faults)
  {
    var now := Run(canon, State(Start(Unbind(r)), d), faults).disk;
    RunLeaves(canon, d, r, faults);
    RemovalComesTo(canon, d, r);
    RemovalComesTo(canon, now, r);
    if now != d {
      RerunFinishes(d, r, now);
    }
  }

  /** An interruption a rerun does not finish: after the key is removed, or after
      the first of two references is cleared. */
  lemma StrayInterruption(canon: Canon, d: Disk, r: Removal) returns (faults: seq<bool>)
    requires Unresumable(d, r)
    ensures !RerunAgrees(canon, d, r, faults)
  {
    var start := State(Start(Unbind(r)), d);
    faults := [false, false, false];
    RunOfThree(canon, start);
    if ReferencedBy(d.profiles, r.credential) == {} {
      KeyAlone(canon, d, r);
    } else {
      faults := [false, false, false] + [false];
      OneMoreStep(canon, start, [false, false, false], false);
      FirstOfTwo(canon, d, r);
    }
    var now := Run(canon, start, faults).disk;
    RemovalComesTo(canon, d, r);
    RemovalComesTo(canon, now, r);
  }

  lemma KeyAlone(canon: Canon, d: Disk, r: Removal)
    requires Unresumable(d, r) && ReferencedBy(d.profiles, r.credential) == {}
    ensures var start := State(Start(Unbind(r)), d);
            var now := Step(canon, Step(canon, Step(canon, start, false), false), false).disk;
            Removed(now, r) != Removed(d, r)
  {
    var now := d.(keys := d.keys - {r.credential});
    assert Removed(now, r) == now;
    assert Removed(d, r).profiles[r.profile].credential == "";
  }

  lemma FirstOfTwo(canon: Canon, d: Disk, r: Removal)
    requires Unresumable(d, r) && ReferencedBy(d.profiles, r.credential) != {}
    ensures var start := State(Start(Unbind(r)), d);
            var now := Step(canon, Step(canon, Step(canon, Step(canon, start, false), false), false), false).disk;
            Removed(now, r) != Removed(d, r)
  {
    UnlinkInFour(canon, d, r);
    var now := d.(profiles := WithCredential(d.profiles, r.profile, ""));
    assert now.profiles == ClearedAll(d.profiles, {r.profile});
    UnlinkedReferences(d, r, r.credential, now);
    assert r.credential !in Removed(now, r).keys && r.credential in Removed(d, r).keys;
  }

  lemma UnlinkInFour(canon: Canon, d: Disk, r: Removal)
    requires r.credential != "" && r.profile in d.profiles && KeepsKey(d, r, r.credential)
    ensures var start := State(Start(Unbind(r)), d);
            Step(canon, Step(canon, Step(canon, Step(canon, start, false), false), false), false).disk
            == d.(profiles := WithCredential(d.profiles, r.profile, ""))
  {
    var listed := Step(canon, State(Start(Unbind(r)), d), false);
    assert listed == State(UnbindList(r, r.credential), d);
    var loading := Step(canon, listed, false);
    assert loading == State(ClearLoad([r.profile], Unlinked), d);
  }

  lemma RunOfThree(canon: Canon, s: State)
    ensures Run(canon, s, [false, false, false]) == Step(canon, Step(canon, Step(canon, s, false), false), false)
  {
    OneMoreStep(canon, s, [], false);
    OneMoreStep(canon, s, [false], false);
    OneMoreStep(canon, s, [false, false], false);
    assert [] + [false] == [false] && [false] + [false] == [false, false] && [false, false] + [false] == [false, false, false];
  }

  // ------------------------------------------------ success leaves no dangling

  /** A removal that names a credential and a profile that does not use it, while
      exactly one other profile does. */
  predicate Misaimed(d: Disk, r: Removal) {
    var refs := ReferencedBy(d.profiles, r.credential);
    r.credential != "" && r.profile != "" && |refs| == 1 && r.profile !in refs
  }

  lemma UnbindKeepsReferences(d: Disk, r: Removal, now: Disk)
    requires NoDangling(d) && Selected(d, r).Some? && Partway(d, r, Selected(d, r).value, {}, now) && Selected(d, r).value != ""
    ensures NoDangling(now) <==> !Misaimed(d, r)
  {
    var name := Selected(d, r).value;
    var refs := ReferencedBy(d.profiles, name);
    if Misaimed(d, r) {
      var q :| q in refs;
      assert refs == {q} by { OneMember(refs, q, r.profile); }
      assert now.profiles[q].credential == name;
    } else if !KeepsKey(d, r, name) && r.profile != "" {
      if refs != {} {
        var q :| q in refs;
        OneMember(refs, q, r.profile);
      }
    }
  }

  lemma OneMember(names: set<string>, q: string, p: string)
    requires q in names && |names| == 1
    ensures names == {q}
    ensures p in names ==> p == q
  {
    var rest := names - {q};
    assert names == rest + {q};
  }

  /** A request other than Bind and Unbind: what it is about to write dangles
      nothing. */
  predicate WritesNoDangling(s: State) {
    && NoDangling(s.disk)
    && match s.pc
       case Start(request) => !request.Bind? && !request.Unbind?
       case Saving(_, changed, _) => NoDangling(s.disk.(profiles := changed))
       case ClearSave(clear, _, changed, _) => clear == [] && NoDangling(s.disk.(profiles := changed))
       case Finished(_) => true
       case _ => false
  }

  lemma {:induction false} WritesStay(canon: Canon, s: State, faults: seq<bool>)
    requires WritesNoDangling(s)
    ensures WritesNoDangling(Run(canon, s, faults))
    decreases faults
  {
    if faults != [] {
      if s.pc.Start? {
        StartWrites(canon, s.pc.request, s.disk, faults[0]);
      }
      WritesStay(canon, Step(canon, s, faults[0]), faults[1..]);
    }
  }

  lemma StartWrites(canon: Canon, request: Request, d: Disk, fault: bool)
    requires NoDangling(d) && !request.Bind? && !request.Unbind?
    ensures WritesNoDangling(State(StartStep(canon, request, d, fault), d))
  {}

  /** Every operation that returns success keeps "each reference has a stored
      key", Unbind exactly when the removal is not misaimed. */
  lemma SuccessKeepsReferences(canon: Canon, d: Disk, request: Request, faults: seq<bool>)
    requires NoDangling(d)
    requires Run(canon, State(Start(request), d), faults).pc.Finished?
    requires Run(canon, State(Start(request), d), faults).pc.result.Done?
    ensures NoDangling(Run(canon, State(Start(request), d), faults).disk) <==> !(request.Unbind? && Misaimed(d, request.removal))
  {
    match request
    case Bind(b) => BindIsAllOrNothing(canon, d, b, faults);
    case Unbind(r) =>
      RunStays(canon, d, r, State(Start(request), d), faults);
      UnbindKeepsReferences(d, r, Run(canon, State(Start(request), d), faults).disk);
    case _ => WritesStay(canon, State(Start(request), d), faults);
  }
}
