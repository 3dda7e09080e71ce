/** What each store operation comes to: which end, and which disk, for every disk
    it can begin on. */
module StoreOutcomes {
  import opened Text
  import opened NameOrder
  import opened Credentials
  import opened Profiles
  import opened BindTransition
  import opened UnbindTransition

  lemma CompleteSteps(canon: Canon, s: State)
    ensures Complete(canon, s) == Complete(canon, Step(canon, s, false))
  {
    if !s.pc.Finished? {
      StepsEnd(canon, s, false);
    }
  }

  // ---------------------------------------------------------- never overwritten

  /** Where a Bind that may not replace a stored key can be: nothing is written. */
  predicate NotYetStored(d: Disk, b: Binding, s: State) {
    && s.disk == d
    && match s.pc
       case Start(request) => request == Bind(b)
       case BindShare(b') => b' == b
       case BindRead(b') => b' == b
       case BindStore(b', _) => b' == b
       case Finished(result) => result.Failed?
       case _ => false
  }

  lemma StaysUnstored(canon: Canon, d: Disk, b: Binding, s: State, fault: bool)
    requires !b.replace && b.credential in d.keys && NotYetStored(d, b, s)
    ensures NotYetStored(d, b, Step(canon, s, fault))
  {
    match s.pc
    case Start(_) =>
    case BindShare(_) =>
    case BindRead(_) =>
    case BindStore(_, _) =>
    case Finished(_) =>
  }

  lemma {:induction false} RunStaysUnstored(canon: Canon, d: Disk, b: Binding, s: State, faults: seq<bool>)
    requires !b.replace && b.credential in d.keys && NotYetStored(d, b, s)
    ensures NotYetStored(d, b, Profiles.Run(canon, s, faults))
    decreases faults
  {
    if faults != [] {
      StaysUnstored(canon, d, b, s, faults[0]);
      RunStaysUnstored(canon, d, b, Step(canon, s, faults[0]), faults[1..]);
    }
  }

  /** A stored key is never overwritten unasked: whatever fails and wherever the
      run is cut, the disk is the one it began on and the run is not done. */
  lemma StoredKeyIsKept(canon: Canon, d: Disk, b: Binding, faults: seq<bool>)
    requires !b.replace && b.credential in d.keys
    ensures var s := Profiles.Run(canon, State(Start(Bind(b)), d), faults);
            s.disk == d && !(s.pc.Finished? && s.pc.result.Done?)
  {
    RunStaysUnstored(canon, d, b, State(Start(Bind(b)), d), faults);
  }

  // ------------------------------------------------------------------- binding

  /** The profile is there, on the plane the request was made for, and a
      Headscale key is not for the default plane. */
  predicate ProfileTakesKey(canon: Canon, d: Disk, b: Binding) {
    && b.profile in d.profiles
    && SamePlane(canon, d.profiles[b.profile].controlURL, b.controlURL)
    && !(HasPrefix(b.key, "hskey-") && d.profiles[b.profile].controlURL == "")
  }

  /** No other profile uses the credential on another plane. */
  predicate Unshared(canon: Canon, d: Disk, b: Binding)
    requires b.profile in d.profiles
  {
    forall other | other in d.profiles && other != b.profile && d.profiles[other].credential == b.credential ::
      SamePlane(canon, d.profiles[other].controlURL, d.profiles[b.profile].controlURL)
  }

  /** A key stored under the name can be read, so it can be put back. */
  predicate CanRestore(d: Disk, b: Binding) {
    b.credential in d.keys ==> d.keys[b.credential].content.Some?
  }

  lemma NoConflict(canon: Canon, d: Disk, b: Binding)
    requires b.profile in d.profiles
    ensures SharedConflict(canon, d.profiles, b.profile, b.credential, d.profiles[b.profile].controlURL).None? <==> Unshared(canon, d, b)
  {
    var url := d.profiles[b.profile].controlURL;
    if Unshared(canon, d, b) {
      forall other
        ensures !Conflicts(canon, d.profiles, b.profile, b.credential, url, other)
      {}
    } else {
      var other :| other in d.profiles && other != b.profile && d.profiles[other].credential == b.credential
                   && !SamePlane(canon, d.profiles[other].controlURL, url);
      assert Conflicts(canon, d.profiles, b.profile, b.credential, url, other);
    }
  }

  predicate PassesChecks(canon: Canon, d: Disk, b: Binding) {
    ProfileTakesKey(canon, d, b) && Unshared(canon, d, b)
  }

  /** Where the early checks refuse, in order. */
  lemma ChecksRefuse(canon: Canon, d: Disk, b: Binding)
    requires !PassesChecks(canon, d, b)
    ensures var end := Complete(canon, State(Start(Bind(b)), d));
            end.disk == d && end.pc.result.Failed?
            && end.pc.result.error
               == if b.profile !in d.profiles then NoProfile(b.profile)
                  else if !SamePlane(canon, d.profiles[b.profile].controlURL, b.controlURL) then PlaneMoved
                  else if !ProfileTakesKey(canon, d, b) then NeedsControlURL
                  else Shared(SharedConflict(canon, d.profiles, b.profile, b.credential, d.profiles[b.profile].controlURL).value)
  {
    var start := State(Start(Bind(b)), d);
    CompleteSteps(canon, start);
    if ProfileTakesKey(canon, d, b) {
      NoConflict(canon, d, b);
      CompleteSteps(canon, State(BindShare(b), d));
    }
  }

  lemma ChecksPass(canon: Canon, d: Disk, b: Binding)
    requires PassesChecks(canon, d, b)
    ensures Complete(canon, State(Start(Bind(b)), d)) == Complete(canon, State(ReadStep(b, d, false), d))
  {
    NoConflict(canon, d, b);
    CompleteSteps(canon, State(Start(Bind(b)), d));
    CompleteSteps(canon, State(BindShare(b), d));
    CompleteSteps(canon, State(BindRead(b), d));
  }

  lemma StoreRefuses(canon: Canon, d: Disk, b: Binding)
    requires PassesChecks(canon, d, b)
    requires !(IsValidName(b.credential) && NormalizeKey(b.key).Some? && CanRestore(d, b) && (b.credential in d.keys ==> b.replace))
    ensures Complete(canon, State(Start(Bind(b)), d))
         == Stop(d, if !IsValidName(b.credential) then BadCredentialName
                    else if !CanRestore(d, b) then KeyUnreadable
                    else if NormalizeKey(b.key) == None then BadKey
                    else KeyExists)
  {
    ChecksPass(canon, d, b);
    var read := State(ReadStep(b, d, false), d);
    CompleteSteps(canon, read);
  }

  lemma StoreAccepts(canon: Canon, d: Disk, b: Binding)
    requires PassesChecks(canon, d, b)
    requires IsValidName(b.credential) && NormalizeKey(b.key).Some? && CanRestore(d, b) && (b.credential in d.keys ==> b.replace)
    ensures Complete(canon, State(Start(Bind(b)), d)) == State(Finished(Done(Bound)), BoundDisk(d, b))
  {
    ChecksPass(canon, d, b);
    NoConflict(canon, d, b);
    var read := State(ReadStep(b, d, false), d);
    CompleteSteps(canon, read);
    var stored := Step(canon, read, false);
    Stores(canon, d, b);
    LoadOpens(canon, d, b, stored);
    CompleteSteps(canon, stored);
    CompleteSteps(canon, Step(canon, stored, false));
  }

  lemma Stores(canon: Canon, d: Disk, b: Binding)
    requires b.profile in d.profiles
    requires SharedConflict(canon, d.profiles, b.profile, b.credential, d.profiles[b.profile].controlURL) == None
    requires IsValidName(b.credential) && NormalizeKey(b.key).Some? && CanRestore(d, b) && (b.credential in d.keys ==> b.replace)
    ensures var stored := Step(canon, State(ReadStep(b, d, false), d), false);
            stored.pc.BindLoad? && BindAt(canon, d, b, stored)
  {}

  /** With nothing failing, Bind is done exactly when the profile takes the key,
      nobody shares the name across planes, the name and the key are valid, and a
      key stored under the name can be read and may be replaced. It then stores
      the key, references it, and changes nothing else. */
  lemma BoundExactly(canon: Canon, d: Disk, b: Binding)
    ensures var end := Complete(canon, State(Start(Bind(b)), d));
            && (end.pc == Finished(Done(Bound)) <==>
                  && PassesChecks(canon, d, b) && IsValidName(b.credential) && NormalizeKey(b.key).Some?
                  && (b.credential in d.keys ==> b.replace && d.keys[b.credential].content.Some?))
            && (end.pc == Finished(Done(Bound)) ==>
                  && end.disk.keys == d.keys[b.credential := KeyFile(NormalizeKey(b.key), b.controlURL)]
                  && end.disk.profiles == d.profiles[b.profile := d.profiles[b.profile].(credential := b.credential)])
            && (end.pc != Finished(Done(Bound)) ==> end.pc.result.Failed? && end.disk == d)
  {
    if !PassesChecks(canon, d, b) {
      ChecksRefuse(canon, d, b);
    } else if IsValidName(b.credential) && NormalizeKey(b.key).Some? && CanRestore(d, b) && (b.credential in d.keys ==> b.replace) {
      StoreAccepts(canon, d, b);
    } else {
      StoreRefuses(canon, d, b);
    }
  }

  /** The refusal to overwrite, exactly. */
  lemma KeyExistsExactly(canon: Canon, d: Disk, b: Binding)
    ensures Complete(canon, State(Start(Bind(b)), d)).pc == Finished(Failed(KeyExists)) <==>
              && PassesChecks(canon, d, b) && IsValidName(b.credential) && NormalizeKey(b.key).Some?
              && !b.replace && b.credential in d.keys && d.keys[b.credential].content.Some?
  {
    if !PassesChecks(canon, d, b) {
      ChecksRefuse(canon, d, b);
    } else if IsValidName(b.credential) && NormalizeKey(b.key).Some? && CanRestore(d, b) && (b.credential in d.keys ==> b.replace) {
      StoreAccepts(canon, d, b);
    } else {
      StoreRefuses(canon, d, b);
    }
  }

  // -------------------------------------------------------------- profile writes

  /** The write drops the credential of a profile that changes plane. */
  predicate ChangesPlane(canon: Canon, d: Disk, name: string, controlURL: string) {
    && name in d.profiles && d.profiles[name].credential != ""
    && !SamePlane(canon, d.profiles[name].controlURL, controlURL)
  }

  /** The entry a profile write leaves under its name, and no other changed. */
  predicate Leaves(canon: Canon, d: Disk, now: Disk, name: string, target: string, controlURL: string, runtime: Runtime) {
    && now.keys == d.keys && now.profiles.Keys == d.profiles.Keys + {name}
    && (forall p | p in d.profiles && p != name :: now.profiles[p] == d.profiles[p])
    && now.profiles[name].target == target && now.profiles[name].controlURL == controlURL
    && now.profiles[name].runtime == runtime
    && now.profiles[name].credential
       == if name !in d.profiles || ChangesPlane(canon, d, name, controlURL) then "" else d.profiles[name].credential
  }

  /** The runtime settings a profile has, or those of a new one. */
  function RuntimeOf(d: Disk, name: string): Runtime {
    if name in d.profiles then d.profiles[name].runtime else Runtime("", "", "", "", "", "")
  }

  /** A write that is refused where it would strand a credential without force,
      and otherwise done, saying whether it dropped a reference. */
  predicate WritesProfile(canon: Canon, d: Disk, end: State, name: string, target: string, controlURL: string, runtime: Runtime, force: bool) {
    if ChangesPlane(canon, d, name, controlURL) && !force then
      end == Stop(d, PlaneChange(d.profiles[name].credential))
    else
      && end.pc == Finished(Done(Written(ChangesPlane(canon, d, name, controlURL))))
      && Leaves(canon, d, end.disk, name, target, controlURL, runtime)
  }

  lemma PutComesTo(canon: Canon, d: Disk, request: Request, name: string, target: string, controlURL: string, runtime: Option<Runtime>, force: bool)
    requires StartStep(canon, request, d, false) == PutStep(canon, name, target, controlURL, runtime, force, d, false)
    ensures WritesProfile(canon, d, Complete(canon, State(Start(request), d)), name, target, controlURL,
                          if runtime.Some? then runtime.value else RuntimeOf(d, name), force)
  {
    var start := State(Start(request), d);
    var saving := Step(canon, start, false);
    CompleteSteps(canon, start);
    CompleteSteps(canon, saving);
  }

  /** Import keeps the profile's runtime settings. */
  lemma ImportComesTo(canon: Canon, d: Disk, name: string, target: string, controlURL: string, force: bool)
    ensures WritesProfile(canon, d, Complete(canon, State(Start(Import(name, target, controlURL, force)), d)),
                          name, target, controlURL, RuntimeOf(d, name), force)
  {
    PutComesTo(canon, d, Import(name, target, controlURL, force), name, target, controlURL, None, force);
  }

  predicate NamesSecret(value: string) {
    Contains(value, "tskey-") || Contains(value, "hskey-")
  }

  lemma SecretPrefixes(value: string)
    ensures HoldsKeyMaterial(value) <==> NamesSecret(value)
  {
    assert SECRET_PREFIXES[0] == "tskey-" && SECRET_PREFIXES[1] == "hskey-";
  }

  /** Set refuses a blank name, a target that holds key material and every change
      of plane, and keeps the runtime settings. */
  lemma SetComesTo(canon: Canon, d: Disk, name: string, target: string, controlURL: string)
    ensures var end := Complete(canon, State(Start(Set(name, target, controlURL)), d));
            if TrimSpace(name) == "" then end == Stop(d, BlankName)
            else if NamesSecret(target) then end == Stop(d, KeyMaterial)
            else WritesProfile(canon, d, end, name, target, controlURL, RuntimeOf(d, name), false)
  {
    SecretPrefixes(target);
    CompleteSteps(canon, State(Start(Set(name, target, controlURL)), d));
    if TrimSpace(name) != "" && !NamesSecret(target) {
      PutComesTo(canon, d, Set(name, target, controlURL), name, target, controlURL, None, false);
    }
  }

  predicate ConfigNamesSecret(controlURL: string, r: Runtime) {
    || NamesSecret(controlURL) || NamesSecret(r.bootstrapSSH) || NamesSecret(r.bootstrapSOCKSAddr) || NamesSecret(r.hostname)
    || NamesSecret(r.stateDir) || NamesSecret(r.localAddr) || NamesSecret(r.healthAddr)
  }

  lemma ConfiguredSecret(controlURL: string, r: Runtime)
    ensures AnyHoldsKeyMaterial(Configured(controlURL, r)) <==> ConfigNamesSecret(controlURL, r)
  {
    var values := [controlURL, r.bootstrapSSH, r.bootstrapSOCKSAddr, r.hostname, r.stateDir, r.localAddr, r.healthAddr];
    assert Configured(controlURL, r) == values;
    forall i | 0 <= i < 7
      ensures values[i] in values && (HoldsKeyMaterial(values[i]) <==> NamesSecret(values[i]))
    {
      SecretPrefixes(values[i]);
    }
    assert ConfigNamesSecret(controlURL, r) <==> exists i | 0 <= i < 7 :: HoldsKeyMaterial(values[i]) by {
      assert values[0] == controlURL && values[1] == r.bootstrapSSH && values[2] == r.bootstrapSOCKSAddr && values[3] == r.hostname;
      assert values[4] == r.stateDir && values[5] == r.localAddr && values[6] == r.healthAddr;
    }
  }

  /** Configure replaces the runtime settings, and refuses key material in them. */
  lemma ConfigureComesTo(canon: Canon, d: Disk, name: string, target: string, controlURL: string, runtime: Runtime, force: bool)
    ensures var end := Complete(canon, State(Start(Configure(name, target, controlURL, runtime, force)), d));
            if ConfigNamesSecret(controlURL, runtime) then end == Stop(d, KeyMaterial)
            else if TrimSpace(name) == "" then end == Stop(d, BlankName)
            else if NamesSecret(target) then end == Stop(d, KeyMaterial)
            else WritesProfile(canon, d, end, name, target, controlURL, runtime, force)
  {
    var request := Configure(name, target, controlURL, runtime, force);
    ConfiguredSecret(controlURL, runtime);
    SecretPrefixes(target);
    CompleteSteps(canon, State(Start(request), d));
    if !ConfigNamesSecret(controlURL, runtime) && TrimSpace(name) != "" && !NamesSecret(target) {
      PutComesTo(canon, d, request, name, target, controlURL, Some(runtime), force);
    }
  }

  /** Where a profile write can be, with faults: nothing written, or all of it. */
  lemma {:induction false} PutIsWhole(canon: Canon, d: Disk, request: Request, faults: seq<bool>)
    requires request.Import? || request.Set? || request.Configure?
    ensures var s := Profiles.Run(canon, State(Start(request), d), faults);
            var end := Complete(canon, State(Start(request), d));
            && (s.disk == d || s == end)
            && (s.pc.Finished? && s.pc.result.Done? ==> s == end)
  {
    var start := State(Start(request), d);
    if faults != [] {
      var second := Step(canon, start, faults[0]);
      CompleteSteps(canon, start);
      FaultFails(canon, d, request);
      if second.pc.Saving? {
        CompleteSteps(canon, second);
        if |faults| > 1 {
          EndStays(canon, Step(canon, second, faults[1]), faults[1..][1..]);
        }
      } else {
        EndStays(canon, second, faults[1..]);
      }
    }
  }

  lemma FaultFails(canon: Canon, d: Disk, request: Request)
    requires request.Import? || request.Set? || request.Configure?
    ensures var pc := StartStep(canon, request, d, false); pc.Saving? || (pc.Finished? && pc.result.Failed?)
    ensures var pc := StartStep(canon, request, d, true); pc.Finished? && pc.result.Failed?
  {}

  lemma {:induction false} EndStays(canon: Canon, s: State, faults: seq<bool>)
    requires s.pc.Finished?
    ensures Profiles.Run(canon, s, faults) == s
    decreases faults
  {
    if faults != [] {
      EndStays(canon, s, faults[1..]);
    }
  }

  /** Clear empties the reference of the profile named, and nothing else. */
  lemma ClearComesTo(canon: Canon, d: Disk, profile: string)
    ensures Complete(canon, State(Start(Clear(profile)), d))
         == if profile !in d.profiles then Stop(d, NoProfile(profile))
            else State(Finished(Done(Outcome.Cleared)), d.(profiles := d.profiles[profile := d.profiles[profile].(credential := "")]))
  {
    var start := State(Start(Clear(profile)), d);
    CompleteSteps(canon, start);
    CompleteSteps(canon, Step(canon, start, false));
  }

  // -------------------------------------------------------------------- removal

  lemma {:induction false} ClearsAll(canon: Canon, clear: seq<string>, outcome: Outcome, d: Disk)
    requires forall p | p in clear :: p in d.profiles
    ensures Complete(canon, State(ClearLoad(clear, outcome), d)).pc == Finished(Done(outcome))
    decreases clear
  {
    var loading := State(ClearLoad(clear, outcome), d);
    CompleteSteps(canon, loading);
    if clear != [] {
      assert clear[0] in clear && forall p | p in clear[1..] :: p in clear;
      var saving := Step(canon, loading, false);
      CompleteSteps(canon, saving);
      ClearsAll(canon, clear[1..], outcome, d.(profiles := WithCredential(d.profiles, clear[0], "")));
    }
  }

  /** The clear of the one profile a removal names. */
  lemma ClearsOne(canon: Canon, profile: string, outcome: Outcome, d: Disk)
    ensures Complete(canon, State(ClearLoad([profile], outcome), d)).pc
         == Finished(if profile in d.profiles then Done(outcome) else Failed(NoProfile(profile)))
  {
    CompleteSteps(canon, State(ClearLoad([profile], outcome), d));
    if profile in d.profiles {
      ClearsAll(canon, [profile], outcome, d);
    }
  }

  /** Why no credential is selected. */
  lemma NothingSelected(canon: Canon, d: Disk, r: Removal)
    requires Selected(d, r) == None
    ensures Complete(canon, State(Start(Unbind(r)), d))
         == Stop(d, if r.profile !in d.profiles then NoProfile(r.profile) else NoCredential)
  {
    CompleteSteps(canon, State(Start(Unbind(r)), d));
  }

  lemma RemovalListed(canon: Canon, d: Disk, r: Removal, name: string)
    requires Selected(d, r) == Some(name)
    ensures Complete(canon, State(Start(Unbind(r)), d)) == Complete(canon, State(ListStep(r, name, d, false), d))
  {
    var start := State(Start(Unbind(r)), d);
    CompleteSteps(canon, start);
    assert Step(canon, start, false) == State(UnbindList(r, name), d);
    CompleteSteps(canon, State(UnbindList(r, name), d));
  }

  lemma ManyReferences(d: Disk, name: string)
    ensures |References(d.profiles, name)| == |ReferencedBy(d.profiles, name)|
    ensures forall p | p in References(d.profiles, name) :: p in d.profiles
  {
  }

  /** A removal through a profile: others still use the key and only the reference
      goes, or the key goes with it. */
  lemma ThroughProfileComesTo(canon: Canon, d: Disk, r: Removal, name: string)
    requires Selected(d, r) == Some(name) && r.profile != ""
    ensures var pc := Complete(canon, State(Start(Unbind(r)), d)).pc;
            var users := |ReferencedBy(d.profiles, name)|;
            if users > 1 then pc == Finished(if r.profile in d.profiles then Done(Unlinked) else Failed(NoProfile(r.profile)))
            else if !IsValidName(name) then pc == Finished(Failed(BadCredentialName))
            else if name !in d.keys && users == 0 then pc == Finished(Failed(KeyMissing))
            else pc == Finished(if r.profile in d.profiles then Done(RemovedWithProfile) else Failed(NoProfile(r.profile)))
  {
    RemovalListed(canon, d, r, name);
    ManyReferences(d, name);
    var listed := State(ListStep(r, name, d, false), d);
    if |ReferencedBy(d.profiles, name)| > 1 {
      ClearsOne(canon, r.profile, Unlinked, d);
    } else {
      CompleteSteps(canon, listed);
      if IsValidName(name) && (name in d.keys || |ReferencedBy(d.profiles, name)| > 0) {
        ClearsOne(canon, r.profile, RemovedWithProfile, Step(canon, listed, false).disk);
      }
    }
  }

  /** A removal by name: refused while profiles use the key, unless it is forced;
      then the key and every reference go. */
  lemma ByNameComesTo(canon: Canon, d: Disk, r: Removal)
    requires r.profile == ""
    ensures var pc := Complete(canon, State(Start(Unbind(r)), d)).pc;
            var users := ReferencedBy(d.profiles, r.credential);
            if users != {} && !r.force then pc == Finished(Failed(Referenced(Sorted(users))))
            else if !IsValidName(r.credential) then pc == Finished(Failed(BadCredentialName))
            else if r.credential !in d.keys && users == {} then pc == Finished(Failed(KeyMissing))
            else pc == Finished(Done(Outcome.Removed))
  {
    var name, users := r.credential, ReferencedBy(d.profiles, r.credential);
    RemovalListed(canon, d, r, name);
    ManyReferences(d, name);
    if users == {} || r.force {
      RemovesByName(canon, d, name, References(d.profiles, name));
    }
  }

  lemma RemovesByName(canon: Canon, d: Disk, name: string, clear: seq<string>)
    requires forall p | p in clear :: p in d.profiles
    ensures Complete(canon, State(UnbindRemove(name, |clear| > 0, clear, Outcome.Removed), d)).pc
         == Finished(if !IsValidName(name) then Failed(BadCredentialName)
                     else if name !in d.keys && clear == [] then Failed(KeyMissing)
                     else Done(Outcome.Removed))
  {
    CompleteSteps(canon, State(UnbindRemove(name, |clear| > 0, clear, Outcome.Removed), d));
    if IsValidName(name) && (name in d.keys || clear != []) {
      RemovesThenClears(canon, d, name, clear);
    }
  }

  lemma RemovesThenClears(canon: Canon, d: Disk, name: string, clear: seq<string>)
    requires IsValidName(name) && (name in d.keys || clear != []) && forall p | p in clear :: p in d.profiles
    ensures var removed := RemoveStep(name, |clear| > 0, clear, Outcome.Removed, d, false);
            Complete(canon, removed).pc == Finished(Done(Outcome.Removed))
  {
    var removed := RemoveStep(name, |clear| > 0, clear, Outcome.Removed, d, false);
    if clear != [] {
      ClearsAll(canon, clear, Outcome.Removed, removed.disk);
    } else {
      CompleteSteps(canon, removed);
    }
  }
}
