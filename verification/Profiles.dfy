/** The profile store and the credential store as one disk, and each operation
    as the file reads and whole-file writes it makes under the store lock. */
module Profiles {
  import opened Text
  import opened NameOrder
  import opened Credentials

  datatype Runtime = Runtime(
    bootstrapSSH: string, bootstrapSOCKSAddr: string, hostname: string, stateDir: string, localAddr: string, healthAddr: string)

  datatype Entry = Entry(target: string, controlURL: string, credential: string, runtime: Runtime)

  const ZERO_ENTRY := Entry("", "", "", Runtime("", "", "", "", "", ""))

  type Entries = map<string, Entry>

  datatype Disk = Disk(profiles: Entries, keys: Keys)

  // -------------------------------------------------------------- control URLs

  /** How net/url prints a URL once scheme, host and default port are normalised. */
  type Canon = string -> string

  /** normalizeControlURL. */
  function Normalize(canon: Canon, raw: string): string {
    canon(TrimRightOf(TrimSpace(raw), {'/'}))
  }

  /** SameControlURL: two control URLs name one plane. */
  predicate SamePlane(canon: Canon, a: string, b: string) {
    Normalize(canon, a) == Normalize(canon, b)
  }

  /** Surrounding space and a trailing slash do not matter. */
  lemma SpaceAndSlashNameOnePlane(canon: Canon, url: string)
    ensures SamePlane(canon, TrimSpace(url), url)
    ensures SamePlane(canon, TrimSpace(url) + "/", url)
  {
    var t := TrimSpace(url);
    TrimSpaceTrims(url);
    TrimmedIsFixed(t);
    TrimmedIsFixed(t + "/");
    assert (t + "/")[..|t|] == t;
  }

  // ------------------------------------------------------------------ requests

  /** BindCredential's request: controlURL is the profile's as its caller read it,
      the plane the key is for. */
  datatype Binding = Binding(profile: string, credential: string, key: string, replace: bool, controlURL: string)

  /** UnbindCredential's: by credential name, or through a profile. */
  datatype Removal = Removal(credential: string, profile: string, force: bool)

  datatype Request =
    | Import(name: string, target: string, controlURL: string, force: bool)
    | Set(name: string, target: string, controlURL: string)
    | Configure(name: string, target: string, controlURL: string, runtime: Runtime, force: bool)
    | Clear(profile: string)
    | Bind(binding: Binding)
    | Unbind(removal: Removal)

  datatype Outcome = Written(cleared: bool) | Cleared | Bound | Unlinked | RemovedWithProfile | Removed

  datatype Error =
    | IO
    | NoProfile(profile: string)
    | BlankName
    | KeyMaterial
    | PlaneChange(credential: string)
    | PlaneMoved
    | NeedsControlURL
    | Shared(other: string)
    | BadCredentialName
    | BadKey
    | KeyExists
    | KeyUnreadable
    | NoCredential
    | Referenced(names: seq<string>)
    | KeyMissing
    | Restored(cause: Restorable)
    | NotRestored(cause: Restorable)

  /** Why an association failed after its key was stored. */
  datatype Restorable = AssociationIO | AssociationRefused

  datatype Result = Done(outcome: Outcome) | Failed(error: Error)

  // ------------------------------------------------------- the decisions made

  const SECRET_PREFIXES := ["tskey-", "hskey-"]

  predicate HoldsKeyMaterial(value: string) {
    exists prefix | prefix in SECRET_PREFIXES :: Contains(value, prefix)
  }

  predicate AnyHoldsKeyMaterial(values: seq<string>) {
    exists value | value in values :: HoldsKeyMaterial(value)
  }

  /** bindCredential: the credential a profile keeps on controlURL, None when the
      change is refused. */
  function KeptCredential(canon: Canon, existing: Entry, controlURL: string, force: bool): Option<string> {
    if existing.credential == "" || SamePlane(canon, existing.controlURL, controlURL) then Some(existing.credential)
    else if !force then None
    else Some("")
  }

  predicate Conflicts(canon: Canon, profiles: Entries, profile: string, credential: string, controlURL: string, other: string) {
    && other in profiles && other != profile
    && profiles[other].credential == credential
    && !SamePlane(canon, profiles[other].controlURL, controlURL)
  }

  /** sharedConflict: the first other profile, in name order, that references the
      credential on another plane. */
  function SharedConflict(canon: Canon, profiles: Entries, profile: string, credential: string, controlURL: string): (r: Option<string>)
    ensures r.Some? ==> Conflicts(canon, profiles, profile, credential, controlURL, r.value)
    ensures r.None? <==> forall other :: !Conflicts(canon, profiles, profile, credential, controlURL, other)
  {
    FirstConflict(canon, profiles, profile, credential, controlURL, Sorted(profiles.Keys))
  }

  /** The conflict found comes before every other one. */
  lemma ConflictIsLeast(canon: Canon, profiles: Entries, profile: string, credential: string, controlURL: string)
    ensures match SharedConflict(canon, profiles, profile, credential, controlURL)
            case None => true
            case Some(least) =>
              forall other | Conflicts(canon, profiles, profile, credential, controlURL, other) :: other == least || Before(least, other)
  {
    SortedIsIncreasing(profiles.Keys);
    FirstConflictIsLeast(canon, profiles, profile, credential, controlURL, Sorted(profiles.Keys));
  }

  lemma {:induction false} FirstConflictIsLeast(canon: Canon, profiles: Entries, profile: string, credential: string, controlURL: string, names: seq<string>)
    requires forall i, j | 0 <= i < j < |names| :: Before(names[i], names[j])
    ensures match FirstConflict(canon, profiles, profile, credential, controlURL, names)
            case None => true
            case Some(least) =>
              forall other | other in names && Conflicts(canon, profiles, profile, credential, controlURL, other) ::
                other == least || Before(least, other)
    decreases names
  {
    if names != [] {
      FirstConflictIsLeast(canon, profiles, profile, credential, controlURL, names[1..]);
    }
  }

  function FirstConflict(canon: Canon, profiles: Entries, profile: string, credential: string, controlURL: string, names: seq<string>): (r: Option<string>)
    ensures r.Some? ==> Conflicts(canon, profiles, profile, credential, controlURL, r.value)
    ensures r.None? <==> forall other | other in names :: !Conflicts(canon, profiles, profile, credential, controlURL, other)
    decreases names
  {
    if names == [] then None
    else if Conflicts(canon, profiles, profile, credential, controlURL, names[0]) then Some(names[0])
    else FirstConflict(canon, profiles, profile, credential, controlURL, names[1..])
  }

  /** checkBinding. */
  function BindingRefusal(canon: Canon, b: Binding, entry: Entry): Option<Error> {
    if !SamePlane(canon, entry.controlURL, b.controlURL) then Some(PlaneMoved)
    else if HasPrefix(b.key, "hskey-") && entry.controlURL == "" then Some(NeedsControlURL)
    else None
  }

  function ReferencedBy(profiles: Entries, credential: string): set<string> {
    set p | p in profiles && profiles[p].credential == credential
  }

  /** referencesTo. */
  function References(profiles: Entries, credential: string): seq<string> {
    Sorted(ReferencedBy(profiles, credential))
  }

  function WithCredential(profiles: Entries, profile: string, credential: string): Entries
    requires profile in profiles
  {
    profiles[profile := profiles[profile].(credential := credential)]
  }

  // --------------------------------------------------------------- the machine

  /** What a stored key was before Bind replaced it: None for no usable key. */
  datatype Previous = Previous(key: string, plane: string)

  /** Where an operation is between two file operations. loaded is the profile
      map it read, changed the one it is about to write. */
  datatype Pc =
    | Start(request: Request)
    | Saving(loaded: Entries, changed: Entries, outcome: Outcome)
    | BindShare(binding: Binding)
    | BindRead(binding: Binding)
    | BindStore(binding: Binding, previous: Option<Previous>)
    | BindLoad(binding: Binding, previous: Option<Previous>)
    | BindSave(binding: Binding, previous: Option<Previous>, loaded: Entries, changed: Entries)
    | BindRestore(binding: Binding, previous: Option<Previous>, cause: Restorable)
    | UnbindList(removal: Removal, name: string)
    | UnbindRemove(name: string, dangling: bool, clear: seq<string>, outcome: Outcome)
    | ClearLoad(clear: seq<string>, outcome: Outcome)
    | ClearSave(clear: seq<string>, loaded: Entries, changed: Entries, outcome: Outcome)
    | Finished(result: Result)

  datatype State = State(pc: Pc, disk: Disk)

  function Stop(d: Disk, error: Error): State {
    State(Finished(Failed(error)), d)
  }

  /** One file operation: fault says that it fails, and then changes nothing. */
  function Step(canon: Canon, s: State, fault: bool): State {
    var d := s.disk;
    match s.pc
    case Start(request) => State(StartStep(canon, request, d, fault), d)
    case Saving(_, changed, outcome) =>
      if fault then Stop(d, IO) else State(Finished(Done(outcome)), d.(profiles := changed))
    case BindShare(b) => State(ShareStep(canon, b, d, fault), d)
    case BindRead(b) => State(ReadStep(b, d, fault), d)
    case BindStore(b, previous) => StoreStep(b, previous, d, fault)
    case BindLoad(b, previous) => State(AssociateStep(canon, b, previous, d, fault), d)
    case BindSave(b, previous, _, changed) =>
      if fault then State(BindRestore(b, previous, AssociationIO), d)
      else State(Finished(Done(Bound)), d.(profiles := changed))
    case BindRestore(b, previous, cause) => RestoreStep(b, previous, cause, d, fault)
    case UnbindList(r, name) => State(ListStep(r, name, d, fault), d)
    case UnbindRemove(name, dangling, clear, outcome) => RemoveStep(name, dangling, clear, outcome, d, fault)
    case ClearLoad(clear, outcome) => State(ClearStep(clear, outcome, d, fault), d)
    case ClearSave(clear, _, changed, outcome) =>
      if fault then Stop(d, IO) else State(ClearNext(clear, outcome), d.(profiles := changed))
    case Finished(_) => s
  }

  function StartStep(canon: Canon, request: Request, d: Disk, fault: bool): Pc {
    match request
    case Import(name, target, controlURL, force) =>
      PutStep(canon, name, target, controlURL, None, force, d, fault)
    case Set(name, target, controlURL) =>
      SetStep(canon, name, target, controlURL, None, false, d, fault)
    case Configure(name, target, controlURL, runtime, force) =>
      if AnyHoldsKeyMaterial(Configured(controlURL, runtime)) then Finished(Failed(KeyMaterial))
      else SetStep(canon, name, target, controlURL, Some(runtime), force, d, fault)
    case Clear(profile) => ClearStep([profile], Cleared, d, fault)
    case Bind(b) =>
      if fault then Finished(Failed(IO))
      else if b.profile !in d.profiles then Finished(Failed(NoProfile(b.profile)))
      else if BindingRefusal(canon, b, d.profiles[b.profile]).Some? then
        Finished(Failed(BindingRefusal(canon, b, d.profiles[b.profile]).value))
      else BindShare(b)
    case Unbind(r) => TargetStep(r, d, fault)
  }

  /** The values Configure refuses key material in. */
  function Configured(controlURL: string, r: Runtime): seq<string> {
    [controlURL, r.bootstrapSSH, r.bootstrapSOCKSAddr, r.hostname, r.stateDir, r.localAddr, r.healthAddr]
  }

  /** setEntry, up to its write. */
  function SetStep(canon: Canon, name: string, target: string, controlURL: string, runtime: Option<Runtime>, force: bool, d: Disk, fault: bool): Pc {
    if TrimSpace(name) == "" then Finished(Failed(BlankName))
    else if HoldsKeyMaterial(target) then Finished(Failed(KeyMaterial))
    else PutStep(canon, name, target, controlURL, runtime, force, d, fault)
  }

  /** importEntry, up to its write. */
  function PutStep(canon: Canon, name: string, target: string, controlURL: string, runtime: Option<Runtime>, force: bool, d: Disk, fault: bool): Pc {
    if fault then Finished(Failed(IO))
    else
      var existing := if name in d.profiles then d.profiles[name] else ZERO_ENTRY;
      match KeptCredential(canon, existing, controlURL, force)
      case None => Finished(Failed(PlaneChange(existing.credential)))
      case Some(credential) =>
        var entry := Entry(target, controlURL, credential, if runtime.Some? then runtime.value else existing.runtime);
        Saving(d.profiles, d.profiles[name := entry], Written(credential != existing.credential))
  }

  /** CheckCredentialShare. */
  function ShareStep(canon: Canon, b: Binding, d: Disk, fault: bool): (pc: Pc)
    ensures pc.Finished? || pc == BindRead(b)
  {
    if fault then Finished(Failed(IO))
    else if b.profile !in d.profiles then Finished(Failed(NoProfile(b.profile)))
    else
      match SharedConflict(canon, d.profiles, b.profile, b.credential, d.profiles[b.profile].controlURL)
      case Some(other) => Finished(Failed(Shared(other)))
      case None => BindRead(b)
  }

  /** The read of the key that Bind would have to put back. */
  function ReadStep(b: Binding, d: Disk, fault: bool): (pc: Pc)
    ensures pc.Finished? || (pc.BindStore? && pc.binding == b)
  {
    match Get(d.keys, b.credential)
    case BadName => BindStore(b, None)
    case CannotRead => Finished(Failed(KeyUnreadable))
    case NotFound => if fault then Finished(Failed(KeyUnreadable)) else BindStore(b, None)
    case Invalid => if fault then Finished(Failed(KeyUnreadable)) else BindStore(b, None)
    case Key(key) =>
      if fault then Finished(Failed(KeyUnreadable)) else BindStore(b, Some(Previous(key, d.keys[b.credential].plane)))
  }

  /** creds.Set of the new key. */
  function StoreStep(b: Binding, previous: Option<Previous>, d: Disk, fault: bool): State {
    if !IsValidName(b.credential) then Stop(d, BadCredentialName)
    else if NormalizeKey(b.key) == None then Stop(d, BadKey)
    else if fault then Stop(d, IO)
    else if !b.replace && b.credential in d.keys then Stop(d, KeyExists)
    else State(BindLoad(b, previous), d.(keys := d.keys[b.credential := KeyFile(NormalizeKey(b.key), b.controlURL)]))
  }

  /** associate, up to its write. */
  function AssociateStep(canon: Canon, b: Binding, previous: Option<Previous>, d: Disk, fault: bool): (pc: Pc)
    ensures pc.BindRestore? || pc.BindSave?
  {
    if !IsValidName(b.credential) then BindRestore(b, previous, AssociationRefused)
    else if fault then BindRestore(b, previous, AssociationIO)
    else if b.profile !in d.profiles then BindRestore(b, previous, AssociationRefused)
    else if SharedConflict(canon, d.profiles, b.profile, b.credential, d.profiles[b.profile].controlURL).Some? then
      BindRestore(b, previous, AssociationRefused)
    else BindSave(b, previous, d.profiles, WithCredential(d.profiles, b.profile, b.credential))
  }

  /** restore: the previous key back in place, or no key. */
  function RestoreStep(b: Binding, previous: Option<Previous>, cause: Restorable, d: Disk, fault: bool): State {
    if fault then Stop(d, NotRestored(cause))
    else
      match previous
      case Some(p) =>
        if !IsValidName(b.credential) || NormalizeKey(p.key) == None then Stop(d, NotRestored(cause))
        else Stop(d.(keys := d.keys[b.credential := KeyFile(NormalizeKey(p.key), p.plane)]), Restored(cause))
      case None =>
        if !IsValidName(b.credential) || b.credential !in d.keys then Stop(d, NotRestored(cause))
        else Stop(d.(keys := d.keys - {b.credential}), Restored(cause))
  }

  /** removalTarget. */
  function TargetStep(r: Removal, d: Disk, fault: bool): Pc {
    if r.credential != "" || r.profile == "" then UnbindList(r, r.credential)
    else if fault then Finished(Failed(IO))
    else if r.profile !in d.profiles then Finished(Failed(NoProfile(r.profile)))
    else if d.profiles[r.profile].credential == "" then Finished(Failed(NoCredential))
    else UnbindList(r, d.profiles[r.profile].credential)
  }

  /** referencesTo, and the choice removeReferenced makes. */
  function ListStep(r: Removal, name: string, d: Disk, fault: bool): Pc {
    if fault then Finished(Failed(IO))
    else
      var references := References(d.profiles, name);
      if r.profile != "" then
        if |references| > 1 then ClearLoad([r.profile], Unlinked)
        else UnbindRemove(name, |references| > 0, [r.profile], RemovedWithProfile)
      else if |references| > 0 && !r.force then Finished(Failed(Referenced(references)))
      else UnbindRemove(name, |references| > 0, references, Removed)
  }

  /** removeKey. */
  function RemoveStep(name: string, dangling: bool, clear: seq<string>, outcome: Outcome, d: Disk, fault: bool): State {
    if !IsValidName(name) then Stop(d, BadCredentialName)
    else if fault then Stop(d, IO)
    else if name in d.keys then State(ClearNext(clear, outcome), d.(keys := d.keys - {name}))
    else if dangling then State(ClearNext(clear, outcome), d)
    else Stop(d, KeyMissing)
  }

  function ClearNext(clear: seq<string>, outcome: Outcome): Pc {
    if clear == [] then Finished(Done(outcome)) else ClearLoad(clear, outcome)
  }

  /** updateCredential of the first name left, up to its write. */
  function ClearStep(clear: seq<string>, outcome: Outcome, d: Disk, fault: bool): Pc {
    if clear == [] then Finished(Done(outcome))
    else if fault then Finished(Failed(IO))
    else if clear[0] !in d.profiles then Finished(Failed(NoProfile(clear[0])))
    else ClearSave(clear[1..], d.profiles, WithCredential(d.profiles, clear[0], ""), outcome)
  }

  // ---------------------------------------------------------------------- runs

  /** The state after one file operation per element of faults: shorter than an
      operation needs, it is the state a crash leaves. */
  function Run(canon: Canon, s: State, faults: seq<bool>): State
    decreases faults
  {
    if faults == [] then s else Run(canon, Step(canon, s, faults[0]), faults[1..])
  }

  lemma {:induction false} RunOfConcat(canon: Canon, s: State, a: seq<bool>, b: seq<bool>)
    ensures Run(canon, s, a + b) == Run(canon, Run(canon, s, a), b)
    decreases |a|
  {
    if a == [] {
      assert a + b == b;
    } else {
      assert (a + b)[0] == a[0] && (a + b)[1..] == a[1..] + b;
      RunOfConcat(canon, Step(canon, s, a[0]), a[1..], b);
    }
  }

  lemma OneMoreStep(canon: Canon, s: State, faults: seq<bool>, fault: bool)
    ensures Run(canon, s, faults + [fault]) == Step(canon, Run(canon, s, faults), fault)
  {
    RunOfConcat(canon, s, faults, [fault]);
    var t := Run(canon, s, faults);
    assert Run(canon, Step(canon, t, fault), [fault][1..]) == Step(canon, t, fault);
  }

  /** More file operations than are left. */
  function Rank(s: State): nat {
    match s.pc
    case Finished(_) => 0
    case Saving(_, _, _) => 1
    case BindRestore(_, _, _) => 1
    case BindSave(_, _, _, _) => 2
    case BindLoad(_, _) => 3
    case BindStore(_, _) => 4
    case BindRead(_) => 5
    case BindShare(_) => 6
    case ClearLoad(clear, _) => 2 * |clear| + 1
    case ClearSave(clear, _, _, _) => 2 * |clear| + 2
    case UnbindRemove(_, _, clear, _) => 2 * |clear| + 2
    case UnbindList(_, _) => 2 * |s.disk.profiles| + 5
    case Start(_) => 2 * |s.disk.profiles| + 9
  }

  /** Every file operation brings the end nearer, failed or not. */
  lemma StepsEnd(canon: Canon, s: State, fault: bool)
    requires !s.pc.Finished?
    ensures Rank(Step(canon, s, fault)) < Rank(s)
  {
    match s.pc
    case Start(request) => StartEnds(canon, request, s.disk, fault);
    case UnbindList(r, name) => ListEnds(r, name, s.disk, fault);
    case ClearLoad(clear, outcome) => ClearEnds(clear, outcome, s.disk, fault);
    case BindShare(_) => BindCheckEnds(canon, s, fault);
    case BindRead(_) => BindReadEnds(canon, s, fault);
    case BindStore(_, _) => BindWriteEnds(canon, s, fault);
    case BindLoad(_, _) => BindLoadEnds(canon, s, fault);
    case BindSave(_, _, _, _) => BindWriteEnds(canon, s, fault);
    case BindRestore(_, _, _) => BindWriteEnds(canon, s, fault);
    case Saving(_, _, _) => OtherEnds(canon, s, fault);
    case UnbindRemove(_, _, _, _) => OtherEnds(canon, s, fault);
    case ClearSave(_, _, _, _) => OtherEnds(canon, s, fault);
  }

  lemma BindCheckEnds(canon: Canon, s: State, fault: bool)
    requires s.pc.BindShare?
    ensures Rank(Step(canon, s, fault)) < Rank(s)
  {
    BindCheckRank(State(ShareStep(canon, s.pc.binding, s.disk, fault), s.disk), s.pc.binding);
  }

  lemma BindCheckRank(s: State, b: Binding)
    requires s.pc.Finished? || s.pc == BindRead(b)
    ensures Rank(s) < 6
  {}

  lemma BindReadEnds(canon: Canon, s: State, fault: bool)
    requires s.pc.BindRead?
    ensures Rank(Step(canon, s, fault)) < Rank(s)
  {}

  lemma BindLoadEnds(canon: Canon, s: State, fault: bool)
    requires s.pc.BindLoad?
    ensures Rank(Step(canon, s, fault)) < Rank(s)
  {}

  lemma BindWriteEnds(canon: Canon, s: State, fault: bool)
    requires s.pc.BindStore? || s.pc.BindSave? || s.pc.BindRestore?
    ensures Rank(Step(canon, s, fault)) < Rank(s)
  {}

  lemma OtherEnds(canon: Canon, s: State, fault: bool)
    requires s.pc.Saving? || s.pc.UnbindRemove? || s.pc.ClearSave?
    ensures Rank(Step(canon, s, fault)) < Rank(s)
  {}

  lemma StartEnds(canon: Canon, request: Request, d: Disk, fault: bool)
    ensures Rank(State(StartStep(canon, request, d, fault), d)) < 2 * |d.profiles| + 9
  {}

  lemma ClearEnds(clear: seq<string>, outcome: Outcome, d: Disk, fault: bool)
    ensures Rank(State(ClearStep(clear, outcome, d, fault), d)) < 2 * |clear| + 1
  {}

  lemma ListEnds(r: Removal, name: string, d: Disk, fault: bool)
    ensures Rank(State(ListStep(r, name, d, fault), d)) < 2 * |d.profiles| + 5
  {
    assert ReferencedBy(d.profiles, name) <= d.profiles.Keys;
    FewerNames(ReferencedBy(d.profiles, name), d.profiles.Keys);
    assert |d.profiles.Keys| == |d.profiles|;
  }

  lemma FewerNames(a: set<string>, b: set<string>)
    requires a <= b
    ensures |a| <= |b|
  {
    assert b == a + (b - a);
  }

  /** The state an operation ends in when no file operation fails. */
  function Complete(canon: Canon, s: State): (end: State)
    ensures end.pc.Finished?
    decreases Rank(s)
  {
    if s.pc.Finished? then s
    else
      StepsEnd(canon, s, false);
      Complete(canon, Step(canon, s, false))
  }
}
