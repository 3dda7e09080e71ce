/** A managed key never leaves the control plane it was issued for: every state
    every operation passes through, and every state a crash or a failed write
    leaves, keeps the references on the key's plane. */
module StorePlanes {
  import opened Text
  import opened NameOrder
  import opened Credentials
  import opened Profiles

  predicate Refers(profiles: Entries, p: string, credential: string) {
    p in profiles && credential != "" && profiles[p].credential == credential
  }

  /** Every profile that references a stored key is on the plane it was issued for. */
  ghost predicate KeysOnTheirPlane(canon: Canon, d: Disk) {
    forall p, c | Refers(d.profiles, p, c) && c in d.keys ::
      SamePlane(canon, d.keys[c].plane, d.profiles[p].controlURL)
  }

  /** Profiles that share a credential name are on one plane. */
  ghost predicate SharedOnOnePlane(canon: Canon, profiles: Entries) {
    forall p, q, c | Refers(profiles, p, c) && Refers(profiles, q, c) ::
      SamePlane(canon, profiles[p].controlURL, profiles[q].controlURL)
  }

  ghost predicate Consistent(canon: Canon, d: Disk) {
    KeysOnTheirPlane(canon, d) && SharedOnOnePlane(canon, d.profiles)
  }

  /** The key bound is on the plane of the profile and of every other one that
      references its name. */
  ghost predicate Checked(canon: Canon, b: Binding, d: Disk) {
    && b.profile in d.profiles && SamePlane(canon, d.profiles[b.profile].controlURL, b.controlURL)
    && forall other :: !Conflicts(canon, d.profiles, b.profile, b.credential, d.profiles[b.profile].controlURL, other)
  }

  /** The key that would be put back is on the plane of every profile that
      references its name. */
  ghost predicate Restores(canon: Canon, b: Binding, previous: Option<Previous>, d: Disk) {
    previous.Some? ==>
      forall p | Refers(d.profiles, p, b.credential) :: SamePlane(canon, previous.value.plane, d.profiles[p].controlURL)
  }

  /** What an operation knows between two file operations: the map it loaded is
      the one on disk, and the one it will write is as sound. */
  ghost predicate Knows(canon: Canon, s: State) {
    var d := s.disk;
    match s.pc
    case Saving(loaded, changed, _) => loaded == d.profiles && Consistent(canon, d.(profiles := changed))
    case BindShare(b) => b.profile in d.profiles && SamePlane(canon, d.profiles[b.profile].controlURL, b.controlURL)
    case BindRead(b) => Checked(canon, b, d)
    case BindStore(b, previous) => Checked(canon, b, d) && Restores(canon, b, previous, d)
    case BindLoad(b, previous) =>
      && Checked(canon, b, d) && Restores(canon, b, previous, d)
      && b.credential in d.keys && d.keys[b.credential].plane == b.controlURL
    case BindSave(b, previous, loaded, changed) =>
      loaded == d.profiles && Consistent(canon, d.(profiles := changed)) && Restores(canon, b, previous, d)
    case BindRestore(b, previous, _) => Restores(canon, b, previous, d)
    case ClearSave(_, loaded, changed, _) => loaded == d.profiles && Consistent(canon, d.(profiles := changed))
    case _ => true
  }

  ghost predicate Sound(canon: Canon, s: State) {
    Consistent(canon, s.disk) && Knows(canon, s)
  }

  // ------------------------------------------------------------ the writes

  lemma ClearedIsConsistent(canon: Canon, d: Disk, p: string)
    requires Consistent(canon, d) && p in d.profiles
    ensures Consistent(canon, d.(profiles := WithCredential(d.profiles, p, "")))
  {
    var changed := WithCredential(d.profiles, p, "");
    assert forall q, c | Refers(changed, q, c) :: Refers(d.profiles, q, c) && changed[q] == d.profiles[q];
  }

  /** A profile written keeps its credential only on the plane it was on. */
  lemma PutIsConsistent(canon: Canon, d: Disk, name: string, entry: Entry, existing: Entry, force: bool)
    requires Consistent(canon, d)
    requires existing == if name in d.profiles then d.profiles[name] else ZERO_ENTRY
    requires KeptCredential(canon, existing, entry.controlURL, force) == Some(entry.credential)
    ensures Consistent(canon, d.(profiles := d.profiles[name := entry]))
  {
    var changed := d.profiles[name := entry];
    forall q, c | Refers(changed, q, c)
      ensures Refers(d.profiles, q, c) && SamePlane(canon, changed[q].controlURL, d.profiles[q].controlURL)
    {}
    forall q, c | Refers(changed, q, c) && c in d.keys
      ensures SamePlane(canon, d.keys[c].plane, changed[q].controlURL)
    {
      assert Refers(d.profiles, q, c);
    }
    forall q, r, c | Refers(changed, q, c) && Refers(changed, r, c)
      ensures SamePlane(canon, changed[q].controlURL, changed[r].controlURL)
    {
      assert Refers(d.profiles, q, c) && Refers(d.profiles, r, c);
    }
  }

  lemma AssociatedIsConsistent(canon: Canon, d: Disk, b: Binding)
    requires Consistent(canon, d) && Checked(canon, b, d)
    requires b.credential in d.keys && d.keys[b.credential].plane == b.controlURL
    ensures Consistent(canon, d.(profiles := WithCredential(d.profiles, b.profile, b.credential)))
  {
    var changed := WithCredential(d.profiles, b.profile, b.credential);
    forall q, c | Refers(changed, q, c)
      ensures (q == b.profile && c == b.credential) || (Refers(d.profiles, q, c) && q != b.profile)
      ensures changed[q].controlURL == d.profiles[q].controlURL
    {}
    forall q, c | Refers(changed, q, c) && c == b.credential
      ensures SamePlane(canon, changed[q].controlURL, b.controlURL)
    {
      assert !Conflicts(canon, d.profiles, b.profile, b.credential, d.profiles[b.profile].controlURL, q);
    }
    forall q, r, c | Refers(changed, q, c) && Refers(changed, r, c)
      ensures SamePlane(canon, changed[q].controlURL, changed[r].controlURL)
    {
      if c != b.credential {
        assert Refers(d.profiles, q, c) && Refers(d.profiles, r, c);
      }
    }
  }

  lemma StoredIsConsistent(canon: Canon, d: Disk, b: Binding, content: Option<string>)
    requires Consistent(canon, d) && Checked(canon, b, d)
    ensures Consistent(canon, d.(keys := d.keys[b.credential := KeyFile(content, b.controlURL)]))
  {
    forall p | Refers(d.profiles, p, b.credential)
      ensures SamePlane(canon, b.controlURL, d.profiles[p].controlURL)
    {
      assert !Conflicts(canon, d.profiles, b.profile, b.credential, d.profiles[b.profile].controlURL, p);
    }
  }

  lemma RestoredIsConsistent(canon: Canon, d: Disk, b: Binding, p: Previous, content: Option<string>)
    requires Consistent(canon, d) && Restores(canon, b, Some(p), d)
    ensures Consistent(canon, d.(keys := d.keys[b.credential := KeyFile(content, p.plane)]))
  {}

  lemma RemovedIsConsistent(canon: Canon, d: Disk, name: string)
    requires Consistent(canon, d)
    ensures Consistent(canon, d.(keys := d.keys - {name}))
  {}

  // ------------------------------------------------------------- the steps

  lemma PutIsSound(canon: Canon, name: string, target: string, controlURL: string, runtime: Option<Runtime>, force: bool, d: Disk, fault: bool)
    requires Consistent(canon, d)
    ensures Sound(canon, State(PutStep(canon, name, target, controlURL, runtime, force, d, fault), d))
  {
    var existing := if name in d.profiles then d.profiles[name] else ZERO_ENTRY;
    if !fault && KeptCredential(canon, existing, controlURL, force).Some? {
      var entry := Entry(target, controlURL, KeptCredential(canon, existing, controlURL, force).value,
                         if runtime.Some? then runtime.value else existing.runtime);
      PutIsConsistent(canon, d, name, entry, existing, force);
    }
  }

  lemma ClearIsSound(canon: Canon, clear: seq<string>, outcome: Outcome, d: Disk, fault: bool)
    requires Consistent(canon, d)
    ensures Sound(canon, State(ClearStep(clear, outcome, d, fault), d))
  {
    if clear != [] && clear[0] in d.profiles {
      ClearedIsConsistent(canon, d, clear[0]);
    }
  }

  lemma StartIsSound(canon: Canon, request: Request, d: Disk, fault: bool)
    requires Consistent(canon, d)
    ensures Sound(canon, State(StartStep(canon, request, d, fault), d))
  {
    match request
    case Import(name, target, controlURL, force) => PutIsSound(canon, name, target, controlURL, None, force, d, fault);
    case Set(name, target, controlURL) => PutIsSound(canon, name, target, controlURL, None, false, d, fault);
    case Configure(name, target, controlURL, runtime, force) =>
      PutIsSound(canon, name, target, controlURL, Some(runtime), force, d, fault);
    case Clear(profile) => ClearIsSound(canon, [profile], Cleared, d, fault);
    case Bind(_) =>
    case Unbind(_) =>
  }

  lemma BindReadIsSound(canon: Canon, s: State, fault: bool)
    requires Sound(canon, s) && s.pc.BindRead?
    ensures Sound(canon, Step(canon, s, fault))
  {
    var pc := ReadStep(s.pc.binding, s.disk, fault);
    if pc.BindStore? && pc.previous.Some? {
      var b := s.pc.binding;
      assert b.credential in s.disk.keys && pc.previous.value.plane == s.disk.keys[b.credential].plane;
    }
  }

  lemma BindStoreIsSound(canon: Canon, b: Binding, previous: Option<Previous>, d: Disk, fault: bool)
    requires Sound(canon, State(BindStore(b, previous), d))
    ensures Sound(canon, StoreStep(b, previous, d, fault))
  {
    StoredIsConsistent(canon, d, b, NormalizeKey(b.key));
  }

  lemma BindSaveIsSound(canon: Canon, s: State, fault: bool)
    requires Sound(canon, s) && s.pc.BindSave?
    ensures Sound(canon, Step(canon, s, fault))
  {
    var d, changed := s.disk, s.pc.changed;
    assert Consistent(canon, d.(profiles := changed));
    assert Step(canon, s, fault).disk == if fault then d else d.(profiles := changed);
  }

  lemma BindRestoreIsSound(canon: Canon, b: Binding, previous: Option<Previous>, cause: Restorable, d: Disk, fault: bool)
    requires Sound(canon, State(BindRestore(b, previous, cause), d))
    ensures Sound(canon, RestoreStep(b, previous, cause, d, fault))
  {
    RemovedIsConsistent(canon, d, b.credential);
    if previous.Some? {
      RestoredIsConsistent(canon, d, b, previous.value, NormalizeKey(previous.value.key));
    }
  }

  lemma BindLoadIsSound(canon: Canon, s: State, fault: bool)
    requires Sound(canon, s) && s.pc.BindLoad?
    ensures Sound(canon, Step(canon, s, fault))
  {
    AssociatedIsConsistent(canon, s.disk, s.pc.binding);
  }

  lemma NextIsSound(canon: Canon, clear: seq<string>, outcome: Outcome, d: Disk)
    requires Consistent(canon, d)
    ensures Sound(canon, State(ClearNext(clear, outcome), d))
  {}

  lemma SavingIsSound(canon: Canon, s: State, fault: bool)
    requires Sound(canon, s) && s.pc.Saving?
    ensures Sound(canon, Step(canon, s, fault))
  {}

  lemma ClearSaveIsSound(canon: Canon, s: State, fault: bool)
    requires Consistent(canon, s.disk) && s.pc.ClearSave? && Consistent(canon, s.disk.(profiles := s.pc.changed))
    ensures Sound(canon, Step(canon, s, fault))
  {
    NextIsSound(canon, s.pc.clear, s.pc.outcome, s.disk.(profiles := s.pc.changed));
  }

  lemma ListIsSound(canon: Canon, r: Removal, name: string, d: Disk, fault: bool)
    requires Consistent(canon, d)
    ensures Sound(canon, State(ListStep(r, name, d, fault), d))
  {}

  lemma BindShareIsSound(canon: Canon, b: Binding, d: Disk, fault: bool)
    requires Sound(canon, State(BindShare(b), d))
    ensures Sound(canon, State(ShareStep(canon, b, d, fault), d))
  {}

  lemma RemoveIsSound(canon: Canon, name: string, dangling: bool, clear: seq<string>, outcome: Outcome, d: Disk, fault: bool)
    requires Consistent(canon, d)
    ensures Sound(canon, RemoveStep(name, dangling, clear, outcome, d, fault))
  {
    RemovedIsConsistent(canon, d, name);
    NextIsSound(canon, clear, outcome, d.(keys := d.keys - {name}));
    NextIsSound(canon, clear, outcome, d);
  }

  /** Every file operation, failed or not, keeps the store sound. */
  lemma StepKeepsSound(canon: Canon, s: State, fault: bool)
    requires Sound(canon, s)
    ensures Sound(canon, Step(canon, s, fault))
  {
    match s.pc
    case Start(request) => StartIsSound(canon, request, s.disk, fault);
    case BindShare(b) => BindShareIsSound(canon, b, s.disk, fault);
    case UnbindRemove(name, dangling, clear, outcome) => RemoveIsSound(canon, name, dangling, clear, outcome, s.disk, fault);
    case BindRead(_) => BindReadIsSound(canon, s, fault);
    case BindStore(b, previous) => BindStoreIsSound(canon, b, previous, s.disk, fault);
    case BindSave(_, _, _, _) => BindSaveIsSound(canon, s, fault);
    case BindRestore(b, previous, cause) => BindRestoreIsSound(canon, b, previous, cause, s.disk, fault);
    case BindLoad(_, _) => BindLoadIsSound(canon, s, fault);
    case ClearLoad(clear, outcome) => ClearIsSound(canon, clear, outcome, s.disk, fault);
    case Saving(_, _, _) => SavingIsSound(canon, s, fault);
    case ClearSave(_, _, _, _) => ClearSaveIsSound(canon, s, fault);
    case UnbindList(r, name) => ListIsSound(canon, r, name, s.disk, fault);
    case Finished(_) =>
  }

  /** However far an operation gets and whichever of its file operations fail,
      the disk it leaves has every reference on the key's own plane. */
  lemma {:induction false} RunKeepsSound(canon: Canon, s: State, faults: seq<bool>)
    requires Sound(canon, s)
    ensures Sound(canon, Run(canon, s, faults))
    decreases faults
  {
    if faults != [] {
      StepKeepsSound(canon, s, faults[0]);
      RunKeepsSound(canon, Step(canon, s, faults[0]), faults[1..]);
    }
  }
}
