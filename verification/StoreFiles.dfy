/** The operations on the profile and credential files themselves, under the
    store lock: any read or write may fail. Each follows the machine of
    Profiles file operation by file operation. */
module StoreFiles {
  import opened Text
  import opened NameOrder
  import opened Credentials
  import opened Profiles

  /** The operation, begun on d, ended with the result and the disk given; no file
      operation failed where none can. */
  ghost predicate Ends(canon: Canon, d: Disk, request: Request, result: Result, now: Disk, flaky: bool) {
    EndsFrom(canon, State(Start(request), d), State(Finished(result), now), flaky)
  }

  ghost predicate EndsFrom(canon: Canon, start: State, end: State, flaky: bool) {
    exists faults :: Happens(faults, flaky) && Run(canon, start, faults) == end
  }

  predicate Happens(faults: seq<bool>, flaky: bool) {
    forall fault | fault in faults :: fault ==> flaky
  }

  class Stores {
    const canon: Canon
    const flaky: bool
    var profiles: Entries
    var keys: Keys

    constructor (canon: Canon, profiles: Entries, keys: Keys, flaky: bool)
      ensures this.canon == canon && this.flaky == flaky && Now() == Disk(profiles, keys)
    {
      this.canon := canon;
      this.flaky := flaky;
      this.profiles := profiles;
      this.keys := keys;
    }

    function Now(): Disk
      reads this
    {
      Disk(profiles, keys)
    }

    // ------------------------------------------------------- file operations

    /** load: None when the file cannot be read or parsed. */
    method Load() returns (loaded: Option<Entries>)
      ensures loaded == Some(profiles) || (loaded == None && flaky)
    {
      var fault: bool := *;
      loaded := if fault && flaky then None else Some(profiles);
    }

    /** save: the file is replaced whole, or left as it was. */
    method Save(changed: Entries) returns (ok: bool)
      modifies this
      ensures Now() == if ok then old(Now()).(profiles := changed) else old(Now())
      ensures ok || flaky
    {
      var fault: bool := *;
      ok := !(fault && flaky);
      if ok {
        profiles := changed;
      }
    }

    /** creds.Get; a read may fail by itself. */
    method GetKey(name: string) returns (read: KeyRead, ghost fault: bool)
      ensures fault ==> flaky && IsValidName(name)
      ensures read == if fault then CannotRead else Get(keys, name)
      ensures read == Get(keys, name) || (read.CannotRead? && flaky && IsValidName(name))
    {
      var broken: bool := *;
      fault := broken && flaky && IsValidName(name);
      read := if broken && flaky && IsValidName(name) then CannotRead else Get(keys, name);
    }

    /** creds.Set. */
    method SetKey(name: string, raw: string, replace: bool, plane: string) returns (error: Option<Error>, ghost fault: bool)
      modifies this
      ensures profiles == old(profiles) && (fault ==> flaky)
      ensures match error
              case None =>
                && !fault && IsValidName(name) && NormalizeKey(raw).Some? && (replace || name !in old(keys))
                && keys == old(keys)[name := KeyFile(NormalizeKey(raw), plane)]
              case Some(e) =>
                && keys == old(keys)
                && e == (if !IsValidName(name) then BadCredentialName
                         else if NormalizeKey(raw) == None then BadKey
                         else if fault then IO else KeyExists)
                && (e == KeyExists ==> !replace && name in keys)
    {
      var broken: bool := *;
      broken := broken && flaky;
      fault := broken;
      if !IsValidName(name) {
        return Some(BadCredentialName), fault;
      }
      var key := NormalizeKey(raw);
      if key == None {
        return Some(BadKey), fault;
      }
      if broken {
        return Some(IO), fault;
      }
      if !replace && name in keys {
        return Some(KeyExists), fault;
      }
      keys := keys[name := KeyFile(key, plane)];
      error := None;
    }

    /** creds.Remove. */
    method RemoveKey(name: string) returns (error: Option<Error>, ghost fault: bool)
      modifies this
      ensures profiles == old(profiles) && (fault ==> flaky)
      ensures match error
              case None => !fault && IsValidName(name) && name in old(keys) && keys == old(keys) - {name}
              case Some(e) =>
                && keys == old(keys)
                && e == (if !IsValidName(name) then BadCredentialName else if fault then IO else KeyMissing)
                && (e == KeyMissing ==> name !in keys)
    {
      var broken: bool := *;
      broken := broken && flaky;
      fault := broken;
      if !IsValidName(name) {
        return Some(BadCredentialName), fault;
      }
      if broken {
        return Some(IO), fault;
      }
      if name !in keys {
        return Some(KeyMissing), fault;
      }
      keys := keys - {name};
      error := None;
    }

    // ------------------------------------------------------------ decisions

    /** sharedConflict: the other profiles in name order. */
    method FindConflict(data: Entries, profile: string, credential: string, controlURL: string) returns (conflict: Option<string>)
      ensures conflict == SharedConflict(canon, data, profile, credential, controlURL)
      ensures conflict.Some? ==>
                forall other | Conflicts(canon, data, profile, credential, controlURL, other) ::
                  other == conflict.value || Before(conflict.value, other)
    {
      ConflictIsLeast(canon, data, profile, credential, controlURL);
      var names := Sorted(data.Keys);
      for i := 0 to |names|
        invariant SharedConflict(canon, data, profile, credential, controlURL)
               == FirstConflict(canon, data, profile, credential, controlURL, names[i..])
      {
        var other := names[i];
        assert other in data.Keys;
        if other != profile && data[other].credential == credential && !SamePlane(canon, data[other].controlURL, controlURL) {
          return Some(other);
        }
      }
      return None;
    }

    /** referencesTo: the profiles of a loaded map in any order, then sorted. */
    method ReferencesTo(data: Entries, name: string) returns (names: seq<string>)
      ensures names == References(data, name)
      ensures forall p :: p in names <==> p in data && data[p].credential == name
      ensures forall i, j | 0 <= i < j < |names| :: Before(names[i], names[j])
    {
      var left, found: set<string> := data.Keys, {};
      while left != {}
        invariant left <= data.Keys
        invariant forall p :: p in found <==> p in data && p !in left && data[p].credential == name
        decreases |left|
      {
        var p :| p in left;
        if data[p].credential == name {
          found := found + {p};
        }
        left := left - {p};
      }
      assert found == ReferencedBy(data, name);
      names := Sorted(found);
      SortedIsIncreasing(found);
    }

    // ------------------------------------------------------------ operations

    /** importEntry. */
    method ImportEntry(name: string, target: string, controlURL: string, force: bool) returns (result: Result)
      modifies this
      ensures Ends(canon, old(Now()), Import(name, target, controlURL, force), result, Now(), flaky)
    {
      ghost var request := Import(name, target, controlURL, force);
      result := Put(request, name, target, controlURL, None, force);
    }

    /** Set. */
    method SetEntry(name: string, target: string, controlURL: string) returns (result: Result)
      modifies this
      ensures Ends(canon, old(Now()), Set(name, target, controlURL), result, Now(), flaky)
    {
      ghost var request := Set(name, target, controlURL);
      if TrimSpace(name) == "" {
        Refused(canon, Now(), request, flaky, BlankName);
        return Failed(BlankName);
      }
      if HoldsKeyMaterial(target) {
        Refused(canon, Now(), request, flaky, KeyMaterial);
        return Failed(KeyMaterial);
      }
      result := Put(request, name, target, controlURL, None, false);
    }

    /** Configure. */
    method ConfigureEntry(name: string, target: string, controlURL: string, runtime: Runtime, force: bool) returns (result: Result)
      modifies this
      ensures Ends(canon, old(Now()), Configure(name, target, controlURL, runtime, force), result, Now(), flaky)
    {
      ghost var request := Configure(name, target, controlURL, runtime, force);
      if AnyHoldsKeyMaterial(Configured(controlURL, runtime)) {
        Refused(canon, Now(), request, flaky, KeyMaterial);
        return Failed(KeyMaterial);
      }
      if TrimSpace(name) == "" {
        Refused(canon, Now(), request, flaky, BlankName);
        return Failed(BlankName);
      }
      if HoldsKeyMaterial(target) {
        Refused(canon, Now(), request, flaky, KeyMaterial);
        return Failed(KeyMaterial);
      }
      result := Put(request, name, target, controlURL, Some(runtime), force);
    }

    /** Load, decide and save, as importEntry and setEntry share it. */
    method Put(ghost request: Request, name: string, target: string, controlURL: string, runtime: Option<Runtime>, force: bool)
      returns (result: Result)
      requires forall fault :: StartStep(canon, request, Now(), fault) == PutStep(canon, name, target, controlURL, runtime, force, Now(), fault)
      modifies this
      ensures Ends(canon, old(Now()), request, result, Now(), flaky)
    {
      ghost var start := State(Start(request), Now());
      var data := Load();
      if data == None {
        Refused(canon, Now(), request, flaky, IO);
        return Failed(IO);
      }
      var existing := if name in data.value then data.value[name] else ZERO_ENTRY;
      var credential := KeptCredential(canon, existing, controlURL, force);
      if credential == None {
        Refused(canon, Now(), request, flaky, PlaneChange(existing.credential));
        return Failed(PlaneChange(existing.credential));
      }
      var entry := Entry(target, controlURL, credential.value, if runtime.Some? then runtime.value else existing.runtime);
      var ok := Save(data.value[name := entry]);
      OneMoreStep(canon, start, [], false);
      OneMoreStep(canon, start, [false], !ok);
      result := if ok then Done(Written(credential.value != existing.credential)) else Failed(IO);
      assert Run(canon, start, [] + [false] + [!ok]) == State(Finished(result), Now());
    }

    /** updateCredential(profile, ""), with rest still to clear after it. */
    method ClearOne(profile: string, ghost rest: seq<string>, ghost outcome: Outcome) returns (error: Option<Error>, ghost faults: seq<bool>)
      modifies this
      ensures Run(canon, State(ClearLoad([profile] + rest, outcome), old(Now())), faults)
           == if error.Some? then Stop(Now(), error.value) else State(ClearNext(rest, outcome), Now())
      ensures faults != [] && Happens(faults, flaky)
    {
      ghost var start := State(ClearLoad([profile] + rest, outcome), Now());
      assert ([profile] + rest)[1..] == rest;
      var data := Load();
      OneMoreStep(canon, start, [], data == None);
      assert [] + [data == None] == [data == None];
      if data == None {
        return Some(IO), [true];
      }
      if profile !in data.value {
        return Some(NoProfile(profile)), [false];
      }
      var ok := Save(WithCredential(data.value, profile, ""));
      OneMoreStep(canon, start, [false], !ok);
      assert [false] + [!ok] == [false, !ok];
      return (if ok then None else Some(IO)), [false, !ok];
    }

    /** ClearCredential. */
    method ClearCredential(profile: string) returns (result: Result)
      modifies this
      ensures Ends(canon, old(Now()), Clear(profile), result, Now(), flaky)
    {
      ghost var d := Now();
      var error, faults := ClearOne(profile, [], Cleared);
      result := if error == None then Done(Cleared) else Failed(error.value);
      assert [profile] + [] == [profile];
      ClearIsClearLoad(canon, d, profile, faults);
      assert Run(canon, State(Start(Clear(profile)), d), faults) == State(Finished(result), Now());
    }

    /** CheckCredentialShare. */
    method CheckCredentialShare(b: Binding) returns (error: Option<Error>, ghost fault: bool)
      ensures fault ==> flaky
      ensures error == None ==>
                && b.profile in profiles
                && forall other :: !Conflicts(canon, profiles, b.profile, b.credential, profiles[b.profile].controlURL, other)
      ensures error.Some? && error.value.Shared? ==>
                && b.profile in profiles
                && Conflicts(canon, profiles, b.profile, b.credential, profiles[b.profile].controlURL, error.value.other)
      ensures ShareStep(canon, b, Now(), fault) == if error == None then BindRead(b) else Finished(Failed(error.value))
    {
      var data := Load();
      fault := data == None;
      if data == None {
        return Some(IO), fault;
      }
      if b.profile !in data.value {
        return Some(NoProfile(b.profile)), fault;
      }
      var conflict := FindConflict(data.value, b.profile, b.credential, data.value[b.profile].controlURL);
      error := if conflict.Some? then Some(Shared(conflict.value)) else None;
    }

    /** The profile re-read, and checkBinding. */
    method CheckBinding(b: Binding) returns (error: Option<Error>, ghost fault: bool)
      ensures fault ==> flaky
      ensures error == None ==>
                && b.profile in profiles && SamePlane(canon, profiles[b.profile].controlURL, b.controlURL)
                && (HasPrefix(b.key, "hskey-") ==> profiles[b.profile].controlURL != "")
      ensures error == Some(PlaneMoved) ==>
                b.profile in profiles && !SamePlane(canon, profiles[b.profile].controlURL, b.controlURL)
      ensures StartStep(canon, Bind(b), Now(), fault) == if error == None then BindShare(b) else Finished(Failed(error.value))
    {
      var data := Load();
      fault := data == None;
      if data == None {
        return Some(IO), fault;
      }
      if b.profile !in data.value {
        return Some(NoProfile(b.profile)), fault;
      }
      error := BindingRefusal(canon, b, data.value[b.profile]);
    }

    /** BindCredential. */
    method BindCredential(b: Binding) returns (result: Result)
      modifies this
      ensures Ends(canon, old(Now()), Bind(b), result, Now(), flaky)
    {
      ghost var start, faults: seq<bool> := State(Start(Bind(b)), Now()), [];
      var refused, broken := CheckBinding(b);
      OneMoreStep(canon, start, faults, broken);
      faults := faults + [broken];
      if refused.Some? {
        return Failed(refused.value);
      }
      refused, broken := CheckCredentialShare(b);
      OneMoreStep(canon, start, faults, broken);
      faults := faults + [broken];
      if refused.Some? {
        return Failed(refused.value);
      }
      assert Run(canon, start, faults) == State(BindRead(b), Now());
      result := ReplaceKey(b, start, faults);
    }

    /** BindCredential from its read of the key it replaces. */
    method ReplaceKey(b: Binding, ghost start: State, ghost before: seq<bool>) returns (result: Result)
      requires Happens(before, flaky) && Run(canon, start, before) == State(BindRead(b), Now())
      modifies this
      ensures EndsFrom(canon, start, State(Finished(result), Now()), flaky)
    {
      var read, broken := GetKey(b.credential);
      OneMoreStep(canon, start, before, broken);
      ghost var faults := before + [broken];
      if read.CannotRead? {
        return Failed(KeyUnreadable);
      }
      ghost var previous := if read.Key? then Some(Previous(read.key, keys[b.credential].plane)) else None;
      result := StoreAndAssociate(b, if read.Key? then Some(read.key) else None, start, faults, previous);
    }

    /** BindCredential from creds.Set on. */
    method StoreAndAssociate(b: Binding, replaced: Option<string>, ghost start: State, ghost before: seq<bool>, ghost previous: Option<Previous>)
      returns (result: Result)
      requires Happens(before, flaky) && Run(canon, start, before) == State(BindStore(b, previous), Now())
      requires match previous
               case None => replaced == None
               case Some(p) => replaced == Some(p.key) && b.credential in keys && keys[b.credential].plane == p.plane
      modifies this
      ensures EndsFrom(canon, start, State(Finished(result), Now()), flaky)
    {
      ghost var faults := before;
      // The plane is what the proofs keep of a key; no file records it.
      var oldPlane := if b.credential in keys then keys[b.credential].plane else "";
      var failed, broken := SetKey(b.credential, b.key, b.replace, b.controlURL);
      OneMoreStep(canon, start, faults, broken);
      faults := faults + [broken];
      if failed.Some? {
        return Failed(failed.value);
      }
      assert Run(canon, start, faults) == State(BindLoad(b, previous), Now());
      result := AssociateOrRestore(b, replaced, oldPlane, start, faults, previous);
    }

    /** BindCredential once the key is stored. */
    method AssociateOrRestore(b: Binding, replaced: Option<string>, oldPlane: string, ghost start: State, ghost before: seq<bool>, ghost previous: Option<Previous>)
      returns (result: Result)
      requires Happens(before, flaky) && Run(canon, start, before) == State(BindLoad(b, previous), Now())
      requires match previous
               case None => replaced == None
               case Some(p) => replaced == Some(p.key) && p.plane == oldPlane
      modifies this
      ensures EndsFrom(canon, start, State(Finished(result), Now()), flaky)
    {
      var cause, more := Associate(b, previous);
      RunOfConcat(canon, start, before, more);
      ghost var faults := before + more;
      if cause == None {
        return Done(Bound);
      }
      var unrestored, broken := Restore(b, replaced, oldPlane, previous, cause.value);
      OneMoreStep(canon, start, faults, broken);
      faults := faults + [broken];
      result := Failed(if unrestored == None then Restored(cause.value) else NotRestored(cause.value));
      assert Run(canon, start, faults) == State(Finished(result), Now());
    }

    /** restore: the replaced key set again, or the new one removed. */
    method Restore(b: Binding, replaced: Option<string>, plane: string, ghost previous: Option<Previous>, ghost cause: Restorable)
      returns (error: Option<Error>, ghost fault: bool)
      requires match previous
               case None => replaced == None
               case Some(p) => replaced == Some(p.key) && p.plane == plane
      modifies this
      ensures fault ==> flaky
      ensures RestoreStep(b, previous, cause, old(Now()), fault)
           == Stop(Now(), if error == None then Restored(cause) else NotRestored(cause))
    {
      if replaced == None {
        error, fault := RemoveKey(b.credential);
      } else {
        error, fault := SetKey(b.credential, replaced.value, true, plane);
      }
    }

    /** associate: the cause when it fails. */
    method Associate(b: Binding, ghost previous: Option<Previous>) returns (cause: Option<Restorable>, ghost faults: seq<bool>)
      modifies this
      ensures keys == old(keys) && Happens(faults, flaky)
      ensures Run(canon, State(BindLoad(b, previous), old(Now())), faults)
           == if cause == None then State(Finished(Done(Bound)), Now())
              else State(BindRestore(b, previous, cause.value), Now())
    {
      ghost var start := State(BindLoad(b, previous), Now());
      if !IsValidName(b.credential) {
        OneMoreStep(canon, start, [], false);
        return Some(AssociationRefused), [] + [false];
      }
      var data := Load();
      OneMoreStep(canon, start, [], data == None);
      faults := [] + [data == None];
      if data == None {
        return Some(AssociationIO), faults;
      }
      if b.profile !in data.value {
        return Some(AssociationRefused), faults;
      }
      var conflict := FindConflict(data.value, b.profile, b.credential, data.value[b.profile].controlURL);
      if conflict.Some? {
        return Some(AssociationRefused), faults;
      }
      var ok := Save(WithCredential(data.value, b.profile, b.credential));
      OneMoreStep(canon, start, faults, !ok);
      faults := faults + [!ok];
      cause := if ok then None else Some(AssociationIO);
    }

    /** removalTarget. */
    method RemovalTarget(r: Removal) returns (name: string, error: Option<Error>, ghost fault: bool)
      ensures fault ==> flaky
      ensures TargetStep(r, Now(), fault) == if error == None then UnbindList(r, name) else Finished(Failed(error.value))
      ensures error == None && r.credential == "" && r.profile != "" ==>
                r.profile in profiles && name == profiles[r.profile].credential != ""
      ensures error == None && (r.credential != "" || r.profile == "") ==> name == r.credential
    {
      if r.credential != "" || r.profile == "" {
        return r.credential, None, false;
      }
      var data := Load();
      fault := data == None;
      if data == None {
        return "", Some(IO), fault;
      }
      if r.profile !in data.value {
        return "", Some(NoProfile(r.profile)), fault;
      }
      name := data.value[r.profile].credential;
      error := if name == "" then Some(NoCredential) else None;
    }

    /** UnbindCredential. */
    method UnbindCredential(r: Removal) returns (result: Result)
      modifies this
      ensures Ends(canon, old(Now()), Unbind(r), result, Now(), flaky)
    {
      ghost var start, faults: seq<bool> := State(Start(Unbind(r)), Now()), [];
      var name, error, broken := RemovalTarget(r);
      OneMoreStep(canon, start, faults, broken);
      faults := faults + [broken];
      if error.Some? {
        return Failed(error.value);
      }
      assert Run(canon, start, faults) == State(UnbindList(r, name), Now());
      var data := Load();
      OneMoreStep(canon, start, faults, data == None);
      faults := faults + [data == None];
      if data == None {
        return Failed(IO);
      }
      var references := ReferencesTo(data.value, name);
      result := RemoveReferenced(r, name, references, start, faults);
    }

    /** removeReferenced. */
    method RemoveReferenced(r: Removal, name: string, references: seq<string>, ghost start: State, ghost before: seq<bool>)
      returns (result: Result)
      requires references == References(profiles, name)
      requires Happens(before, flaky) && Run(canon, start, before) == State(ListStep(r, name, Now(), false), Now())
      modifies this
      ensures EndsFrom(canon, start, State(Finished(result), Now()), flaky)
    {
      if r.profile != "" && |references| > 1 {
        result := ClearEach([r.profile], Unlinked, start, before);
        return;
      }
      if r.profile == "" && |references| > 0 && !r.force {
        return Failed(Referenced(references));
      }
      var clear := if r.profile != "" then [r.profile] else references;
      var outcome := if r.profile != "" then RemovedWithProfile else Removed;
      var error, broken := RemoveKey(name);
      OneMoreStep(canon, start, before, broken);
      if error.Some? && !(|references| > 0 && error.value == KeyMissing) {
        return Failed(error.value);
      }
      if clear == [] {
        return Done(outcome);
      }
      result := ClearEach(clear, outcome, start, before + [broken]);
    }

    /** One ClearCredential per profile, up to the first that fails. */
    method ClearEach(clear: seq<string>, outcome: Outcome, ghost start: State, ghost before: seq<bool>) returns (result: Result)
      requires clear != [] && Happens(before, flaky) && Run(canon, start, before) == State(ClearLoad(clear, outcome), Now())
      modifies this
      ensures EndsFrom(canon, start, State(Finished(result), Now()), flaky)
    {
      ghost var faults := before;
      for i := 0 to |clear|
        invariant Happens(faults, flaky) && Run(canon, start, faults) == State(ClearNext(clear[i..], outcome), Now())
      {
        assert clear[i..] == [clear[i]] + clear[i + 1..];
        var error, more := ClearOne(clear[i], clear[i + 1..], outcome);
        RunOfConcat(canon, start, faults, more);
        faults := faults + more;
        if error.Some? {
          return Failed(error.value);
        }
      }
      assert clear[|clear|..] == [];
      return Done(outcome);
    }
  }

  /** A request refused before any write. */
  lemma Refused(canon: Canon, d: Disk, request: Request, flaky: bool, error: Error)
    requires error == IO ==> flaky
    requires StartStep(canon, request, d, error == IO) == Finished(Failed(error))
    ensures Ends(canon, d, request, Failed(error), d, flaky)
  {
    var faults := [] + [error == IO];
    OneMoreStep(canon, State(Start(request), d), [], error == IO);
    assert Happens(faults, flaky) && Run(canon, State(Start(request), d), faults) == Stop(d, error);
  }

  lemma ClearIsClearLoad(canon: Canon, d: Disk, profile: string, faults: seq<bool>)
    requires faults != []
    ensures Run(canon, State(Start(Clear(profile)), d), faults) == Run(canon, State(ClearLoad([profile], Outcome.Cleared), d), faults)
  {
    assert Step(canon, State(Start(Clear(profile)), d), faults[0]) == Step(canon, State(ClearLoad([profile], Outcome.Cleared), d), faults[0]);
  }

  /** Where no file operation fails, an operation ends where Complete does. */
  lemma ReliableIsComplete(canon: Canon, d: Disk, request: Request, result: Result, now: Disk)
    requires Ends(canon, d, request, result, now, false)
    ensures Complete(canon, State(Start(request), d)) == State(Finished(result), now)
  {
    var faults :| Happens(faults, false) && Run(canon, State(Start(request), d), faults) == State(Finished(result), now);
    FaultlessRun(canon, State(Start(request), d), faults);
  }

  lemma {:induction false} FaultlessRun(canon: Canon, s: State, faults: seq<bool>)
    requires Happens(faults, false) && Run(canon, s, faults).pc.Finished?
    ensures Complete(canon, s) == Run(canon, s, faults)
    decreases faults
  {
    if faults != [] {
      assert faults[0] in faults && forall fault | fault in faults[1..] :: fault in faults;
      FaultlessRun(canon, Step(canon, s, false), faults[1..]);
    }
  }
}
