/** BindCredential stores a key and references it, both or neither. */
module BindTransition {
  import opened Text
  import opened NameOrder
  import opened Credentials
  import opened Profiles

  lemma NormalizedIsNormal(raw: string)
    requires NormalizeKey(raw).Some?
    ensures NormalizeKey(NormalizeKey(raw).value) == NormalizeKey(raw)
  {
    TrimRightEnds(raw, LINE_END);
  }

  /** The disk with the new key in it. */
  function WithKey(d: Disk, b: Binding): Disk {
    d.(keys := d.keys[b.credential := KeyFile(NormalizeKey(b.key), b.controlURL)])
  }

  function BoundDisk(d: Disk, b: Binding): Disk
    requires b.profile in d.profiles
  {
    WithKey(d, b).(profiles := WithCredential(d.profiles, b.profile, b.credential))
  }

  /** What Bind keeps of the key it replaces. */
  function PreviousOf(d: Disk, credential: string): Option<Previous> {
    match Get(d.keys, credential)
    case Key(key) => Some(Previous(key, d.keys[credential].plane))
    case _ => None
  }

  /** The disk with that key back. */
  function PutBack(d: Disk, b: Binding): Disk {
    match PreviousOf(d, b.credential)
    case Some(p) => d.(keys := d.keys[b.credential := KeyFile(Some(p.key), p.plane)])
    case None => d.(keys := d.keys - {b.credential})
  }

  /** The association that follows a stored key is refused by nothing. */
  predicate Associable(canon: Canon, d: Disk, b: Binding) {
    && IsValidName(b.credential) && NormalizeKey(b.key).Some? && b.profile in d.profiles
    && SharedConflict(canon, d.profiles, b.profile, b.credential, d.profiles[b.profile].controlURL) == None
  }

  /** Where a run of Bind that began on d can be, and what the disk then is. */
  predicate BindAt(canon: Canon, d: Disk, b: Binding, s: State) {
    match s.pc
    case Start(request) => s.disk == d && request == Bind(b)
    case BindShare(b') => s.disk == d && b' == b
    case BindRead(b') =>
      && s.disk == d && b' == b && b.profile in d.profiles
      && SharedConflict(canon, d.profiles, b.profile, b.credential, d.profiles[b.profile].controlURL) == None
    case BindStore(b', previous) =>
      && s.disk == d && b' == b && previous == PreviousOf(d, b.credential) && b.profile in d.profiles
      && SharedConflict(canon, d.profiles, b.profile, b.credential, d.profiles[b.profile].controlURL) == None
    case BindLoad(b', previous) =>
      b' == b && Associable(canon, d, b) && s.disk == WithKey(d, b) && previous == PreviousOf(d, b.credential)
    case BindSave(b', previous, _, changed) =>
      && b' == b && Associable(canon, d, b) && s.disk == WithKey(d, b) && previous == PreviousOf(d, b.credential)
      && changed == WithCredential(d.profiles, b.profile, b.credential)
    case BindRestore(b', previous, cause) =>
      && b' == b && Associable(canon, d, b) && s.disk == WithKey(d, b) && previous == PreviousOf(d, b.credential)
      && cause == AssociationIO
    case Finished(Done(outcome)) => outcome == Bound && Associable(canon, d, b) && s.disk == BoundDisk(d, b)
    case Finished(Failed(Restored(cause))) => Associable(canon, d, b) && cause == AssociationIO && s.disk == PutBack(d, b)
    case Finished(Failed(NotRestored(cause))) => Associable(canon, d, b) && cause == AssociationIO && s.disk == WithKey(d, b)
    case Finished(Failed(_)) => s.disk == d
    case _ => false
  }

  lemma StartStays(canon: Canon, d: Disk, b: Binding, fault: bool)
    ensures BindAt(canon, d, b, State(StartStep(canon, Bind(b), d, fault), d))
  {}

  lemma ShareStays(canon: Canon, d: Disk, b: Binding, fault: bool)
    ensures BindAt(canon, d, b, State(ShareStep(canon, b, d, fault), d))
  {}

  lemma ReadStays(canon: Canon, d: Disk, b: Binding, fault: bool)
    requires BindAt(canon, d, b, State(BindRead(b), d))
    ensures BindAt(canon, d, b, State(ReadStep(b, d, fault), d))
  {}

  lemma StoreStays(canon: Canon, d: Disk, b: Binding, fault: bool)
    requires BindAt(canon, d, b, State(BindStore(b, PreviousOf(d, b.credential)), d))
    ensures BindAt(canon, d, b, StoreStep(b, PreviousOf(d, b.credential), d, fault))
  {}

  lemma LoadStays(canon: Canon, d: Disk, b: Binding, previous: Option<Previous>, fault: bool)
    requires BindAt(canon, d, b, State(BindLoad(b, previous), WithKey(d, b)))
    ensures BindAt(canon, d, b, State(AssociateStep(canon, b, previous, WithKey(d, b), fault), WithKey(d, b)))
  {}

  lemma RestoreStays(canon: Canon, d: Disk, b: Binding, fault: bool)
    requires Associable(canon, d, b)
    ensures BindAt(canon, d, b, RestoreStep(b, PreviousOf(d, b.credential), AssociationIO, WithKey(d, b), fault))
    ensures !fault ==> RestoreStep(b, PreviousOf(d, b.credential), AssociationIO, WithKey(d, b), fault) == Stop(PutBack(d, b), Restored(AssociationIO))
  {
    var previous := PreviousOf(d, b.credential);
    if previous.Some? {
      NormalizedIsNormal(d.keys[b.credential].content.value);
      assert WithKey(d, b).keys[b.credential := KeyFile(Some(previous.value.key), previous.value.plane)] == PutBack(d, b).keys;
    } else {
      assert WithKey(d, b).keys - {b.credential} == PutBack(d, b).keys;
    }
  }

  lemma StepStays(canon: Canon, d: Disk, b: Binding, s: State, fault: bool)
    requires BindAt(canon, d, b, s)
    ensures BindAt(canon, d, b, Step(canon, s, fault))
  {
    match s.pc
    case Start(_) => StartStays(canon, d, b, fault);
    case BindShare(_) => ShareStays(canon, d, b, fault);
    case BindRead(_) => ReadStays(canon, d, b, fault);
    case BindStore(_, _) => StoreStays(canon, d, b, fault);
    case BindLoad(_, previous) => LoadStays(canon, d, b, previous, fault);
    case BindSave(_, _, _, _) =>
    case BindRestore(_, _, _) => RestoreStays(canon, d, b, fault);
    case Finished(_) =>
  }

  lemma {:induction false} RunStays(canon: Canon, d: Disk, b: Binding, s: State, faults: seq<bool>)
    requires BindAt(canon, d, b, s)
    ensures BindAt(canon, d, b, Run(canon, s, faults))
    decreases faults
  {
    if faults != [] {
      StepStays(canon, d, b, s, faults[0]);
      RunStays(canon, d, b, Step(canon, s, faults[0]), faults[1..]);
    }
  }

  lemma PutBackReadsSame(d: Disk, b: Binding)
    requires Get(d.keys, b.credential) != CannotRead
    ensures Readable(PutBack(d, b).keys) == Readable(d.keys)
  {
    var back := PutBack(d, b).keys;
    if PreviousOf(d, b.credential).Some? {
      NormalizedIsNormal(d.keys[b.credential].content.value);
    }
    forall name
      ensures Get(back, name).Key? == Get(d.keys, name).Key? && (Get(d.keys, name).Key? ==> Get(back, name) == Get(d.keys, name))
    {}
    assert forall name | name in Readable(back) :: Get(back, name).Key?;
    assert forall name | name in Readable(d.keys) :: Get(d.keys, name).Key?;
  }

  /** All or nothing, over every run of Bind: done, the profile references the
      new key and nothing else changed; failed with the store put back, every
      profile and every usable key is what it was; and the only failure that
      leaves the new key behind is one of putting the old one back. */
  lemma BindIsAllOrNothing(canon: Canon, d: Disk, b: Binding, faults: seq<bool>)
    ensures var end := Run(canon, State(Start(Bind(b)), d), faults);
            match end.pc
            case Finished(Done(_)) =>
              b.profile in d.profiles && NormalizeKey(b.key).Some? && end.disk == BoundDisk(d, b)
            case Finished(Failed(NotRestored(_))) => end.disk == WithKey(d, b)
            case Finished(Failed(_)) =>
              end.disk.profiles == d.profiles && Readable(end.disk.keys) == Readable(d.keys)
            case _ => end.disk == d || end.disk == WithKey(d, b)
  {
    RunStays(canon, d, b, State(Start(Bind(b)), d), faults);
    var end := Run(canon, State(Start(Bind(b)), d), faults);
    if end.pc.Finished? && end.pc.result.Failed? && end.pc.result.error.Restored? {
      RestoredWasReadable(canon, d, b, faults);
      PutBackReadsSame(d, b);
    }
  }

  /** A key that is there and cannot be read is never replaced. */
  predicate PastTheRead(s: State) {
    || s.pc.BindStore? || s.pc.BindLoad? || s.pc.BindSave? || s.pc.BindRestore?
    || (s.pc.Finished? && s.pc.result.Failed? && s.pc.result.error.Restored?)
  }

  lemma {:induction false} RestoredWasReadable(canon: Canon, d: Disk, b: Binding, faults: seq<bool>)
    ensures PastTheRead(Run(canon, State(Start(Bind(b)), d), faults)) ==> Get(d.keys, b.credential) != CannotRead
    decreases |faults|
  {
    var start := State(Start(Bind(b)), d);
    if faults == [] {
      assert Run(canon, start, faults) == start;
    } else {
      var front, last := faults[..|faults| - 1], faults[|faults| - 1];
      assert faults == front + [last];
      RestoredWasReadable(canon, d, b, front);
      OneMoreStep(canon, start, front, last);
      RunStays(canon, d, b, start, front);
      ReadGates(canon, d, b, Run(canon, start, front), last);
    }
  }

  lemma ReadGates(canon: Canon, d: Disk, b: Binding, s: State, fault: bool)
    requires BindAt(canon, d, b, s) && (PastTheRead(s) ==> Get(d.keys, b.credential) != CannotRead)
    ensures PastTheRead(Step(canon, s, fault)) ==> Get(d.keys, b.credential) != CannotRead
  {
    match s.pc
    case Start(_) =>
    case BindShare(_) =>
    case BindRead(_) =>
    case _ =>
  }

  /** Once the early share check has passed and the key is stored, the association
      fails on I/O alone: with none failing, the run that got that far is done
      two file operations later. */
  lemma StoredThenOnlyIOFails(canon: Canon, d: Disk, b: Binding, faults: seq<bool>)
    requires Run(canon, State(Start(Bind(b)), d), faults).pc.BindLoad?
    ensures b.profile in d.profiles && NormalizeKey(b.key).Some?
    ensures Run(canon, State(Start(Bind(b)), d), faults + [false, false]) == State(Finished(Done(Bound)), BoundDisk(d, b))
    ensures Run(canon, State(Start(Bind(b)), d), faults + [true, false]) == Stop(PutBack(d, b), Restored(AssociationIO))
  {
    var start := State(Start(Bind(b)), d);
    var s := Run(canon, start, faults);
    RunStays(canon, d, b, start, faults);
    OneMoreStep(canon, start, faults, false);
    OneMoreStep(canon, start, faults + [false], false);
    OneMoreStep(canon, start, faults, true);
    OneMoreStep(canon, start, faults + [true], false);
    assert faults + [false] + [false] == faults + [false, false] && faults + [true] + [false] == faults + [true, false];
    LoadOpens(canon, d, b, s);
  }

  lemma LoadOpens(canon: Canon, d: Disk, b: Binding, s: State)
    requires s.pc.BindLoad? && BindAt(canon, d, b, s)
    ensures Step(canon, Step(canon, s, false), false) == State(Finished(Done(Bound)), BoundDisk(d, b))
    ensures Step(canon, Step(canon, s, true), false) == Stop(PutBack(d, b), Restored(AssociationIO))
  {
    RestoreStays(canon, d, b, false);
  }
}
