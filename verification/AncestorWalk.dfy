/** The walk over the directories the kernel passes through to reach a file that
    only root may control, against the kernel's own recursive resolution. */
module AncestorWalk {
  import opened Text
  import opened Paths
  import opened Bytes
  import opened PosixAcl

  datatype Acl = NoAcl | AclUnread | AclBytes(raw: seq<byte>)

  /** The nine permission bits. */
  type Perm = n: nat | n < 0x200

  /** What lstat, readlink and the ACL read answer for one entry. */
  datatype Node =
    | Absent
    | Unread
    | Directory(uid: nat, perm: Perm, special: bool, acl: Acl)
    | Link(uid: nat, target: Option<string>)
    | Regular(uid: nat, perm: Perm, special: bool)
    | Other

  /** The entries below the root, by their names from it. readsAcl: false on a
      platform where no ACL is read. */
  datatype FileTree = FileTree(nodes: map<seq<string>, Node>, readsAcl: bool)

  function At(fs: FileTree, names: seq<string>): Node {
    if names in fs.nodes then fs.nodes[names] else Absent
  }

  // ------------------------------------------------------ one entry's problems

  datatype Problem =
    | CannotRead
    | NotADirectory
    | OwnedBy(uid: nat)
    | OthersWrite
    | AclUnreadable
    | AclMalformed(error: AclError)
    | AclGrants(writers: seq<Writer>)
    | TooManyLinks
    | LinkUnreadable

  predicate Bit(perm: nat, mask: nat)
    requires mask > 0
  {
    perm / mask % 2 == 1
  }

  /** perm & 0o022 != 0. */
  predicate LetsOthersWrite(perm: nat) {
    Bit(perm, 0x10) || Bit(perm, 0x02)
  }

  /** checkAncestorACL. */
  function AclProblem(fs: FileTree, node: Node): Option<Problem> {
    if !fs.readsAcl || !node.Directory? then None
    else
      match node.acl
      case NoAcl => None
      case AclUnread => Some(AclUnreadable)
      case AclBytes(raw) =>
        match ReadAcl(raw)
        case Refused(error) => Some(AclMalformed(error))
        case Writers(named) => if named == [] then None else Some(AclGrants(named))
  }

  /** checkAncestor. */
  function OwnerProblem(node: Node): Option<Problem> {
    match node
    case Absent => None
    case Unread => Some(CannotRead)
    case Link(uid, _) => if uid != 0 then Some(OwnedBy(uid)) else None
    case Directory(uid, perm, _, _) =>
      if uid != 0 then Some(OwnedBy(uid)) else if LetsOthersWrite(perm) then Some(OthersWrite) else None
    case Regular(_, _, _) => Some(NotADirectory)
    case Other => Some(NotADirectory)
  }

  /** ancestorAt: the ACL of a root-owned directory first. */
  function ProblemOf(fs: FileTree, node: Node): Option<Problem> {
    if node.Directory? && node.uid == 0 && AclProblem(fs, node).Some? then AclProblem(fs, node) else OwnerProblem(node)
  }

  /** An entry only root controls, or none at all. */
  ghost predicate Safe(fs: FileTree, node: Node) {
    match node
    case Absent => true
    case Link(uid, _) => uid == 0
    case Directory(uid, perm, _, acl) =>
      uid == 0 && !Bit(perm, 0x10) && !Bit(perm, 0x02) && (fs.readsAcl ==> GrantsNobody(acl))
    case _ => false
  }

  ghost predicate GrantsNobody(acl: Acl) {
    acl.NoAcl? || (acl.AclBytes? && IsReadableWithoutWriter(acl.raw))
  }

  lemma SafeHasNoProblem(fs: FileTree, node: Node)
    ensures ProblemOf(fs, node) == None <==> Safe(fs, node)
  {
    if node.Directory? && node.acl.AclBytes? {
      ReadsNoWriter(node.acl.raw);
    }
  }

  // -------------------------------------------------------- kernel resolution

  const MAX_LINKS := 40

  /** Where resolution ends: in a directory with links left to follow, at a
      missing entry, at one that is no directory, or at a link not followed. */
  datatype End = Arrived(dir: seq<string>, left: nat) | Missing | Barred | Cut(why: Problem)

  /** Every entry entered, in order, and the end. */
  datatype Resolution = Resolution(visited: seq<seq<string>>, end: End)

  /** Pathname resolution: a link is resolved whole, from where it stands, before
      the names after it; one budget of links covers all of it. */
  function Resolve(fs: FileTree, cur: seq<string>, comps: seq<string>, left: nat): (r: Resolution)
    ensures r.end.Arrived? ==> r.end.left <= left
    ensures !r.end.Arrived? ==> r.visited != []
    decreases left, |comps|
  {
    if comps == [] then Resolution([], Arrived(cur, left))
    else if comps[0] == ".." then Resolve(fs, Above(cur), comps[1..], left)
    else
      var next := cur + [comps[0]];
      match At(fs, next)
      case Absent => Resolution([next], Missing)
      case Directory(_, _, _, _) => Entered(next, Resolve(fs, next, comps[1..], left))
      case Link(_, target) =>
        if left == 0 then Resolution([next], Cut(TooManyLinks))
        else if target == None then Resolution([next], Cut(LinkUnreadable))
        else
          var inner := Resolve(fs, LinkBase(cur, target.value), Components(target.value), left - 1);
          Entered(next, if inner.end.Arrived? then Onward(inner, Resolve(fs, inner.end.dir, comps[1..], inner.end.left)) else inner)
      case _ => Resolution([next], Barred)
  }

  function LinkBase(cur: seq<string>, target: string): seq<string> {
    if IsAbs(target) then [] else cur
  }

  function Entered(next: seq<string>, r: Resolution): Resolution {
    Resolution([next] + r.visited, r.end)
  }

  function Onward(r: Resolution, more: Resolution): Resolution {
    Resolution(r.visited + more.visited, more.end)
  }

  /** Resolving two lists of names is resolving one and going on from its end. */
  lemma {:induction false} ResolveOfConcat(fs: FileTree, cur: seq<string>, a: seq<string>, b: seq<string>, left: nat)
    ensures Resolve(fs, cur, a + b, left)
         == var r := Resolve(fs, cur, a, left);
            if r.end.Arrived? then Onward(r, Resolve(fs, r.end.dir, b, r.end.left)) else r
    decreases left, |a|
  {
    if a == [] {
      assert a + b == b;
    } else {
      assert (a + b)[0] == a[0] && (a + b)[1..] == a[1..] + b;
      var next := cur + [a[0]];
      if a[0] == ".." {
        ResolveOfConcat(fs, Above(cur), a[1..], b, left);
      } else if At(fs, next).Directory? {
        ResolveOfConcat(fs, next, a[1..], b, left);
        EnteredOnward(next, Resolve(fs, next, a[1..], left), fs, b);
      } else if At(fs, next).Link? && left > 0 && At(fs, next).target.Some? {
        var target := At(fs, next).target.value;
        var inner := Resolve(fs, LinkBase(cur, target), Components(target), left - 1);
        if inner.end.Arrived? {
          ResolveOfConcat(fs, inner.end.dir, a[1..], b, inner.end.left);
          var outer := Resolve(fs, inner.end.dir, a[1..], inner.end.left);
          if outer.end.Arrived? {
            var more := Resolve(fs, outer.end.dir, b, outer.end.left);
            assert [next] + (inner.visited + (outer.visited + more.visited)) == [next] + (inner.visited + outer.visited) + more.visited;
          }
        }
      }
    }
  }

  lemma EnteredOnward(next: seq<string>, r: Resolution, fs: FileTree, b: seq<string>)
    ensures r.end.Arrived? ==>
              var more := Resolve(fs, r.end.dir, b, r.end.left);
              Entered(next, Onward(r, more)) == Onward(Entered(next, r), more)
  {
    if r.end.Arrived? {
      var more := Resolve(fs, r.end.dir, b, r.end.left);
      assert [next] + (r.visited + more.visited) == [next] + r.visited + more.visited;
    }
  }

  /** A link's names may be put in place of the link. */
  lemma LinkInPlace(fs: FileTree, cur: seq<string>, comps: seq<string>, left: nat)
    requires comps != [] && comps[0] != ".." && left > 0
    requires var node := At(fs, cur + [comps[0]]); node.Link? && node.target.Some?
    ensures var target := At(fs, cur + [comps[0]]).target.value;
            Resolve(fs, cur, comps, left)
            == Entered(cur + [comps[0]], Resolve(fs, LinkBase(cur, target), Components(target) + comps[1..], left - 1))
  {
    var target := At(fs, cur + [comps[0]]).target.value;
    ResolveOfConcat(fs, LinkBase(cur, target), Components(target), comps[1..], left - 1);
  }

  // ------------------------------------------------- canonical directories

  /** Every directory on the way to names is a directory, not a link to one. */
  predicate Canonical(fs: FileTree, names: seq<string>) {
    AreNames(names) && forall k | 0 < k <= |names| :: At(fs, names[..k]).Directory?
  }

  /** The kernel's lstat: every name but the last resolved, the last one not followed. */
  function Lstat(fs: FileTree, p: string): Node {
    var comps := Components(p);
    if comps == [] then At(fs, [])
    else
      var last, r := comps[|comps| - 1], Resolve(fs, [], Above(comps), MAX_LINKS);
      match r.end
      case Arrived(dir, _) => At(fs, if last == ".." then Above(dir) else dir + [last])
      case Missing => Absent
      case _ => Unread
  }

  lemma {:induction false} CanonicalResolves(fs: FileTree, cur: seq<string>, more: seq<string>, left: nat)
    requires Canonical(fs, cur + more)
    ensures Resolve(fs, cur, more, left).end == Arrived(cur + more, left)
    decreases |more|
  {
    if more == [] {
      assert cur + more == cur;
    } else {
      assert more[0] in cur + more;
      assert (cur + more)[..|cur| + 1] == cur + [more[0]];
      assert cur + [more[0]] + more[1..] == cur + more;
      CanonicalResolves(fs, cur + [more[0]], more[1..], left);
    }
  }

  /** An entry of a canonical directory is read under its own path. */
  lemma LstatOfEntry(fs: FileTree, names: seq<string>, c: string)
    requires Canonical(fs, names) && IsName(c)
    ensures Lstat(fs, Rooted(names + [c])) == At(fs, names + [c])
  {
    assert Above(names + [c]) == names && [] + names == names;
    ComponentsOfRooted(names + [c]);
    CanonicalResolves(fs, [], names, MAX_LINKS);
  }

  lemma AboveIsCanonical(fs: FileTree, names: seq<string>)
    requires Canonical(fs, names)
    ensures Canonical(fs, Above(names))
  {
    var up := Above(names);
    assert forall c | c in up :: c in names;
    assert forall k | 0 < k <= |up| :: up[..k] == names[..k];
  }

  lemma EntryIsCanonical(fs: FileTree, names: seq<string>, c: string)
    requires Canonical(fs, names) && IsName(c) && At(fs, names + [c]).Directory?
    ensures Canonical(fs, names + [c])
  {
    var next := names + [c];
    assert next[..|next|] == next;
    assert forall k | 0 < k <= |names| :: next[..k] == names[..k];
  }

  // ------------------------------------------------------------ the verdict

  datatype Verdict = Accepted | Rejected(at: string, problem: Problem)

  /** The first entry with a problem, or the link the kernel does not follow. */
  function Judge(fs: FileTree, visited: seq<seq<string>>, end: End): Verdict {
    if visited == [] then Accepted
    else
      match ProblemOf(fs, At(fs, visited[0]))
      case Some(problem) => Rejected(Rooted(visited[0]), problem)
      case None => if |visited| == 1 && end.Cut? then Rejected(Rooted(visited[0]), end.why) else Judge(fs, visited[1..], end)
  }

  function JudgeAll(fs: FileTree, r: Resolution): Verdict {
    Judge(fs, r.visited, r.end)
  }

  /** The kernel's way to the parent of path, the root first. */
  function WayTo(fs: FileTree, path: string): Resolution {
    Entered([], Resolve(fs, [], Components(Dir(path)), MAX_LINKS))
  }

  /** A walk accepts exactly the ways whose every entry is safe and every link
      followed, and a refusal names an entry on the way that is bad. */
  lemma {:induction false} JudgeMeans(fs: FileTree, visited: seq<seq<string>>, end: End)
    ensures Judge(fs, visited, end) == Accepted <==>
              (forall e | e in visited :: Safe(fs, At(fs, e))) && (visited == [] || !end.Cut?)
    ensures Judge(fs, visited, end).Rejected? ==>
              exists e | e in visited :: Blames(fs, e, visited, end, Judge(fs, visited, end))
  {
    if visited != [] {
      SafeHasNoProblem(fs, At(fs, visited[0]));
      JudgeMeans(fs, visited[1..], end);
      assert visited == [visited[0]] + visited[1..];
      if Judge(fs, visited, end).Rejected? && Judge(fs, visited, end) == Judge(fs, visited[1..], end) && |visited| > 1 {
        var e :| e in visited[1..] && Blames(fs, e, visited[1..], end, Judge(fs, visited[1..], end));
        assert Blames(fs, e, visited, end, Judge(fs, visited, end));
      } else if Judge(fs, visited, end).Rejected? {
        assert Blames(fs, visited[0], visited, end, Judge(fs, visited, end));
      }
    }
  }

  predicate Blames(fs: FileTree, e: seq<string>, visited: seq<seq<string>>, end: End, v: Verdict)
    requires visited != []
  {
    && v.Rejected? && v.at == Rooted(e)
    && (ProblemOf(fs, At(fs, e)) == Some(v.problem) || (e == visited[|visited| - 1] && end == Cut(v.problem)))
  }

  // ---------------------------------------------------------------- the walk

  /** walkAncestors: names still to enter, the path of the directory the kernel
      is in, and the links followed. */
  method WalkAncestors(fs: FileTree, path: string) returns (v: Verdict)
    ensures v == JudgeAll(fs, WayTo(fs, path))
  {
    RootRead(fs, path);
    var root := ProblemOf(fs, Lstat(fs, "/"));
    if root.Some? {
      return Rejected("/", root.value);
    }
    var comps := SplitComponents(Dir(path));
    StepsOf(Dir(path));
    v := WalkBelow(fs, comps);
  }

  /** The loop of walkAncestors, from the root. */
  method WalkBelow(fs: FileTree, comps: seq<string>) returns (v: Verdict)
    requires AreSteps(comps)
    ensures v == JudgeAll(fs, Resolve(fs, [], comps, MAX_LINKS))
  {
    ghost var verdict := JudgeAll(fs, Resolve(fs, [], comps, MAX_LINKS));
    ComponentsOfRooted([]);
    assert "/" == Rooted([]);
    var rest, cur, links := comps, "/", 0;
    ghost var names: seq<string> := [];
    while rest != []
      invariant links <= MAX_LINKS && cur == Rooted(names) && Canonical(fs, names)
      invariant AreSteps(rest)
      invariant verdict == JudgeAll(fs, Resolve(fs, names, rest, MAX_LINKS - links))
      decreases MAX_LINKS - links, |rest|
    {
      var c := rest[0];
      ghost var left := MAX_LINKS - links;
      if c == ".." {
        NextStep(rest);
        AboveIsCanonical(fs, names);
        cur := Ascend(cur, names);
        names, rest := Above(names), rest[1..];
        continue;
      }
      NextStep(rest);
      var next, node, problem := AncestorAt(fs, cur, c, names);
      if problem.Some? {
        EntryDecides(fs, names, rest, left);
        return Rejected(next, problem.value);
      }
      if node.Absent? {
        EntryDecides(fs, names, rest, left);
        return Accepted;
      }
      if node.Directory? {
        DirectoryEntered(fs, names, rest, left);
        EntryIsCanonical(fs, names, c);
        cur, names, rest := next, names + [c], rest[1..];
        continue;
      }
      links := links + 1;
      if links > MAX_LINKS {
        EntryDecides(fs, names, rest, left);
        return Rejected(next, TooManyLinks);
      }
      if node.target.None? {
        EntryDecides(fs, names, rest, left);
        return Rejected(next, LinkUnreadable);
      }
      LinkFollowed(fs, names, rest, left);
      if IsAbs(node.target.value) {
        cur, names := "/", [];
      }
      var target := SplitComponents(node.target.value);
      StepsOf(node.target.value);
      StepsOfConcat(target, rest[1..]);
      rest := target + rest[1..];
    }
    return Accepted;
  }

  method Ascend(cur: string, ghost names: seq<string>) returns (up: string)
    requires AreNames(names) && cur == Rooted(names)
    ensures up == Rooted(Above(names))
  {
    DirOfRooted(names);
    up := Dir(cur);
  }

  /** ancestorAt of an entry of the directory the walk is in. */
  method AncestorAt(fs: FileTree, cur: string, c: string, ghost names: seq<string>)
    returns (next: string, node: Node, problem: Option<Problem>)
    requires Canonical(fs, names) && cur == Rooted(names) && IsName(c)
    ensures next == Rooted(names + [c]) && node == At(fs, names + [c]) && problem == ProblemOf(fs, node)
  {
    EntryRead(fs, names, c);
    next := JoinPath(cur, c);
    node := Lstat(fs, next);
    problem := ProblemOf(fs, node);
  }

  lemma RootRead(fs: FileTree, path: string)
    ensures "/" == Rooted([]) && Lstat(fs, "/") == At(fs, [])
    ensures match ProblemOf(fs, At(fs, []))
            case Some(problem) => JudgeAll(fs, WayTo(fs, path)) == Rejected("/", problem)
            case None => JudgeAll(fs, WayTo(fs, path)) == JudgeAll(fs, Resolve(fs, [], Components(Dir(path)), MAX_LINKS))
  {
    ComponentsOfRooted([]);
    assert "/" == Rooted([]);
    var r := Resolve(fs, [], Components(Dir(path)), MAX_LINKS);
    assert WayTo(fs, path).visited[0] == [];
    if ProblemOf(fs, At(fs, [])).None? {
      JudgeEntered(fs, [], r);
    }
  }

  lemma EntryRead(fs: FileTree, names: seq<string>, c: string)
    requires Canonical(fs, names) && IsName(c)
    ensures JoinPath(Rooted(names), c) == Rooted(names + [c])
    ensures Lstat(fs, Rooted(names + [c])) == At(fs, names + [c])
  {
    JoinOfRooted(names, c);
    LstatOfEntry(fs, names, c);
  }

  /** What is left to walk: names and "..". */
  predicate AreSteps(rest: seq<string>) {
    forall c | c in rest :: c == ".." || IsName(c)
  }

  lemma NextStep(rest: seq<string>)
    requires rest != [] && AreSteps(rest)
    ensures (rest[0] == ".." || IsName(rest[0])) && AreSteps(rest[1..])
  {
    assert rest[0] in rest && forall c | c in rest[1..] :: c in rest;
  }

  lemma StepsOfConcat(a: seq<string>, b: seq<string>)
    requires AreSteps(a) && AreSteps(b)
    ensures AreSteps(a + b)
  {}

  lemma StepsOf(p: string)
    ensures AreSteps(Components(p))
  {
    SplitPartsHoldNoSeparator(p, '/');
  }

  /** An entry that ends the walk: one with a problem, a missing one, or a link
      that is not followed. */
  lemma EntryDecides(fs: FileTree, cur: seq<string>, comps: seq<string>, left: nat)
    requires comps != [] && comps[0] != ".."
    ensures var next, v := cur + [comps[0]], JudgeAll(fs, Resolve(fs, cur, comps, left));
            var node := At(fs, next);
            && (ProblemOf(fs, node).Some? ==> v == Rejected(Rooted(next), ProblemOf(fs, node).value))
            && (node.Absent? ==> v == Accepted)
            && (node.Link? && ProblemOf(fs, node).None? && left == 0 ==> v == Rejected(Rooted(next), TooManyLinks))
            && (node.Link? && ProblemOf(fs, node).None? && left > 0 && node.target.None? ==> v == Rejected(Rooted(next), LinkUnreadable))
  {
    var next, r := cur + [comps[0]], Resolve(fs, cur, comps, left);
    assert r.visited[0] == next;
    if At(fs, next).Absent? {
      assert Judge(fs, r.visited[1..], r.end) == Accepted;
    }
  }

  lemma JudgeEntered(fs: FileTree, next: seq<string>, r: Resolution)
    requires ProblemOf(fs, At(fs, next)).None? && (r.visited == [] ==> !r.end.Cut?)
    ensures JudgeAll(fs, Entered(next, r)) == JudgeAll(fs, r)
  {
    assert ([next] + r.visited)[1..] == r.visited;
  }

  lemma DirectoryEntered(fs: FileTree, cur: seq<string>, comps: seq<string>, left: nat)
    requires comps != [] && comps[0] != ".."
    requires var node := At(fs, cur + [comps[0]]); node.Directory? && ProblemOf(fs, node).None?
    ensures JudgeAll(fs, Resolve(fs, cur, comps, left)) == JudgeAll(fs, Resolve(fs, cur + [comps[0]], comps[1..], left))
  {
    JudgeEntered(fs, cur + [comps[0]], Resolve(fs, cur + [comps[0]], comps[1..], left));
  }

  lemma LinkFollowed(fs: FileTree, cur: seq<string>, comps: seq<string>, left: nat)
    requires comps != [] && comps[0] != ".." && left > 0
    requires var node := At(fs, cur + [comps[0]]); node.Link? && node.target.Some? && ProblemOf(fs, node).None?
    ensures var target := At(fs, cur + [comps[0]]).target.value;
            JudgeAll(fs, Resolve(fs, cur, comps, left))
            == JudgeAll(fs, Resolve(fs, LinkBase(cur, target), Components(target) + comps[1..], left - 1))
  {
    var target := At(fs, cur + [comps[0]]).target.value;
    LinkInPlace(fs, cur, comps, left);
    JudgeEntered(fs, cur + [comps[0]], Resolve(fs, LinkBase(cur, target), Components(target) + comps[1..], left - 1));
  }

  // ------------------------------------------------------------- the callers

  /** refuseDotDot. */
  predicate HasDotDot(path: string) {
    ".." in Split(path, '/')
  }

  /** checkUnixStateDir: a directory, not a link to one, with mode 0700. */
  predicate PrivateDirectory(node: Node) {
    node.Directory? && node.perm == 0x1C0 && !node.special && node.uid == 0
  }

  /** No bit of the group's or the others' three. */
  predicate NoneForOthers(perm: Perm) {
    && !Bit(perm, 0x20) && !Bit(perm, 0x10) && !Bit(perm, 0x08)
    && !Bit(perm, 0x04) && !Bit(perm, 0x02) && !Bit(perm, 0x01)
  }

  /** Mode 0700 is the owner's three bits and no other. */
  lemma OwnerBitsOnly(perm: Perm)
    ensures perm == 0x1C0 <==> Bit(perm, 0x100) && Bit(perm, 0x80) && Bit(perm, 0x40) && NoneForOthers(perm)
  {
    LowBits(perm);
    assert perm / 0x40 < 8;
    assert Bit(perm, 0x80) == (perm / 0x40 / 2 % 2 == 1);
    assert Bit(perm, 0x100) == (perm / 0x40 / 4 % 2 == 1);
  }

  /** mode & 077 == 0. */
  lemma LowBits(perm: Perm)
    ensures perm % 0x40 == 0 <==> NoneForOthers(perm)
  {
    var q := perm / 2;
    var r := q / 2;
    var s := r / 2;
    var t := s / 2;
    assert perm / 0x04 == r && perm / 0x08 == s && perm / 0x10 == t && perm / 0x20 == t / 2;
    assert perm / 0x40 == t / 2 / 2;
  }

  /** checkUnixSecretFile: no bit for group or others. */
  predicate PrivateFile(node: Node) {
    node.Regular? && node.perm % 0x40 == 0 && !node.special && node.uid == 0
  }

  /** CheckStateDir. */
  method CheckStateDir(fs: FileTree, path: string) returns (ok: bool)
    ensures ok <==>
              && ".." !in Split(path, '/')
              && JudgeAll(fs, WayTo(fs, Clean(path))) == Accepted
              && var node := Lstat(fs, Clean(path));
                 && node.Directory? && node.uid == 0 && !node.special
                 && Bit(node.perm, 0x100) && Bit(node.perm, 0x80) && Bit(node.perm, 0x40)
                 && !Bit(node.perm, 0x20) && !Bit(node.perm, 0x10) && !Bit(node.perm, 0x08)
                 && !Bit(node.perm, 0x04) && !Bit(node.perm, 0x02) && !Bit(node.perm, 0x01)
  {
    if HasDotDot(path) {
      return false;
    }
    var clean := Clean(path);
    var v := WalkAncestors(fs, clean);
    var node := Lstat(fs, clean);
    if node.Directory? {
      OwnerBitsOnly(node.perm);
    }
    return v == Accepted && PrivateDirectory(node);
  }

  /** CheckSecretFile. */
  method CheckSecretFile(fs: FileTree, path: string) returns (ok: bool)
    ensures ok <==>
              && ".." !in Split(path, '/')
              && JudgeAll(fs, WayTo(fs, Clean(path))) == Accepted
              && var node := Lstat(fs, Clean(path));
                 && node.Regular? && node.uid == 0 && !node.special
                 && !Bit(node.perm, 0x20) && !Bit(node.perm, 0x10) && !Bit(node.perm, 0x08)
                 && !Bit(node.perm, 0x04) && !Bit(node.perm, 0x02) && !Bit(node.perm, 0x01)
  {
    if HasDotDot(path) {
      return false;
    }
    var clean := Clean(path);
    var v := WalkAncestors(fs, clean);
    var node := Lstat(fs, clean);
    if node.Regular? {
      LowBits(node.perm);
    }
    return v == Accepted && PrivateFile(node);
  }

  /** The kernel's own way to an absolute path given with no "..". */
  function KernelWay(fs: FileTree, path: string): Resolution {
    Resolve(fs, [], Above(Components(path)), 40)
  }

  /** What is accepted exists, and only root controls it and the way to it:
      resolving the declared path arrives in a directory, through safe entries
      only, and finds the entry there. */
  predicate FoundIn(fs: FileTree, path: string, node: Node)
  {
    var comps, r := Components(path), KernelWay(fs, path);
    if comps == [] then node == At(fs, [])
    else r.end.Arrived? && node == At(fs, r.end.dir + [comps[|comps| - 1]])
  }

  lemma AcceptedIsRoots(fs: FileTree, path: string)
    requires IsAbs(path) && !HasDotDot(path)
    ensures JudgeAll(fs, WayTo(fs, Clean(path))) == Accepted <==>
              Safe(fs, At(fs, [])) && (forall e | e in KernelWay(fs, path).visited :: Safe(fs, At(fs, e))) && !KernelWay(fs, path).end.Cut?
    ensures Lstat(fs, Clean(path)).Directory? || Lstat(fs, Clean(path)).Regular? ==>
              FoundIn(fs, path, Lstat(fs, Clean(path)))
  {
    CleanKeepsNames(path);
    WalkedToReach(Clean(path));
    RootThenWay(fs, KernelWay(fs, path));
  }

  lemma CleanKeepsNames(path: string)
    requires IsAbs(path) && !HasDotDot(path)
    ensures Components(Clean(path)) == Components(path) && Clean(Clean(path)) == Clean(path)
    ensures ".." !in Components(path)
  {
    var names := Components(path);
    SplitPartsHoldNoSeparator(path, '/');
    assert AreNames(names);
    CleanOfNames(path, names);
    ComponentsOfRooted(names);
    CleanOfNames(Clean(path), names);
  }

  lemma RootThenWay(fs: FileTree, r: Resolution)
    ensures JudgeAll(fs, Entered([], r)) == Accepted <==>
              Safe(fs, At(fs, [])) && (forall e | e in r.visited :: Safe(fs, At(fs, e))) && !r.end.Cut?
  {
    var way := Entered([], r);
    JudgeMeans(fs, way.visited, way.end);
    assert [] in way.visited;
    assert forall e | e in r.visited :: e in way.visited;
  }
}
