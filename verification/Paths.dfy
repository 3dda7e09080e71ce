/** Slash paths as path/filepath treats them on Unix. */
module Paths {
  import opened Text

  /** A name that stands for an entry of a directory. */
  predicate IsName(c: string) {
    c != "" && c != "." && c != ".." && '/' !in c
  }

  predicate AreNames(names: seq<string>) {
    forall c | c in names :: IsName(c)
  }

  predicate IsAbs(p: string) {
    p != "" && p[0] == '/'
  }

  predicate IsKept(c: string) {
    c != "" && c != "."
  }

  function KeptOf(parts: seq<string>): (kept: seq<string>)
    ensures forall c | c in kept :: c in parts && IsKept(c)
  {
    if parts == [] then []
    else if IsKept(parts[0]) then [parts[0]] + KeptOf(parts[1..])
    else KeptOf(parts[1..])
  }

  /** The names of a slash path, without the empty and "." ones; ".." is kept. */
  function Components(p: string): seq<string> {
    KeptOf(Split(p, '/'))
  }

  /** components. */
  method SplitComponents(p: string) returns (out: seq<string>)
    ensures out == Components(p)
  {
    out := [];
    var parts := Split(p, '/');
    for i := 0 to |parts|
      invariant Components(p) == out + KeptOf(parts[i..])
    {
      if parts[i] != "" && parts[i] != "." {
        out := out + [parts[i]];
      }
    }
  }

  /** The rooted path of a list of names. */
  function Rooted(names: seq<string>): string {
    "/" + Join(names, '/')
  }

  /** The names left once each ".." has taken the one before it. */
  function Lexical(comps: seq<string>, rooted: bool, out: seq<string>): seq<string>
    decreases |comps|
  {
    if comps == [] then out
    else if comps[0] != ".." then Lexical(comps[1..], rooted, out + [comps[0]])
    else if out != [] && out[|out| - 1] != ".." then Lexical(comps[1..], rooted, out[..|out| - 1])
    else if rooted then Lexical(comps[1..], rooted, out)
    else Lexical(comps[1..], rooted, out + [".."])
  }

  /** filepath.Clean. */
  function Clean(p: string): string {
    var names := Lexical(Components(p), IsAbs(p), []);
    if IsAbs(p) then Rooted(names) else if names == [] then "." else Join(names, '/')
  }

  function UpToLastSlash(p: string): string {
    if p == "" || p[|p| - 1] == '/' then p else UpToLastSlash(p[..|p| - 1])
  }

  /** filepath.Dir. */
  function Dir(p: string): string {
    Clean(UpToLastSlash(p))
  }

  /** filepath.Join of two elements, neither empty. */
  function JoinPath(a: string, b: string): string {
    Clean(a + "/" + b)
  }

  /** The names of the directory above; the root is above itself. */
  function Above(names: seq<string>): (up: seq<string>)
    ensures up <= names
  {
    if names == [] then [] else names[..|names| - 1]
  }

  // -------------------------------------------------------------------- laws

  lemma {:induction false} KeptOfConcat(a: seq<string>, b: seq<string>)
    ensures KeptOf(a + b) == KeptOf(a) + KeptOf(b)
  {
    if a == [] {
      assert a + b == b;
    } else {
      assert (a + b)[1..] == a[1..] + b;
      KeptOfConcat(a[1..], b);
    }
  }

  lemma ComponentsOfConcat(a: string, b: string)
    ensures Components(a + "/" + b) == Components(a) + Components(b)
  {
    SplitOfConcat(a, b, '/');
    KeptOfConcat(Split(a, '/'), Split(b, '/'));
  }

  lemma {:induction false} KeptOfNames(names: seq<string>)
    requires AreNames(names)
    ensures KeptOf(names) == names
  {
    if names != [] {
      assert names[0] in names;
      assert forall c | c in names[1..] :: c in names;
      KeptOfNames(names[1..]);
    }
  }

  lemma ComponentsOfJoin(names: seq<string>)
    requires AreNames(names)
    ensures Components(Join(names, '/')) == names
  {
    if names == [] {
      assert Split("", '/') == [""] && KeptOf([""][1..]) == [];
    } else {
      SplitOfJoin(names, '/');
      KeptOfNames(names);
    }
  }

  lemma ComponentsOfRooted(names: seq<string>)
    requires AreNames(names)
    ensures Components(Rooted(names)) == names
  {
    ComponentsOfJoin(names);
    ComponentsOfConcat("", Join(names, '/'));
    ComponentsOfJoin([]);
    assert "" + "/" + Join(names, '/') == Rooted(names);
  }

  lemma {:induction false} LexicalOfNames(names: seq<string>, rooted: bool, out: seq<string>)
    requires AreNames(names)
    ensures Lexical(names, rooted, out) == out + names
    decreases |names|
  {
    if names != [] {
      assert names[0] in names;
      assert forall c | c in names[1..] :: c in names;
      LexicalOfNames(names[1..], rooted, out + [names[0]]);
    }
  }

  lemma {:induction false} UpToSlashBefore(a: string, last: string)
    requires '/' !in last
    ensures UpToLastSlash(a + "/" + last) == a + "/"
    decreases |last|
  {
    var p := a + "/" + last;
    if last == "" {
      assert p == a + "/";
    } else {
      assert p[|p| - 1] == last[|last| - 1] && last[|last| - 1] in last;
      assert p[..|p| - 1] == a + "/" + last[..|last| - 1];
      UpToSlashBefore(a, last[..|last| - 1]);
    }
  }

  lemma {:induction false} JoinOfLast(names: seq<string>, c: string)
    ensures Join(names + [c], '/') == if names == [] then c else Join(names, '/') + "/" + c
  {
    if |names| > 0 {
      assert (names + [c])[1..] == names[1..] + [c];
      JoinOfLast(names[1..], c);
    }
  }

  lemma CleanOfNames(p: string, names: seq<string>)
    requires AreNames(names) && Components(p) == names
    ensures Clean(p) == if IsAbs(p) then Rooted(names) else if names == [] then "." else Join(names, '/')
  {
    LexicalOfNames(names, IsAbs(p), []);
    assert [] + names == names;
  }

  lemma ComponentsOfSlash(a: string)
    ensures Components(a + "/") == Components(a)
  {
    ComponentsOfConcat(a, "");
    ComponentsOfJoin([]);
    assert a + "/" + "" == a + "/";
  }

  /** Entering a directory by name appends the name. */
  lemma JoinOfRooted(names: seq<string>, c: string)
    requires AreNames(names) && IsName(c)
    ensures JoinPath(Rooted(names), c) == Rooted(names + [c])
  {
    var p := Rooted(names) + "/" + c;
    ComponentsOfConcat(Rooted(names), c);
    ComponentsOfRooted(names);
    ComponentsOfJoin([c]);
    assert p[0] == Rooted(names)[0];
    CleanOfNames(p, names + [c]);
  }

  /** What comes before the last name of a path, up to its slash. */
  lemma DirOfLast(a: string, last: string, up: seq<string>)
    requires '/' !in last && AreNames(up) && Components(a) == up
    ensures Dir(a + "/" + last) == if IsAbs(a + "/") then Rooted(up) else if up == [] then "." else Join(up, '/')
  {
    UpToSlashBefore(a, last);
    ComponentsOfSlash(a);
    CleanOfNames(a + "/", up);
  }

  /** The directory above a rooted path is named by all its names but the last. */
  lemma DirOfRooted(names: seq<string>)
    requires AreNames(names)
    ensures Dir(Rooted(names)) == Rooted(Above(names))
  {
    if names == [] {
      DirOfRoot();
    } else {
      var up, last := Above(names), names[|names| - 1];
      assert names == up + [last] && last in names;
      assert forall c | c in up :: c in names;
      JoinOfLast(up, last);
      if up == [] {
        ComponentsOfJoin([]);
        assert Rooted(names) == "" + "/" + last;
        DirOfLast("", last, up);
      } else {
        ComponentsOfRooted(up);
        assert Rooted(names) == Rooted(up) + "/" + last;
        DirOfLast(Rooted(up), last, up);
        assert (Rooted(up) + "/")[0] == '/';
      }
    }
  }

  lemma DirOfRoot()
    ensures Dir(Rooted([])) == Rooted([]) == "/"
  {
    ComponentsOfJoin([]);
    ComponentsOfSlash("");
    assert "" + "/" == "/" && UpToLastSlash("/") == "/";
    CleanOfNames("/", []);
  }

  /** What is walked to reach a clean path with no ".." in it: every name but the
      last, whether or not the path is rooted. */
  lemma WalkedToReach(p: string)
    requires Clean(p) == p && ".." !in Components(p)
    ensures Components(Dir(p)) == Above(Components(p))
  {
    var names := Components(p);
    SplitPartsHoldNoSeparator(p, '/');
    assert AreNames(names);
    CleanOfNames(p, names);
    if IsAbs(p) {
      DirOfRooted(names);
      assert forall c | c in Above(names) :: c in names;
      ComponentsOfRooted(Above(names));
    } else if names == [] {
      UpToNoSlash(".");
      ComponentsOfDot();
    } else {
      DirOfRelative(names);
    }
  }

  lemma ComponentsOfDot()
    ensures Components(".") == [] == Components("") && Clean("") == "."
  {
    SplitOfOnePart(".", '/');
    assert KeptOf(["."]) == [] by { assert ["."][1..] == []; }
    ComponentsOfJoin([]);
  }

  lemma {:induction false} DirOfRelative(names: seq<string>)
    requires AreNames(names) && names != []
    ensures Components(Dir(Join(names, '/'))) == Above(names)
  {
    var up, last := Above(names), names[|names| - 1];
    assert names == up + [last] && last in names;
    assert forall c | c in up :: c in names;
    JoinOfLast(up, last);
    if up == [] {
      DirOfName(last);
    } else {
      ComponentsOfJoin(up);
      RelativeStart(up);
      DirOfLast(Join(up, '/'), last, up);
      assert (Join(up, '/') + "/")[0] == Join(up, '/')[0];
    }
  }

  lemma DirOfName(name: string)
    requires '/' !in name
    ensures Components(Dir(name)) == []
  {
    UpToNoSlash(name);
    ComponentsOfDot();
  }

  lemma RelativeStart(names: seq<string>)
    requires AreNames(names) && names != []
    ensures Join(names, '/') != "" && Join(names, '/')[0] != '/'
  {
    assert names[0] in names && names[0][0] in names[0];
  }

  lemma {:induction false} UpToNoSlash(s: string)
    requires '/' !in s
    ensures UpToLastSlash(s) == ""
  {
    if s != "" {
      assert s[|s| - 1] in s;
      UpToNoSlash(s[..|s| - 1]);
    }
  }
}
