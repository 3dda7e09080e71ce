/** The atomic replacement of a file that holds a credential: what a crash, a
    failed step or a reader can see of it. */
module SecretFile {
  import opened Text

  datatype File = File(content: string, mode: nat)

  /** 0600. */
  const OWNER_ONLY := 0x180

  function Lookup(files: map<string, File>, path: string): Option<File> {
    if path in files then Some(files[path]) else None
  }

  /** Unsecured: the file is replaced and the last Harden failed. */
  datatype Written = Replaced | Untouched | Unsecured

  class Folder {
    /** A system call may fail by itself. */
    const flaky: bool
    var files: map<string, File>
    /** Every state of the folder a crash or a reader could meet. */
    ghost var seen: seq<map<string, File>>

    constructor (flaky: bool)
      ensures this.flaky == flaky && files == map[] && seen == [files]
    {
      this.flaky := flaky;
      files := map[];
      seen := [map[]];
    }

    /** One system call: it puts a file in place of whatever has the name. */
    method Put(name: string, file: File) returns (ok: bool)
      modifies this
      ensures files == if ok then old(files)[name := file] else old(files)
      ensures seen == old(seen) + [files] && (ok || flaky)
    {
      var fault: bool := *;
      ok := !(fault && flaky);
      if ok {
        files := files[name := file];
      }
      seen := seen + [files];
    }

    /** A write that fails may have put some of the data in the file. */
    method WriteData(name: string, data: string) returns (ok: bool)
      requires name in files
      modifies this
      ensures exists n: nat :: n <= |data| && files == old(files)[name := old(files)[name].(content := data[..n])] && (ok ==> n == |data|)
      ensures seen == old(seen) + [files] && (ok || flaky)
    {
      var written :| 0 <= written <= |data|;
      if !flaky {
        written := |data|;
      }
      files := files[name := files[name].(content := data[..written])];
      seen := seen + [files];
      ok := written == |data|;
    }

    method Rename(from: string, to: string) returns (ok: bool)
      requires from in files
      modifies this
      ensures files == if ok then (old(files) - {from})[to := old(files)[from]] else old(files)
      ensures seen == old(seen) + [files] && (ok || flaky)
    {
      var fault: bool := *;
      ok := !(fault && flaky);
      if ok {
        files := (files - {from})[to := files[from]];
      }
      seen := seen + [files];
    }

    method Remove(name: string)
      modifies this
      ensures files == old(files) || files == old(files) - {name}
      ensures seen == old(seen) + [files]
    {
      var fault: bool := *;
      if !fault {
        files := files - {name};
      }
      seen := seen + [files];
    }

    /** WriteFileWith. temp: the unused name CreateTemp picks. No state on the way
        holds at path anything but the old file or the whole new one. */
    method WriteFileWith(path: string, data: string, temp: string) returns (result: Written)
      requires temp !in files && temp != path
      modifies this
      ensures old(seen) <= seen
      ensures forall i | |old(seen)| <= i < |seen| :: Only(seen[i], old(files), path, File(data, OWNER_ONLY), temp)
      ensures Only(files, old(files), path, File(data, OWNER_ONLY), temp)
      ensures !flaky ==> result.Replaced?
      ensures result.Replaced? ==> Lookup(files, path) == Some(File(data, OWNER_ONLY))
      ensures result.Untouched? ==> Lookup(files, path) == old(Lookup(files, path))
      ensures result.Unsecured? ==> Lookup(files, path) == Some(File(data, OWNER_ONLY))
      ensures !result.Untouched? ==> temp !in files
    {
      var ok := Prepare(temp, data);
      if ok {
        ok := Rename(temp, path);
      }
      if !ok {
        Remove(temp);
        return Untouched;
      }
      ok := Put(path, files[path].(mode := OWNER_ONLY));
      Remove(temp);
      result := if ok then Replaced else Unsecured;
    }

    /** The Runner's WriteFile: the same replacement of a file that exists, keeping
        its mode. */
    method WriteConfig(path: string, data: string, temp: string) returns (ok: bool)
      requires temp !in files && temp != path
      modifies this
      ensures old(seen) <= seen && (path !in old(files) ==> !ok && files == old(files) && seen == old(seen))
      ensures path in old(files) ==>
                && (forall i | |old(seen)| <= i < |seen| :: Only(seen[i], old(files), path, File(data, old(files)[path].mode), temp))
                && Only(files, old(files), path, File(data, old(files)[path].mode), temp)
                && Lookup(files, path) == (if ok then Some(File(data, old(files)[path].mode)) else old(Lookup(files, path)))
                && (ok || flaky)
    {
      if path !in files {
        return false;
      }
      var mode := files[path].mode;
      ok := FillTemp(temp, data, mode);
      if ok {
        ok := Rename(temp, path);
      }
      Remove(temp);
    }

    /** CreateTemp, Write, Close and Chmod. */
    method FillTemp(temp: string, data: string, mode: nat) returns (ok: bool)
      requires temp !in files
      modifies this
      ensures SameBut(files, old(files), temp)
      ensures ok ==> temp in files && files[temp] == File(data, mode)
      ensures (ok || flaky) && old(seen) <= seen
      ensures forall i | |old(seen)| <= i < |seen| :: SameBut(seen[i], old(files), temp)
    {
      ok := Put(temp, File("", OWNER_ONLY));
      if !ok {
        return;
      }
      ghost var created := files;
      ok := WriteData(temp, data);
      if !ok {
        return;
      }
      assert data[..|data|] == data && files[temp].content == data;
      assert SameBut(files, created, temp);
      ok := Put(temp, files[temp].(mode := mode));
    }

    /** CreateTemp, writeTemp and the first Harden. */
    method Prepare(temp: string, data: string) returns (ok: bool)
      requires temp !in files
      modifies this
      ensures SameBut(files, old(files), temp)
      ensures ok ==> temp in files && files[temp] == File(data, OWNER_ONLY)
      ensures (ok || flaky) && old(seen) <= seen
      ensures forall i | |old(seen)| <= i < |seen| :: SameBut(seen[i], old(files), temp)
    {
      ok := Put(temp, File("", OWNER_ONLY));
      if !ok {
        return;
      }
      ok := WriteTemp(temp, data);
      assert SameBut(files, old(files), temp);
      if ok {
        ghost var filled := files;
        ok := Put(temp, files[temp].(mode := OWNER_ONLY));
        assert SameBut(files, filled, temp);
      }
    }

    /** writeTemp: mode, data, sync, close. */
    method WriteTemp(temp: string, data: string) returns (ok: bool)
      requires temp in files
      modifies this
      ensures temp in files && SameBut(files, old(files), temp)
      ensures ok ==> files[temp] == File(data, OWNER_ONLY)
      ensures (ok || flaky) && old(seen) <= seen
      ensures forall i | |old(seen)| <= i < |seen| :: SameBut(seen[i], old(files), temp)
    {
      ok := Put(temp, files[temp].(mode := OWNER_ONLY));
      if !ok {
        return;
      }
      ok := WriteData(temp, data);
      if !ok {
        return;
      }
      assert data[..|data|] == data;
      var unsynced: bool := *;
      ok := !(unsynced && flaky);
    }
  }

  ghost predicate SameBut(now: map<string, File>, before: map<string, File>, temp: string) {
    forall name | name != temp :: Lookup(now, name) == Lookup(before, name)
  }

  /** now is before, but for the temporary file and, at path, the old file or the
      whole new one. */
  ghost predicate Only(now: map<string, File>, before: map<string, File>, path: string, file: File, temp: string) {
    && (Lookup(now, path) == Lookup(before, path) || Lookup(now, path) == Some(file))
    && forall name | name != path && name != temp :: Lookup(now, name) == Lookup(before, name)
  }
}
