/** A file system as the file writer sees it: operations may fail, and the process may stop for good in any
    of the states that the files go through. */
module FileSystems {
  import opened Basics

  type Content = seq<byte>

  datatype Path = Path(directory: string, name: string)

  const NO_PATH := Path("", "")

  type Files = map<Path, Content>

  /** A path without a file name is no file. */
  predicate Named(files: Files) { forall path :: path in files ==> path.name != "" }

  function RemoveFile(files: Files, path: Path): Files { files - {path} }

  class FileSystem {
    var files: Files

    /** In a reliable file system no operation fails. */
    const reliable: bool

    /** Every state the files have been in, the present one last.  A crash leaves one of them behind. */
    var history: seq<Files>

    ghost predicate Valid()
      reads this
    {
      history != [] && history[|history| - 1] == files && forall i :: 0 <= i < |history| ==> Named(history[i])
    }

    constructor (files: Files, reliable: bool)
      requires Named(files)
      ensures Valid() && this.files == files && this.reliable == reliable && history == [files]
    {
      this.files, this.reliable, history := files, reliable, [files];
    }

    method Fails() returns (fails: bool)
      ensures reliable ==> !fails
    {
      fails := false;
      if !reliable {
        fails := *;
      }
    }

    method CreateDirectories(directory: string) returns (ok: bool)
      ensures reliable ==> ok
    {
      var fails := Fails();
      ok := !fails;
    }

    method Exists(path: Path) returns (ok: bool, found: bool)
      ensures ok ==> found == (path in files)
      ensures reliable ==> ok
    {
      var fails := Fails();
      ok, found := !fails, !fails && path in files;
    }

    /** The size, or zero if it cannot be found out. */
    method SizeOrZero(path: Path) returns (size: nat)
      ensures size == 0 || (path in files && size == |files[path]|)
      ensures reliable && path in files ==> size == |files[path]|
    {
      var fails := Fails();
      size := if fails || path !in files then 0 else |files[path]|;
    }

    method DirectoryExists(directory: string) returns (found: bool) {
      found := *;
    }

    /** Removal, after a test that there is something to remove; nothing to do for the empty path. */
    method RemoveIfExists(path: Path) returns (ok: bool)
      requires Valid()
      modifies this
      ensures Valid() && old(history) <= history
      ensures ok ==> files == RemoveFile(old(files), path)
      ensures !ok || path !in old(files) ==> files == old(files) && history == old(history)
      ensures forall i :: |old(history)| <= i < |history| ==> history[i] == files
      ensures reliable ==> ok
    {
      if path == NO_PATH {
        assert files == RemoveFile(files, path);
        return true;
      }
      var inspected, found := Exists(path);
      if !inspected {
        return false;
      }
      if !found {
        assert files == RemoveFile(files, path);
        return true;
      }
      var fails := Fails();
      if fails {
        return false;
      }
      files := RemoveFile(files, path);
      history := history + [files];
      return true;
    }

    method Rename(from: Path, to: Path) returns (ok: bool)
      requires Valid() && (from in files ==> from != to)
      modifies this
      ensures Valid() && old(history) <= history
      ensures ok ==> from in old(files) && files == RemoveFile(old(files)[to := old(files)[from]], from)
      ensures !ok ==> files == old(files) && history == old(history)
      ensures forall i :: |old(history)| <= i < |history| ==> history[i] == files
      ensures reliable && from in old(files) && to.name != "" ==> ok
    {
      var fails := Fails();
      if fails || from !in files || to.name == "" {
        return false;
      }
      files := RemoveFile(files[to := files[from]], from);
      history := history + [files];
      return true;
    }

    /** Opening for writing empties the file; opening for appending leaves what is there. */
    method Open(path: Path, append: bool) returns (ok: bool)
      requires Valid()
      modifies this
      ensures Valid() && old(history) <= history
      ensures ok ==> files == old(files)[path := if append && path in old(files) then old(files)[path] else []]
      ensures !ok ==> files == old(files) && history == old(history)
      ensures forall i :: |old(history)| <= i < |history| ==> history[i] == files
      ensures reliable && path.name != "" ==> ok
    {
      var fails := Fails();
      if fails || path.name == "" {
        return false;
      }
      files := files[path := if append && path in files then files[path] else []];
      history := history + [files];
      return true;
    }

    /** Adding bytes to an open file; a failure or a crash may leave any part of them behind. */
    method Append(path: Path, bytes: Content) returns (ok: bool)
      requires Valid() && path in files
      modifies this
      ensures Valid() && old(history) <= history
      ensures path in files && files == old(files)[path := files[path]]
      ensures old(files)[path] <= files[path] <= old(files)[path] + bytes
      ensures ok ==> files[path] == old(files)[path] + bytes
      ensures forall i :: |old(history)| <= i < |history| ==>
                path in history[i] && history[i] == old(files)[path := history[i][path]]
                && old(files)[path] <= history[i][path] <= old(files)[path] + bytes
      ensures reliable ==> ok
    {
      var before := files[path];
      var written: nat :| written <= |bytes|;
      files := files[path := before + bytes[..written]];
      history := history + [files];
      var fails := Fails();
      if fails {
        return false;
      }
      files := files[path := before + bytes];
      history := history + [files];
      return true;
    }

    /** Opening, writing and closing a whole file; it may be left empty or torn. */
    method WriteFile(path: Path, content: Content) returns (ok: bool)
      requires Valid()
      modifies this
      ensures Valid() && old(history) <= history
      ensures ok ==> files == old(files)[path := content]
      ensures !ok ==> files == old(files) || Torn(old(files), files, path, content)
      ensures forall i :: |old(history)| <= i < |history| ==> Torn(old(files), history[i], path, content)
      ensures reliable && path.name != "" ==> ok
    {
      ok := Open(path, false);
      if !ok {
        return;
      }
      ghost var emptied, states := files, history;
      ok := Append(path, content);
      assert emptied[path] == [];
      assert files == old(files)[path := files[path]];
      assert [] + content == content;
      forall i | |old(history)| <= i < |history| ensures Torn(old(files), history[i], path, content) {
        if i < |states| {
          assert history[i] == states[i] == emptied;
        } else {
          assert history[i] == emptied[path := history[i][path]] == old(files)[path := history[i][path]];
          assert history[i][path] <= [] + content == content;
        }
      }
    }
  }

  /** A file holds some first part of the content, all others are as before. */
  ghost predicate Torn(before: Files, after: Files, path: Path, content: Content) {
    path in after && after[path] <= content && after == before[path := after[path]]
  }
}
