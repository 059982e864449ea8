/** Prepared file writes (src/core/platform/file_write.cpp): a temporary file that replaces the destination
    when it is complete, and a state file that says how much of it was written. */
module FileWrite {
  import opened Basics
  import opened FileSystems
  import opened TransferCheckpoint
  import opened TransferResume

  datatype Mode = Overwrite | SkipExisting | FailIfExists

  datatype Options = Options(mode: Mode, atomicWrite: bool, tempSuffix: string, allowResume: bool, resumeToken: Text)

  datatype Problem =
    | NoProblem
    | OutputPathRequired
    | CannotCreateDirectory
    | CannotInspectOutput
    | CannotInspectWritePath
    | CannotInspectState
    | CannotClearState
    | CannotClearPartial
    | OutputExists
    | CannotOpenOutput
    | CannotWriteOutput
    | CannotFinalizeOutput
    | CannotInspectDestination
    | DestinationAppeared
    | CannotCommit
    | CannotSaveState

  // ---------------------------------------------------------------- Paths

  const DEFAULT_SUFFIX := ".cauthdownload"
  const STATE_SUFFIX := ".resume"

  function Suffixed(path: Path, suffix: string): Path { Path(path.directory, path.name + suffix) }

  function WritePath(final: Path, options: Options): Path {
    if !options.atomicWrite then final
    else Suffixed(final, if options.tempSuffix == "" then DEFAULT_SUFFIX else options.tempSuffix)
  }

  function StatePath(final: Path, options: Options): Path { Suffixed(WritePath(final, options), STATE_SUFFIX) }

  /** The three files of a write are different files; only a non-atomic write goes to the destination itself. */
  lemma PathsDiffer(final: Path, options: Options)
    ensures StatePath(final, options) != final && StatePath(final, options) != WritePath(final, options)
    ensures WritePath(final, options) == final <==> !options.atomicWrite
    ensures options.atomicWrite && options.tempSuffix == "" ==>
              WritePath(final, options) == Path(final.directory, final.name + ".cauthdownload")
              && StatePath(final, options) == Path(final.directory, final.name + ".cauthdownload" + ".resume")
    ensures options.atomicWrite && options.tempSuffix != "" ==>
              WritePath(final, options) == Path(final.directory, final.name + options.tempSuffix)
    ensures !options.atomicWrite ==> StatePath(final, options) == Path(final.directory, final.name + ".resume")
    ensures final.name != "" ==> WritePath(final, options) != NO_PATH && StatePath(final, options) != NO_PATH
  {
    var write := WritePath(final, options);
    assert |write.name + STATE_SUFFIX| == |write.name| + 7;
    assert |(final.name + if options.tempSuffix == "" then DEFAULT_SUFFIX else options.tempSuffix)| > |final.name|;
  }

  // ---------------------------------------------------------------- Resume states

  function StateText(token: Text, count: U64): Text { Saved(ToCheckpoint(ResumeState(token, count, 0, 0, []))) }

  /** The token that a state is read with which was saved with a token, if it can be read: the token itself exactly
      if that has no newline, else perhaps another one. */
  function TokenRead(token: Text): Option<Text> {
    var read := FromCheckpoint(TokenLines(token));
    if read.Resumed? then Some(read.state.token) else None
  }

  ghost function Recorded(files: Files, state: Path): ResumeResult {
    FromCheckpoint(if state in files then Load(files[state]) else Refused(CannotOpen))
  }

  /** The state file names the token, and its count is the given one. */
  ghost predicate Records(files: Files, state: Path, token: Text, count: nat) {
    Recorded(files, state).Resumed? && Recorded(files, state).state.token == token
    && Recorded(files, state).state.committedBytes == count
  }

  /** The condition under which a write is taken up again. */
  ghost predicate Resumable(files: Files, final: Path, options: Options) {
    var write, state := WritePath(final, options), StatePath(final, options);
    options.allowResume && options.resumeToken != [] && write in files && state in files
    && Records(files, state, options.resumeToken, |files[write]|)
  }

  method ReadResumeState(fs: FileSystem, path: Path) returns (result: ResumeResult)
    ensures result.Resumed? ==> result == Recorded(fs.files, path)
    ensures fs.reliable ==> result == Recorded(fs.files, path)
  {
    hide Load;
    var fails := fs.Fails();
    result := LoadResumeState(if fails || path !in fs.files then None else Some(fs.files[path]));
  }

  // ---------------------------------------------------------------- Output streams

  /** A buffered output file.  Bytes reach the file in order, at any time until the stream is closed; after a
      failure none do. */
  class OutputStream {
    var path: Path
    var isOpen: bool
    var failed: bool
    var pending: Content

    constructor ()
      ensures !isOpen && !failed && pending == []
    {
      path, isOpen, failed, pending := NO_PATH, false, false, [];
    }

    method Open(fs: FileSystem, path: Path, append: bool)
      requires fs.Valid()
      modifies fs, this
      ensures fs.Valid() && old(fs.history) <= fs.history
      ensures failed ==> isOpen == old(isOpen) && this.path == old(this.path) && pending == old(pending)
      ensures failed ==> fs.files == old(fs.files) && fs.history == old(fs.history)
      ensures !failed ==> isOpen && this.path == path && pending == []
      ensures !failed ==>
              fs.files == old(fs.files)[path := if append && path in old(fs.files) then old(fs.files)[path] else []]
      ensures forall i :: |old(fs.history)| <= i < |fs.history| ==> fs.history[i] == fs.files
      ensures fs.reliable && path.name != "" && !old(isOpen) ==> !failed
    {
      if isOpen {
        failed := true;
        return;
      }
      var ok := fs.Open(path, append);
      if !ok {
        failed := true;
        return;
      }
      this.path, isOpen, failed, pending := path, true, false, [];
    }

    /** Pass the first `count` pending bytes on.  If the file has been removed, they go nowhere. */
    method Flush(fs: FileSystem, count: nat)
      requires fs.Valid() && isOpen && !failed && count <= |pending|
      modifies fs, this`pending, this`failed
      ensures fs.Valid() && old(fs.history) <= fs.history
      ensures path !in old(fs.files) ==> fs.files == old(fs.files) && fs.history == old(fs.history)
      ensures path in old(fs.files) ==> Extended(old(fs.files), fs.files, path, old(pending))
      ensures path in old(fs.files) && !failed ==> fs.files[path] + pending == old(fs.files)[path] + old(pending)
      ensures forall i :: |old(fs.history)| <= i < |fs.history| ==>
                Extended(old(fs.files), fs.history[i], path, old(pending))
      ensures !failed ==> pending == old(pending)[count..]
      ensures fs.reliable ==> !failed
    {
      var sent := pending[..count];
      assert pending == sent + pending[count..];
      if path in fs.files {
        ghost var before := fs.files[path];
        assert before + pending == (before + sent) + pending[count..];
        var ok := fs.Append(path, sent);
        failed := !ok;
      }
      pending := if failed then [] else pending[count..];
    }

    method Write(fs: FileSystem, bytes: Content)
      requires fs.Valid() && isOpen
      modifies fs, this`pending, this`failed
      ensures fs.Valid() && old(fs.history) <= fs.history
      ensures path !in old(fs.files) ==> fs.files == old(fs.files) && fs.history == old(fs.history)
      ensures path in old(fs.files) ==> Extended(old(fs.files), fs.files, path, old(pending) + bytes)
      ensures path in old(fs.files) && !failed ==>
              fs.files[path] + pending == old(fs.files)[path] + old(pending) + bytes
      ensures forall i :: |old(fs.history)| <= i < |fs.history| ==>
                Extended(old(fs.files), fs.history[i], path, old(pending) + bytes)
      ensures old(failed) ==> failed && fs.files == old(fs.files) && fs.history == old(fs.history)
      ensures fs.reliable && !old(failed) ==> !failed
    {
      if failed {
        assert path in fs.files ==> fs.files == fs.files[path := fs.files[path]];
        return;
      }
      pending := pending + bytes;
      assert path in fs.files ==> fs.files[path] + old(pending) + bytes == fs.files[path] + pending;
      var count: nat :| count <= |pending|;
      Flush(fs, count);
    }

    method Close(fs: FileSystem)
      requires fs.Valid()
      modifies fs, this`pending, this`failed, this`isOpen
      ensures fs.Valid() && old(fs.history) <= fs.history
      ensures !isOpen
      ensures !old(isOpen) || path !in old(fs.files) ==> fs.files == old(fs.files) && fs.history == old(fs.history)
      ensures old(isOpen) && path in old(fs.files) ==> Extended(old(fs.files), fs.files, path, old(pending))
      ensures old(isOpen) && path in old(fs.files) && !failed ==> fs.files[path] == old(fs.files)[path] + old(pending)
      ensures forall i :: |old(fs.history)| <= i < |fs.history| ==>
                Extended(old(fs.files), fs.history[i], path, old(pending))
      ensures old(failed) ==> failed && fs.files == old(fs.files) && fs.history == old(fs.history)
      ensures fs.reliable && !old(failed) ==> !failed
    {
      if isOpen && !failed {
        ghost var all := pending;
        Flush(fs, |pending|);
        assert !failed && path in fs.files ==> fs.files[path] + [] == fs.files[path];
      } else {
        assert path in fs.files ==> fs.files == fs.files[path := fs.files[path]];
      }
      isOpen, pending := false, [];
    }
  }

  /** Some first part of `added` has come to the file, and nothing else has changed. */
  ghost predicate Extended(before: Files, after: Files, path: Path, added: Content) {
    path in before && path in after && after == before[path := after[path]]
    && before[path] <= after[path] <= before[path] + added
  }

  // ---------------------------------------------------------------- Removals

  /** Some of the two files are gone, and nothing else has changed. */
  ghost predicate Stripped(before: Files, after: Files, write: Path, state: Path) {
    after == before || after == RemoveFile(before, write) || after == RemoveFile(before, state)
    || after == RemoveFile(RemoveFile(before, write), state)
  }

  lemma RemovalsCommute(files: Files, write: Path, state: Path)
    ensures RemoveFile(RemoveFile(files, state), write) == RemoveFile(RemoveFile(files, write), state)
  {}

  lemma AbsentIsRemoved(files: Files, path: Path)
    ensures path !in files ==> RemoveFile(files, path) == files
  {}

  // ---------------------------------------------------------------- Prepared writes

  const UNUSED := WriteState(Options(Overwrite, true, DEFAULT_SUFFIX, false, []), NO_PATH, NO_PATH, NO_PATH, NoProblem,
                             false, false, false, false, 0)

  datatype WriteState = WriteState(options: Options, finalPath: Path, writePath: Path, statePath: Path,
                                   problem: Problem, skipped: bool, committed: bool, resumeAvailable: bool,
                                   preserving: bool, resumeOffset: U64)
  {
    /** Either the write has no files, or they are those that belong to its destination. */
    ghost predicate Placed() {
      (writePath == NO_PATH && statePath == NO_PATH)
      || (finalPath.name != "" && writePath == WritePath(finalPath, options)
          && statePath == StatePath(finalPath, options))
    }

    predicate Owns() { !(committed || skipped || preserving) }

    /** What dropping the write does to the files: nothing unless it is the owner. */
    ghost predicate Dropped(before: Files, after: Files, past: seq<Files>, present: seq<Files>, reliable: bool) {
      var removable := if options.atomicWrite then writePath else NO_PATH;
      past <= present
      && (!Owns() ==> after == before && present == past)
      && (Owns() && reliable ==> after == RemoveFile(RemoveFile(before, removable), statePath))
      && Stripped(before, after, removable, statePath)
      && forall i :: |past| <= i < |present| ==> Stripped(before, present[i], removable, statePath)
    }
  }

  class PreparedFileWrite {
    var options: Options
    var finalPath: Path
    var writePath: Path
    var statePath: Path
    var problem: Problem
    var skipped: bool
    var committed: bool
    var resumeAvailable: bool
    var preserving: bool
    var resumeOffset: U64

    ghost predicate Valid()
      reads this
    {
      State().Placed()
    }

    /** Dropping the write removes its files. */
    predicate Owns()
      reads this
    {
      State().Owns()
    }

    constructor ()
      ensures Valid() && Owns() && State() == UNUSED
    {
      options := Options(Overwrite, true, DEFAULT_SUFFIX, false, []);
      finalPath, writePath, statePath, problem := NO_PATH, NO_PATH, NO_PATH, NoProblem;
      skipped, committed, resumeAvailable, preserving, resumeOffset := false, false, false, false, 0;
    }

    function State(): WriteState
      reads this
    {
      WriteState(options, finalPath, writePath, statePath, problem, skipped, committed, resumeAvailable, preserving,
                 resumeOffset)
    }

    /** The move constructor: the new write takes everything over, and the old one owns nothing. */
    constructor Moved(other: PreparedFileWrite)
      requires other.Valid()
      modifies other
      ensures Valid() && State() == old(other.State()) && Owns() == old(other.Owns())
      ensures other.Valid() && !other.Owns()
    {
      options, finalPath, writePath, statePath, problem :=
        other.options, other.finalPath, other.writePath, other.statePath, other.problem;
      skipped, committed, resumeAvailable, preserving, resumeOffset :=
        other.skipped, other.committed, other.resumeAvailable, other.preserving, other.resumeOffset;
      new;
      other.Release();
    }

    /** What a move leaves of its source. */
    method Release()
      modifies this
      ensures Valid() && !Owns()
    {
      options := options.(tempSuffix := "", resumeToken := []);
      finalPath, writePath, statePath, problem := NO_PATH, NO_PATH, NO_PATH, NoProblem;
      skipped, committed, resumeAvailable, preserving, resumeOffset := false, true, false, false, 0;
    }

    /** Move assignment: the write that was here before is dropped, with its files. */
    method MoveFrom(fs: FileSystem, other: PreparedFileWrite)
      requires fs.Valid() && Valid() && other.Valid()
      modifies fs, this, other
      ensures fs.Valid() && Valid() && other.Valid()
      ensures this == other ==> State() == old(State()) && fs.files == old(fs.files) && fs.history == old(fs.history)
      ensures this != other ==> State() == old(other.State()) && Owns() == old(other.Owns()) && !other.Owns()
      ensures this != other ==> old(State()).Dropped(old(fs.files), fs.files, old(fs.history), fs.history, fs.reliable)
    {
      hide WriteState.Placed, WriteState.Dropped, WriteState.Owns;
      if this == other {
        return;
      }
      Cleanup(fs);
      Take(other);
      other.Release();
    }

    method Take(other: PreparedFileWrite)
      modifies this
      ensures State() == old(other.State())
    {
      options, finalPath, writePath, statePath, problem :=
        other.options, other.finalPath, other.writePath, other.statePath, other.problem;
      skipped, committed, resumeAvailable, preserving, resumeOffset :=
        other.skipped, other.committed, other.resumeAvailable, other.preserving, other.resumeOffset;
    }

    /** What happens when a write is dropped: nothing unless it is the owner; otherwise its temporary file and
        its state file go, as far as they can be removed. */
    method Cleanup(fs: FileSystem)
      requires fs.Valid() && Valid()
      modifies fs
      ensures fs.Valid() && State().Dropped(old(fs.files), fs.files, old(fs.history), fs.history, fs.reliable)
    {
      if committed || skipped || preserving {
        return;
      }
      if options.atomicWrite {
        var _ := fs.RemoveIfExists(writePath);
      }
      ghost var middle := fs.history;
      var _ := fs.RemoveIfExists(statePath);
      assert forall i :: |old(fs.history)| <= i < |middle| ==> fs.history[i] == middle[i];
    }

    /** Open the file to write to, at its end if an earlier write is taken up. */
    method OpenBinaryOutput(fs: FileSystem, output: OutputStream) returns (ready: bool, error: Problem)
      requires fs.Valid() && Valid()
      modifies fs, output
      ensures fs.Valid() && old(fs.history) <= fs.history
      ensures ready ==> error == problem == NoProblem && !skipped
      ensures ready ==> output.isOpen && !output.failed && output.pending == [] && output.path == writePath
      ensures ready ==> fs.files == Started(old(fs.files), writePath, resumeAvailable && resumeOffset > 0)
      ensures !ready ==> fs.files == old(fs.files) && fs.history == old(fs.history)
      ensures !ready ==>
              error == if problem != NoProblem then problem else if skipped then NoProblem else CannotOpenOutput
      ensures !ready ==>
              (output.isOpen, output.path, output.pending) == old((output.isOpen, output.path, output.pending))
      ensures forall i :: |old(fs.history)| <= i < |fs.history| ==> fs.history[i] == fs.files
      ensures fs.reliable && problem == NoProblem && !skipped && writePath != NO_PATH && old(!output.isOpen) ==> ready
    {
      if problem != NoProblem {
        return false, problem;
      }
      if skipped {
        return false, NoProblem;
      }
      PathsDiffer(finalPath, options);
      output.Open(fs, writePath, resumeAvailable && resumeOffset > 0);
      if output.failed {
        return false, CannotOpenOutput;
      }
      return true, NoProblem;
    }

    /** Put the temporary file in the place of the destination, and clear the state. */
    method Commit(fs: FileSystem) returns (error: Problem)
      requires fs.Valid() && Valid()
      modifies fs, this`committed, this`resumeAvailable, this`resumeOffset
      ensures fs.Valid() && old(fs.history) <= fs.history
      ensures problem != NoProblem ==> error == problem && unchanged(this)
      ensures problem == NoProblem && (skipped || old(committed)) ==> error == NoProblem && unchanged(this)
      ensures problem == NoProblem && error == NoProblem ==> skipped || committed
      ensures problem != NoProblem || skipped || old(committed) ==>
              fs.files == old(fs.files) && fs.history == old(fs.history)
      // A non-atomic write already is in its place
      ensures !options.atomicWrite ==> fs.files == old(fs.files) || fs.files == RemoveFile(old(fs.files), statePath)
      ensures !options.atomicWrite && old(Running()) && error == NoProblem ==>
              fs.files == RemoveFile(old(fs.files), statePath)
      // An atomic write replaces the destination with the whole temporary file, or leaves it
      ensures options.atomicWrite && old(Running()) && error == NoProblem ==>
                writePath in old(fs.files)
                && fs.files == RemoveFile(Replaced(old(fs.files), writePath, finalPath), statePath)
      ensures options.atomicWrite ==> forall i :: |old(fs.history)| <= i < |fs.history| ==>
                CommittedFrom(old(fs.files), fs.history[i], finalPath, writePath, statePath, options.mode)
      ensures error != NoProblem ==> committed == old(committed)
      ensures !options.atomicWrite ==> forall i :: |old(fs.history)| <= i < |fs.history| ==>
                fs.history[i] == RemoveFile(old(fs.files), statePath)
      // An existing destination is kept unless it may be overwritten
      ensures options.atomicWrite && options.mode != Overwrite && finalPath in old(fs.files) && old(Running()) ==>
                error != NoProblem && fs.files == old(fs.files) && fs.history == old(fs.history)
      ensures fs.reliable && old(Running()) && options.atomicWrite && writePath in old(fs.files)
              && MayReplace(old(fs.files))
              ==> error == NoProblem
      ensures fs.reliable && old(Running()) && !options.atomicWrite ==> error == NoProblem
    {
      if problem != NoProblem {
        return problem;
      }
      if skipped || committed {
        return NoProblem;
      }
      if !options.atomicWrite {
        var cleared := ClearResumeState(fs);
        if !cleared {
          return CannotClearState;
        }
        committed := true;
        return NoProblem;
      }
      PathsDiffer(finalPath, options);
      error := CommitAtomicReplace(fs);
      if error != NoProblem {
        return;
      }
      ghost var middle := fs.history;
      var cleared := ClearResumeState(fs);
      assert forall i :: |old(fs.history)| <= i < |middle| ==> fs.history[i] == middle[i];
      if !cleared {
        return CannotClearState;
      }
      committed := true;
      return NoProblem;
    }

    /** The destination may be put in place. */
    predicate MayReplace(files: Files)
      reads this
    {
      options.mode == Overwrite || finalPath !in files
    }

    predicate Running()
      reads this
    {
      problem == NoProblem && !skipped && !committed
    }

    method CommitAtomicReplace(fs: FileSystem) returns (error: Problem)
      requires fs.Valid() && Valid() && options.atomicWrite
      modifies fs
      ensures fs.Valid() && old(fs.history) <= fs.history
      ensures error == NoProblem ==> writePath in old(fs.files) && MayReplace(old(fs.files))
      ensures error == NoProblem ==> fs.files == Replaced(old(fs.files), writePath, finalPath)
      ensures error != NoProblem ==> fs.files == old(fs.files) && fs.history == old(fs.history)
      ensures forall i :: |old(fs.history)| <= i < |fs.history| ==> fs.history[i] == fs.files
      ensures fs.reliable && writePath in old(fs.files) && MayReplace(old(fs.files))
              ==> error == NoProblem
      ensures fs.reliable && options.mode != Overwrite && finalPath in old(fs.files) ==> error == DestinationAppeared
    {
      if options.mode == SkipExisting || options.mode == FailIfExists {
        var inspected, found := fs.Exists(finalPath);
        if !inspected {
          return CannotInspectDestination;
        }
        if found {
          return DestinationAppeared;
        }
      }
      PathsDiffer(finalPath, options);
      var renamed := fs.Rename(writePath, finalPath);
      return if renamed then NoProblem else CannotCommit;
    }

    /** Open the file, write the bytes and close it. */
    method WriteOutput(fs: FileSystem, bytes: Content) returns (error: Problem)
      requires fs.Valid() && Valid() && problem == NoProblem && !skipped
      modifies fs
      ensures fs.Valid() && old(fs.history) <= fs.history
      ensures error == NoProblem ==>
                fs.files == old(fs.files)[writePath := Kept(old(fs.files), resumeAvailable && resumeOffset > 0) + bytes]
      ensures fs.files == old(fs.files) || OnlyChanged(old(fs.files), fs.files, writePath)
      ensures forall i :: |old(fs.history)| <= i < |fs.history| ==> OnlyChanged(old(fs.files), fs.history[i], writePath)
      ensures fs.reliable && writePath != NO_PATH ==> error == NoProblem
    {
      var output := new OutputStream();
      var ready: bool;
      ready, error := OpenBinaryOutput(fs, output);
      if !ready {
        return;
      }
      error := FillOutput(fs, output, bytes);
      ghost var before, resuming := old(fs.files), resumeAvailable && resumeOffset > 0;
      StartedIsOnlyChanged(before, writePath, resuming);
      assert Started(before, writePath, resuming)[writePath] == Kept(before, resuming);
      forall i | |old(fs.history)| <= i < |fs.history| ensures OnlyChanged(before, fs.history[i], writePath) {
      }
      if error == NoProblem {
        assert fs.files == before[writePath := fs.files[writePath]];
      }
    }

    /** Write the bytes to an open output and close it. */
    method FillOutput(fs: FileSystem, output: OutputStream, bytes: Content) returns (error: Problem)
      requires fs.Valid() && output.isOpen && !output.failed && output.pending == [] && output.path in fs.files
      modifies fs, output
      ensures fs.Valid() && old(fs.history) <= fs.history && output.path == old(output.path)
      ensures Extended(old(fs.files), fs.files, output.path, bytes)
      ensures error == NoProblem ==> fs.files[output.path] == old(fs.files)[output.path] + bytes
      ensures forall i :: |old(fs.history)| <= i < |fs.history| ==>
              Extended(old(fs.files), fs.history[i], output.path, bytes)
      ensures fs.reliable ==> error == NoProblem
    {
      ghost var path, before := output.path, fs.files;
      ExtendedByNothing(before, path, bytes);
      assert before[path] + [] + bytes == before[path] + bytes && [] + bytes == bytes;
      if bytes != [] {
        output.Write(fs, bytes);
      }
      error := if output.failed then CannotWriteOutput else NoProblem;
      ghost var middle, pending, writing := fs.files, output.pending, fs.history;
      assert !output.failed ==> middle[path] + pending == before[path] + bytes;
      output.Close(fs);
      if error == NoProblem && output.failed {
        error := CannotFinalizeOutput;
      }
      if error != CannotWriteOutput {
        ExtendedTwice(before, middle, fs.files, path, bytes, pending);
      }
      forall i | |old(fs.history)| <= i < |fs.history| ensures Extended(before, fs.history[i], path, bytes) {
        if i < |writing| {
          assert fs.history[i] == writing[i];
        } else {
          ExtendedTwice(before, middle, fs.history[i], path, bytes, pending);
        }
      }
    }

    /** Write everything at once, and commit. */
    method WriteAll(fs: FileSystem, bytes: Content) returns (error: Problem)
      requires fs.Valid() && Valid()
      modifies fs, this`committed, this`resumeAvailable, this`resumeOffset
      ensures fs.Valid() && old(fs.history) <= fs.history
      ensures problem == NoProblem && skipped ==> error == NoProblem
      ensures problem != NoProblem ==> error == problem
      ensures problem != NoProblem || skipped || (writePath == NO_PATH && options.atomicWrite) ==>
                fs.files == old(fs.files) && fs.history == old(fs.history)
      ensures options.atomicWrite && old(Running()) && error == NoProblem ==>
                committed && MayReplace(old(fs.files))
                && fs.files == WithoutPartial(old(fs.files))
                                 [finalPath := Kept(old(fs.files), old(resumeAvailable && resumeOffset > 0)) + bytes]
      ensures !options.atomicWrite && old(Running()) && error == NoProblem ==>
                var content := Kept(old(fs.files), old(resumeAvailable && resumeOffset > 0)) + bytes;
                committed && fs.files == RemoveFile(old(fs.files)[writePath := content],
                                                    statePath)
      ensures fs.reliable && old(Running()) && options.atomicWrite && writePath != NO_PATH && MayReplace(old(fs.files))
              ==> error == NoProblem
      ensures options.atomicWrite ==> Steps(fs.history, |old(fs.history)|, finalPath, writePath, options.mode)
    {
      hide Steps, OnlyChanged, WritePath, StatePath, CommittedFrom, Replaced;
      KeptSteps(fs.history, |fs.history|, finalPath, writePath, options.mode);
      if problem != NoProblem {
        return problem;
      }
      if skipped {
        return NoProblem;
      }
      error := WriteOutput(fs, bytes);
      PathsDiffer(finalPath, options);
      ghost var states := fs.history;
      NoHistoryWithoutPath(old(fs.files), old(fs.history), states, writePath);
      WrittenSteps(old(fs.files), old(fs.history), states, states, finalPath, writePath, statePath, options.mode);
      if error != NoProblem {
        return;
      }
      ghost var content := Kept(old(fs.files), resumeAvailable && resumeOffset > 0) + bytes;
      CommittedContent(old(fs.files), finalPath, writePath, statePath, content);
      error := Commit(fs);
      WrittenSteps(old(fs.files), old(fs.history), states, fs.history, finalPath, writePath, statePath, options.mode);
    }

    ghost function WithoutPartial(files: Files): Files
      reads this
    {
      RemoveFile(RemoveFile(files, writePath), statePath)
    }

    /** The content that a write goes on from. */
    ghost function Kept(files: Files, resuming: bool): Content
      reads this
    {
      if resuming && writePath in files then files[writePath] else []
    }

    method SaveResumeState(fs: FileSystem, count: U64) returns (error: Problem)
      requires fs.Valid() && Valid()
      modifies fs, this`resumeAvailable, this`resumeOffset
      ensures fs.Valid() && old(fs.history) <= fs.history
      ensures !KeepsState() ==>
              fs.files == old(fs.files) && fs.history == old(fs.history) && error == problem && unchanged(this)
      ensures error != NoProblem ==> unchanged(this)
      ensures KeepsState() && error == NoProblem ==> resumeAvailable && resumeOffset == count
      ensures KeepsState() && error == NoProblem ==>
                fs.files == old(fs.files)[statePath := StateText(options.resumeToken, count)]
      ensures fs.files == old(fs.files)
              || Torn(old(fs.files), fs.files, statePath, StateText(options.resumeToken, count))
      ensures forall i :: |old(fs.history)| <= i < |fs.history| ==>
                Torn(old(fs.files), fs.history[i], statePath, StateText(options.resumeToken, count))
      ensures fs.reliable && problem == NoProblem && writePath != NO_PATH ==> error == NoProblem
    {
      if problem != NoProblem {
        return problem;
      }
      if !options.allowResume || options.resumeToken == [] || skipped {
        return NoProblem;
      }
      var text := TransferResume.SaveResumeState(ResumeState(options.resumeToken, count, 0, 0, []));
      var created := fs.CreateDirectories(statePath.directory);
      if !created {
        var found := fs.DirectoryExists(statePath.directory);
        if !found {
          return CannotSaveState;
        }
      }
      PathsDiffer(finalPath, options);
      var saved := fs.WriteFile(statePath, text);
      if !saved {
        return CannotSaveState;
      }
      resumeAvailable, resumeOffset := true, count;
      return NoProblem;
    }

    predicate KeepsState()
      reads this
    {
      problem == NoProblem && options.allowResume && options.resumeToken != [] && !skipped
    }

    method ClearResumeState(fs: FileSystem) returns (cleared: bool)
      requires fs.Valid()
      modifies fs, this`resumeAvailable, this`resumeOffset
      ensures fs.Valid() && old(fs.history) <= fs.history
      ensures fs.files == if cleared then RemoveFile(old(fs.files), statePath) else old(fs.files)
      ensures forall i :: |old(fs.history)| <= i < |fs.history| ==>
              fs.history[i] == RemoveFile(old(fs.files), statePath)
      ensures cleared && statePath != NO_PATH ==> !resumeAvailable && resumeOffset == 0
      ensures !cleared ==> unchanged(this)
      ensures fs.reliable ==> cleared
    {
      if statePath == NO_PATH {
        AbsentIsRemoved(fs.files, statePath);
        return true;
      }
      cleared := fs.RemoveIfExists(statePath);
      if cleared {
        resumeAvailable, resumeOffset := false, 0;
      }
    }

    /** Remove what has been written so far.  Without a temporary file, that is the destination. */
    method DiscardPartial(fs: FileSystem) returns (discarded: bool)
      requires fs.Valid() && Valid()
      modifies fs, this`resumeAvailable, this`resumeOffset, this`preserving
      ensures fs.Valid() && old(fs.history) <= fs.history
      ensures discarded ==> fs.files == RemoveFile(RemoveFile(old(fs.files), statePath), writePath)
      ensures !discarded ==> fs.files == old(fs.files) || fs.files == RemoveFile(old(fs.files), statePath)
      ensures forall i :: |old(fs.history)| <= i < |fs.history| ==>
                fs.history[i] == RemoveFile(old(fs.files), statePath)
                || fs.history[i] == RemoveFile(RemoveFile(old(fs.files), statePath), writePath)
      ensures discarded && writePath != NO_PATH ==> !preserving && !resumeAvailable && resumeOffset == 0
      ensures !discarded ==> preserving == old(preserving)
      ensures fs.reliable ==> discarded
    {
      var cleared := ClearResumeState(fs);
      if !cleared {
        return false;
      }
      if writePath == NO_PATH {
        AbsentIsRemoved(fs.files, writePath);
        return true;
      }
      ghost var middle := fs.history;
      discarded := fs.RemoveIfExists(writePath);
      assert forall i :: |old(fs.history)| <= i < |middle| ==> fs.history[i] == middle[i];
      if discarded {
        preserving := false;
        PathsDiffer(finalPath, options);
      }
    }

    method PreservePartial()
      modifies this`preserving
      ensures preserving
    {
      preserving := true;
    }

    /** The destination and what an earlier write has left could be looked at, and cleared where needed. */
    predicate Inspected()
      reads this
    {
      problem == NoProblem || problem == OutputExists
    }

    /** The first part of preparing a write: look at the destination, and name the files. */
    method Locate(fs: FileSystem) returns (finalExists: bool)
      requires fs.Valid() && State() == UNUSED.(options := options, finalPath := finalPath)
      modifies this`problem, this`writePath, this`statePath
      ensures Valid() && (problem == OutputPathRequired <==> finalPath.name == "")
      ensures problem in {NoProblem, OutputPathRequired, CannotCreateDirectory, CannotInspectOutput}
      ensures problem != NoProblem ==> writePath == statePath == NO_PATH
      ensures problem == NoProblem ==>
              writePath != NO_PATH && finalPath.name != "" && finalExists == (finalPath in fs.files)
      ensures problem == NoProblem ==>
              writePath == WritePath(finalPath, options) && statePath == StatePath(finalPath, options)
      ensures problem == NoProblem ==> writePath != statePath && (writePath != finalPath <==> options.atomicWrite)
      ensures fs.reliable && finalPath.name != "" ==> problem == NoProblem
    {
      finalExists := false;
      if finalPath.name == "" {
        problem := OutputPathRequired;
        return;
      }
      if finalPath.directory != "" {
        var created := fs.CreateDirectories(finalPath.directory);
        if !created {
          var present := fs.DirectoryExists(finalPath.directory);
          if !present {
            problem := CannotCreateDirectory;
            return;
          }
        }
      }
      var inspected: bool;
      inspected, finalExists := fs.Exists(finalPath);
      if !inspected {
        problem := CannotInspectOutput;
        return;
      }
      PathsDiffer(finalPath, options);
      writePath, statePath := WritePath(finalPath, options), StatePath(finalPath, options);
    }

    /** The middle part of preparing a write. */
    method TakeUpOrClear(fs: FileSystem)
      requires fs.Valid() && Valid() && finalPath.name != "" && problem == NoProblem
      requires writePath != statePath && writePath != NO_PATH && (writePath != finalPath <==> options.atomicWrite)
      requires !resumeAvailable && resumeOffset == 0
      modifies fs, this`problem, this`resumeAvailable, this`resumeOffset
      ensures Valid() && fs.Valid() && old(fs.history) <= fs.history
      ensures problem in {NoProblem, CannotInspectWritePath, CannotInspectState, CannotClearState, CannotClearPartial}
      ensures resumeAvailable ==> problem == NoProblem && fs.files == old(fs.files) && Resumes(fs.files, State())
      ensures !resumeAvailable ==> resumeOffset == 0
      ensures !resumeAvailable && problem == NoProblem ==>
                fs.files == Cleared(old(fs.files), statePath, writePath, options.atomicWrite)
      ensures fs.files == old(fs.files)
              || PartlyCleared(old(fs.files), fs.files, statePath, writePath, options.atomicWrite)
      ensures forall i :: |old(fs.history)| <= i < |fs.history| ==>
                PartlyCleared(old(fs.files), fs.history[i], statePath, writePath, options.atomicWrite)
      ensures fs.reliable ==>
              problem == NoProblem && (resumeAvailable <==> Resumable(old(fs.files), finalPath, options))
    {
      hide Load, FromCheckpoint;
      var inspected, writeExists := fs.Exists(writePath);
      if !inspected {
        problem := CannotInspectWritePath;
        return;
      }
      var stateExists: bool;
      inspected, stateExists := fs.Exists(statePath);
      if !inspected {
        problem := CannotInspectState;
        return;
      }
      AbsentIsRemoved(fs.files, statePath);
      AbsentIsRemoved(fs.files, writePath);
      if options.allowResume && options.resumeToken != [] && stateExists && writeExists {
        var resume := ReadResumeState(fs, statePath);
        if resume.Resumed? {
          var currentSize := fs.SizeOrZero(writePath);
          if resume.state.token == options.resumeToken && currentSize == resume.state.committedBytes {
            resumeAvailable, resumeOffset := true, resume.state.committedBytes;
          } else {
            var _ := ClearStalePartial(fs, writePath != finalPath, stateExists, writeExists);
          }
        } else {
          var _ := ClearStalePartial(fs, writePath != finalPath, stateExists, writeExists);
        }
      } else if stateExists || (options.atomicWrite && writeExists) {
        var _ := ClearStalePartial(fs, writePath != finalPath, stateExists, writeExists);
      }
    }

    /** Remove what an earlier write has left: first its state, then, if asked to, what it wrote. */
    method ClearStalePartial(fs: FileSystem, removeWritePath: bool, stateExists: bool, writeExists: bool)
      returns (ok: bool)
      requires fs.Valid() && stateExists == (statePath in fs.files) && writeExists == (writePath in fs.files)
      requires writePath != statePath
      modifies fs, this`problem
      ensures fs.Valid() && old(fs.history) <= fs.history
      ensures ok ==>
              problem == old(problem) && fs.files == Cleared(old(fs.files), statePath, writePath, removeWritePath)
      ensures !ok ==> problem == CannotClearState || problem == CannotClearPartial
      ensures !ok ==> fs.files == old(fs.files) || fs.files == RemoveFile(old(fs.files), statePath)
      ensures forall i :: |old(fs.history)| <= i < |fs.history| ==>
                fs.history[i] == RemoveFile(old(fs.files), statePath)
                || fs.history[i] == Cleared(old(fs.files), statePath, writePath, removeWritePath)
      ensures fs.reliable ==> ok
    {
      AbsentIsRemoved(fs.files, statePath);
      if stateExists {
        ok := fs.RemoveIfExists(statePath);
        if !ok {
          problem := CannotClearState;
          return;
        }
      }
      ghost var middle, states := fs.files, fs.history;
      AbsentIsRemoved(middle, writePath);
      if removeWritePath && writeExists {
        ok := fs.RemoveIfExists(writePath);
        if !ok {
          problem := CannotClearPartial;
          return;
        }
      }
      assert forall i :: |old(fs.history)| <= i < |states| ==> fs.history[i] == states[i];
      ok := true;
    }
  }

  /** Decide how a destination will be written: take up an earlier write whose state names the same token and
      the size of its file, or clear what is left of it and start anew, or leave an existing destination. */
  method PrepareFileWrite(fs: FileSystem, finalPath: Path, options: Options) returns (prepared: PreparedFileWrite)
    requires fs.Valid()
    modifies fs
    ensures fresh(prepared) && prepared.Valid() && fs.Valid() && old(fs.history) <= fs.history
    ensures prepared.options == options && prepared.finalPath == finalPath && !prepared.preserving
    ensures prepared.problem == OutputPathRequired <==> finalPath.name == ""
    ensures prepared.writePath == NO_PATH ==>
            fs.files == old(fs.files) && fs.history == old(fs.history) && !prepared.Inspected()
    ensures prepared.committed == prepared.skipped
    // Resuming
    ensures prepared.resumeAvailable ==> prepared.problem == NoProblem && !prepared.skipped && fs.files == old(fs.files)
    ensures prepared.resumeAvailable ==> Resumes(fs.files, prepared.State())
    ensures !prepared.resumeAvailable ==> prepared.resumeOffset == 0
    // Starting anew
    ensures !prepared.resumeAvailable && prepared.Inspected() ==>
              fs.files == Cleared(old(fs.files), prepared.statePath, prepared.writePath, options.atomicWrite)
    ensures !prepared.resumeAvailable && prepared.Inspected() ==>
              prepared.skipped == (options.mode == SkipExisting && finalPath in old(fs.files))
              && (prepared.problem == OutputExists) == (options.mode == FailIfExists && finalPath in old(fs.files))
    ensures prepared.skipped ==>
            prepared.problem == NoProblem && options.mode == SkipExisting && finalPath in old(fs.files)
    ensures prepared.problem == OutputExists ==> options.mode == FailIfExists && finalPath in old(fs.files)
    // A crash on the way, or a failure
    ensures fs.files == old(fs.files)
            || PartlyCleared(old(fs.files), fs.files, prepared.statePath, prepared.writePath, options.atomicWrite)
    ensures forall i :: |old(fs.history)| <= i < |fs.history| ==>
              PartlyCleared(old(fs.files), fs.history[i], prepared.statePath, prepared.writePath, options.atomicWrite)
    // When nothing fails
    ensures fs.reliable && finalPath.name != "" ==>
              prepared.Inspected() && (prepared.resumeAvailable <==> Resumable(old(fs.files), finalPath, options))
  {
    hide Resumable, Resumes, Cleared, PartlyCleared, FileSystem.Valid;
    prepared := new PreparedFileWrite();
    prepared.options, prepared.finalPath := options, finalPath;
    var finalExists := prepared.Locate(fs);
    if prepared.problem != NoProblem {
      return;
    }
    prepared.TakeUpOrClear(fs);
    ghost var taken := prepared.State();
    if prepared.problem == NoProblem && !prepared.resumeAvailable && finalExists {
      match options.mode
      case SkipExisting =>
        prepared.skipped, prepared.committed := true, true;
      case FailIfExists =>
        prepared.problem := OutputExists;
      case Overwrite =>
    }
    assert prepared.resumeAvailable ==> prepared.State() == taken;
  }

  /** The state file names the token of the write, and its count is the size of the file, or zero. */
  ghost predicate Resumes(files: Files, state: WriteState) {
    state.options.allowResume && state.options.resumeToken != [] && state.writePath in files
    && Records(files, state.statePath, state.options.resumeToken, state.resumeOffset)
    && (state.resumeOffset == |files[state.writePath]| || state.resumeOffset == 0)
  }

  ghost predicate PartlyCleared(before: Files, after: Files, state: Path, write: Path, removeWrite: bool) {
    after == RemoveFile(before, state) || after == Cleared(before, state, write, removeWrite)
  }

  function Cleared(files: Files, state: Path, write: Path, removeWrite: bool): Files {
    if removeWrite then RemoveFile(RemoveFile(files, state), write) else RemoveFile(files, state)
  }

  function Replaced(files: Files, write: Path, final: Path): Files
    requires write in files
  {
    RemoveFile(files[final := files[write]], write)
  }

  function Started(files: Files, write: Path, resuming: bool): Files {
    files[write := if resuming && write in files then files[write] else []]
  }

  function Lookup(files: Files, path: Path): Option<Content> {
    if path in files then Some(files[path]) else None
  }

  lemma ExtendedByNothing(files: Files, path: Path, added: Content)
    requires path in files
    ensures Extended(files, files, path, added)
  {
    assert files[path] + added == files[path] + added[..|added|];
  }

  lemma ExtendedTwice(before: Files, middle: Files, after: Files, path: Path, added: Content, pending: Content)
    requires Extended(before, middle, path, added) && Extended(middle, after, path, pending)
    requires middle[path] + pending == before[path] + added
    ensures Extended(before, after, path, added)
  {}

  lemma StartedIsOnlyChanged(files: Files, write: Path, resuming: bool)
    ensures OnlyChanged(files, Started(files, write, resuming), write)
    ensures forall after: Files, added: Content :: Extended(Started(files, write, resuming), after, write, added)
                                                   ==> OnlyChanged(files, after, write)
  {}

  /** Nothing but one file has changed. */
  ghost predicate OnlyChanged(before: Files, after: Files, path: Path) {
    path in after && after == before[path := after[path]]
  }

  /** The destination keeps its content, or takes over the whole content of the temporary file; in the latter
      case either there was no destination or the mode is to overwrite it. */
  ghost predicate AllowedStep(before: Files, after: Files, final: Path, write: Path, mode: Mode) {
    Lookup(after, final) == Lookup(before, final)
    || (write in before && write !in after && Lookup(after, final) == Some(before[write])
        && (mode == Overwrite || final !in before))
  }

  /** Every state from a position on comes by an allowed step from the one before. */
  ghost predicate Steps(states: seq<Files>, from: nat, final: Path, write: Path, mode: Mode) {
    forall i {:trigger states[i]} :: 0 < i && from <= i < |states| ==>
        AllowedStep(states[i - 1], states[i], final, write, mode)
  }

  lemma NoHistoryWithoutPath(before: Files, past: seq<Files>, present: seq<Files>, path: Path)
    requires past <= present && forall i :: 0 <= i < |present| ==> Named(present[i])
    requires forall i :: |past| <= i < |present| ==> OnlyChanged(before, present[i], path)
    ensures path == NO_PATH ==> present == past
  {
    if |past| < |present| {
      assert OnlyChanged(before, present[|past|], path) && Named(present[|past|]);
    }
  }

  lemma KeptSteps(states: seq<Files>, from: nat, final: Path, write: Path, mode: Mode)
    requires 0 < from <= |states|
    requires forall i :: from <= i < |states| ==> Lookup(states[i], final) == Lookup(states[from - 1], final)
    ensures Steps(states, from, final, write, mode)
  {}

  lemma CommitSteps(states: seq<Files>, from: nat, final: Path, write: Path, state: Path, mode: Mode)
    requires 0 < from <= |states| && final != write && final != state
    requires forall i :: from <= i < |states| ==> CommittedFrom(states[from - 1], states[i], final, write, state, mode)
    ensures Steps(states, from, final, write, mode)
  {}

  /** What a commit makes of the files, before and after it has cleared the state. */
  ghost predicate CommittedFrom(before: Files, after: Files, final: Path, write: Path, state: Path, mode: Mode) {
    write in before && (mode == Overwrite || final !in before)
    && (after == Replaced(before, write, final) || after == RemoveFile(Replaced(before, write, final), state))
  }

  /** The steps of writing to the temporary file, and then of a commit if the write is atomic. */
  lemma WrittenSteps(before: Files, past: seq<Files>, states: seq<Files>, present: seq<Files>,
                     final: Path, write: Path, state: Path, mode: Mode)
    requires past != [] && past[|past| - 1] == before && past <= states <= present
    requires forall i :: |past| <= i < |states| ==> OnlyChanged(before, states[i], write)
    ensures final != write && final != state
            && (forall i :: |states| <= i < |present| ==>
                CommittedFrom(states[|states| - 1], present[i], final, write, state, mode))
            ==> Steps(present, |past|, final, write, mode)
  {
    hide Steps, AllowedStep, CommittedFrom;
    if final != write && final != state
       && forall i :: |states| <= i < |present| ==>
            CommittedFrom(states[|states| - 1], present[i], final, write, state, mode)
    {
      KeptSteps(states, |past|, final, write, mode);
      CommitSteps(present, |states|, final, write, state, mode);
      StepsJoin(states, present, |past|, final, write, mode);
    }
  }

  lemma CommittedContent(files: Files, final: Path, write: Path, state: Path, content: Content)
    ensures final != write && final != state ==>
              RemoveFile(Replaced(files[write := content], write, final), state)
              == RemoveFile(RemoveFile(files, write), state)[final := content]
  {}

  lemma StepsJoin(first: seq<Files>, all: seq<Files>, from: nat, final: Path, write: Path, mode: Mode)
    requires first <= all && Steps(first, from, final, write, mode) && Steps(all, |first|, final, write, mode)
    ensures Steps(all, from, final, write, mode)
  {
    hide AllowedStep;
    assert forall i {:trigger all[i]} :: 0 < i < |first| ==> all[i] == first[i] && all[i - 1] == first[i - 1];
  }
}
