/** What prepared writes guarantee over whole runs: of a download that may be interrupted, paused and taken up
    again, of any number of crashes, and of any sequence of operations. */
module FileWriteRuns {
  import opened Basics
  import opened Decimal
  import opened FileSystems
  import opened TransferCheckpoint
  import opened TransferResume
  import opened FileWrite

  // ---------------------------------------------------------------- What holds at every moment

  /** The complete content that each token stands for. */
  type Meaning = Text -> Content

  /** A destination with its temporary file and its state file, the files when the run began, and what the run
      is to write. */
  datatype Case = Case(start: Files, final: Path, write: Path, state: Path, mode: Mode, meaning: Meaning, token: Text)
  {
    function Whole(): Content { meaning(token) }

    predicate Separate() { final != write && final != state && write != state }

    /** Whenever a later write may take up what is there, it is a first part of what its token stands for. */
    ghost predicate Recoverable(files: Files) {
      write in files && Recorded(files, state).Resumed?
      && 0 < Recorded(files, state).state.committedBytes == |files[write]|
      ==> files[write] <= meaning(Recorded(files, state).state.token)
    }

    ghost predicate Untouched(files: Files) {
      forall path :: path != write && path != state ==> Lookup(files, path) == Lookup(start, path)
    }

    /** The destination has the content that it had or all of the new content, and no other file is concerned.  A
        later write can safely take up what is there, if the token is one whose states can be told. */
    ghost predicate Sound(files: Files) {
      (Tellable(token, meaning) ==> Recoverable(files))
      && (Lookup(files, final) == Lookup(start, final)
          || (Lookup(files, final) == Some(Whole()) && (mode == Overwrite || final !in start)))
      && forall path :: path != final && path != write && path != state ==> Lookup(files, path) == Lookup(start, path)
    }

    /** While the run writes: its temporary file is a first part of the new content, and the state file, torn or
        not, shows no count for a token of other content if the token is one whose states can be told. */
    ghost predicate Working(files: Files) {
      Untouched(files)
      && (write in files ==> files[write] <= Whole())
      && (state in files && Tellable(token, meaning) ==> Tells(files[state], Whole(), meaning))
    }
  }

  /** If what is read shows a count within the content, its token stands for the same content so far. */
  predicate TellsAs(read: ResumeResult, whole: Content, meaning: Meaning) {
    read.Resumed? && 0 < read.state.committedBytes <= |whole| ==>
      whole[..read.state.committedBytes] <= meaning(read.state.token)
  }

  predicate Tells(text: Text, whole: Content, meaning: Meaning) {
    TellsAs(FromCheckpoint(Load(text)), whole, meaning)
  }

  /** What the first `k` characters of the lines of a token are read as, when the rest is not there. */
  function CutOff(token: Text, k: nat): ResumeResult
    requires k <= |TOKEN_PREFIX + token|
  {
    FromCheckpoint(ApplyLines(EMPTY, (TOKEN_PREFIX + token)[..k]))
  }

  /** What the lines of a token say, wherever they are cut off, shows no count for other content, and what the
      token is read as, if anything, stands for content that starts with the token's own. */
  predicate Tellable(token: Text, meaning: Meaning) {
    (forall k :: 0 <= k <= |TOKEN_PREFIX + token| ==> TellsAs(CutOff(token, k), meaning(token), meaning))
    && (TokenRead(token).Some? ==> meaning(token) <= meaning(TokenRead(token).value))
  }

  /** No state that is saved with the token, torn or not, shows a count for other content. */
  ghost predicate AlwaysTells(token: Text, meaning: Meaning) {
    forall count: U64, torn: Text :: torn <= StateText(token, count) ==> Tells(torn, meaning(token), meaning)
  }

  function CaseOf(files: Files, final: Path, options: Options, meaning: Meaning, token: Text): Case {
    Case(files, final, WritePath(final, options), StatePath(final, options), options.mode, meaning, token)
  }

  lemma NothingRecorded(files: Files, state: Path)
    ensures state !in files ==> !Recorded(files, state).Resumed?
  {}

  lemma WorkingIsSound(c: Case, files: Files)
    requires c.Separate() && c.Working(files)
    ensures c.Sound(files)
  {
    hide Load, FromCheckpoint;
    NothingRecorded(files, c.state);
    assert Lookup(files, c.final) == Lookup(c.start, c.final);
  }

  lemma StrippedIsSound(c: Case, files: Files, after: Files)
    requires c.Separate() && c.Sound(files) && Stripped(files, after, c.write, c.state)
    ensures c.Sound(after)
  {
    hide Load, FromCheckpoint;
    NothingRecorded(after, c.state);
  }

  lemma StrippedWorks(c: Case, files: Files, after: Files)
    requires c.Separate() && c.Working(files) && Stripped(files, after, c.write, c.state)
    ensures c.Working(after)
  {
    hide Tells, Tellable;
  }

  lemma ExtendedWorks(c: Case, files: Files, after: Files, added: Content)
    requires c.Separate() && c.Working(files) && Extended(files, after, c.write, added)
    requires c.write in files && files[c.write] + added <= c.Whole()
    ensures c.Working(after)
  {
    hide Tells, Tellable;
  }

  lemma StateTextIsHeader(token: Text, count: U64)
    ensures StateText(token, count) == Header(token, count) == Saved(Checkpoint(token, count, []))
  {
    hide Header;
    assert ToFields(ResumeState(token, count, 0, 0, [])) == [];
    assert Header(token, count) + [] == Header(token, count);
  }

  /** The condition on a token is exact: it holds if and only if no state that is saved with the token, complete or
      torn anywhere, shows a count for other content. */
  lemma TellableIsExact(token: Text, meaning: Meaning)
    ensures Tellable(token, meaning) ==> AlwaysTells(token, meaning)
    ensures |meaning(token)| <= MAX_U64 ==> (AlwaysTells(token, meaning) <==> Tellable(token, meaning))
  {
    hide Load, Header, StateText, ApplyLines, TokenLines, TellsAs;
    if Tellable(token, meaning) {
      forall count: U64, torn: Text | torn <= StateText(token, count) ensures Tells(torn, meaning(token), meaning) {
        TornTells(token, meaning, count, torn);
      }
    }
    if AlwaysTells(token, meaning) && |meaning(token)| <= MAX_U64 {
      forall k | 0 <= k <= |TOKEN_PREFIX + token| ensures TellsAs(CutOff(token, k), meaning(token), meaning) {
        StateTextIsHeader(token, 0);
        TornInToken(token, 0, k);
        assert Tells(VERSION_LINE + [NEWLINE] + (TOKEN_PREFIX + token)[..k], meaning(token), meaning);
      }
      WholeTells(token, meaning);
    }
  }

  lemma TornTells(token: Text, meaning: Meaning, count: U64, torn: Text)
    requires Tellable(token, meaning) && torn <= StateText(token, count)
    ensures Tells(torn, meaning(token), meaning)
  {
    hide Load, Header, StateText, ApplyLines, TokenLines;
    StateTextIsHeader(token, count);
    TornAnyHeader(token, count, torn);
    var body := TOKEN_PREFIX + token;
    if 18 <= |torn| <= 18 + |body| && Load(torn) == ApplyLines(EMPTY, body[..|torn| - 18]) {
      assert TellsAs(CutOff(token, |torn| - 18), meaning(token), meaning);
    }
  }

  lemma WholeTells(token: Text, meaning: Meaning)
    requires AlwaysTells(token, meaning) && |meaning(token)| <= MAX_U64
    ensures TokenRead(token).Some? ==> meaning(token) <= meaning(TokenRead(token).value)
  {
    hide Load, StateText, TokenLines;
    var whole := meaning(token);
    if whole != [] {
      assert Tells(StateText(token, |whole|), whole, meaning);
      StateIsRead(token, |whole|);
      assert whole[..|whole|] == whole;
    }
  }

  /** The lines of the token show no count, wherever they are cut off. */
  predicate Quiet(token: Text) {
    forall k :: 0 <= k <= |TOKEN_PREFIX + token| ==>
                  CutOff(token, k).Resumed? ==> CutOff(token, k).state.committedBytes == 0
  }

  /** The tokens that are told right whatever tokens stand for are those without newline, and those that are not
      read as anything and are quiet. */
  lemma AlwaysTellable(token: Text)
    ensures (forall meaning: Meaning :: Tellable(token, meaning))
            <==> NEWLINE !in token || (TokenRead(token) == None && Quiet(token))
    ensures (forall meaning: Meaning :: AlwaysTells(token, meaning))
            <==> NEWLINE !in token || (TokenRead(token) == None && Quiet(token))
  {
    hide Tellable, AlwaysTells, Quiet, TokenRead;
    if NEWLINE !in token || (TokenRead(token) == None && Quiet(token)) {
      forall meaning: Meaning ensures Tellable(token, meaning) && AlwaysTells(token, meaning) {
        if NEWLINE !in token {
          PlainTokenTells(token, meaning);
        } else {
          QuietTells(token, meaning);
        }
        TellableIsExact(token, meaning);
      }
    } else {
      var meaning := Misleading(token);
      TellableIsExact(token, meaning);
    }
  }

  lemma QuietTells(token: Text, meaning: Meaning)
    requires TokenRead(token) == None && Quiet(token)
    ensures Tellable(token, meaning)
  {
    hide CutOff, TokenRead;
  }

  /** A token that is read as another one, or shows a count: some meaning of the tokens makes that wrong. */
  lemma Misleading(token: Text) returns (meaning: Meaning)
    requires NEWLINE in token && (TokenRead(token) != None || !Quiet(token))
    ensures |meaning(token)| <= MAX_U64 && !Tellable(token, meaning)
  {
    if TokenRead(token) != None {
      hide CutOff, TokenRead;
      TokenReadPlain(token);
      meaning := other => if other == token then [0] else [];
      assert !(meaning(token) <= meaning(TokenRead(token).value));
    } else {
      hide TokenRead, CutOff;
      var k :| 0 <= k <= |TOKEN_PREFIX + token| && CutOff(token, k).Resumed?
          && CutOff(token, k).state.committedBytes != 0;
      var count := CutOff(token, k).state.committedBytes;
      var whole: Content := seq(count, _ => 0);
      CutOffIsPlain(token, k);
      meaning := other => if other == token then whole else [];
      assert whole[..count] == whole;
      assert !TellsAs(CutOff(token, k), meaning(token), meaning);
    }
  }

  lemma CutOffIsPlain(token: Text, k: nat)
    requires k <= |TOKEN_PREFIX + token| && CutOff(token, k).Resumed?
    ensures NEWLINE !in CutOff(token, k).state.token
  {
    hide ApplyLine, ApplyLines;
    LinesFit(EMPTY, (TOKEN_PREFIX + token)[..k]);
  }

  /** A token without newline always is told right, by complete and by torn states, and whatever tokens stand for. */
  lemma PlainTokenTells(token: Text, meaning: Meaning)
    requires NEWLINE !in token
    ensures Tellable(token, meaning)
  {
    hide ApplyLines, TokenLines, TokenRead;
    TokenReadPlain(token);
    forall k | 0 <= k <= |TOKEN_PREFIX + token| ensures TellsAs(CutOff(token, k), meaning(token), meaning) {
      TornToken(EMPTY, token, (TOKEN_PREFIX + token)[..k]);
    }
  }

  /** A token that reads like two token lines is told right exactly if the second of them stands for content that
      starts with the token's own. */
  lemma SplitTokenTells(first: Text, second: Text, meaning: Meaning)
    requires NEWLINE !in first && NEWLINE !in second
    ensures var token := first + [NEWLINE] + TOKEN_PREFIX + second;
            Tellable(token, meaning) <==> meaning(token) <= meaning(second)
  {
    hide ApplyLines, TokenLines, TokenRead;
    var token := first + [NEWLINE] + TOKEN_PREFIX + second;
    TokenReadSplit(first, second);
    forall k | 0 <= k <= |TOKEN_PREFIX + token| ensures TellsAs(CutOff(token, k), meaning(token), meaning) {
      SplitIsQuiet(first, second, k);
    }
  }

  lemma SplitIsQuiet(first: Text, second: Text, k: nat)
    requires NEWLINE !in first && NEWLINE !in second
    requires k <= |TOKEN_PREFIX + (first + [NEWLINE] + TOKEN_PREFIX + second)|
    ensures var r := CutOff(first + [NEWLINE] + TOKEN_PREFIX + second, k);
            r.Resumed? ==> r.state.committedBytes == 0
  {
    hide ApplyLine, ApplyLines;
    var line, body := TOKEN_PREFIX + first, TOKEN_PREFIX + second;
    var all := TOKEN_PREFIX + (first + [NEWLINE] + TOKEN_PREFIX + second);
    assert all == line + [NEWLINE] + body;
    if k <= |line| {
      assert all[..k] == line[..k];
      TornToken(EMPTY, first, all[..k]);
    } else {
      var left := body[..k - |line| - 1];
      assert all[..k] == line + [NEWLINE] + left;
      ApplyTokenLine(EMPTY, first);
      ApplyFirstLine(EMPTY, line, left);
      TornToken(EMPTY.(token := first), second, left);
    }
  }

  /** A first line, a count line and a line that is refused. */
  function CountingToken(first: Text, count: U64): Text {
    first + [NEWLINE] + (BYTES_PREFIX + ToDecimal(count)) + [NEWLINE] + [0]
  }

  lemma CountingTokenIsNotRead(first: Text, count: U64)
    requires NEWLINE !in first
    ensures TokenRead(CountingToken(first, count)) == None
  {
    hide ApplyLine, ApplyLines, ToDecimal;
    var line, countLine := TOKEN_PREFIX + first, BYTES_PREFIX + ToDecimal(count);
    var rest := countLine + [NEWLINE] + ([0] + [NEWLINE]);
    assert TOKEN_PREFIX + CountingToken(first, count) + [NEWLINE] == line + [NEWLINE] + rest;
    CountLines(first, count);
    ApplyFirstLine(EMPTY, line, rest);
    ApplyFirstLine(EMPTY.(token := first), countLine, [0] + [NEWLINE]);
    assert [0] + [NEWLINE] == [0] + [NEWLINE] + [];
    ApplyFirstLine(Checkpoint(first, count, []), [0], []);
    NoSuchLine(Checkpoint(first, count, []));
  }

  lemma CountLines(first: Text, count: U64)
    requires NEWLINE !in first
    ensures NEWLINE !in BYTES_PREFIX + ToDecimal(count) && NEWLINE !in TOKEN_PREFIX + first
    ensures ApplyLine(EMPTY, TOKEN_PREFIX + first) == Loaded(EMPTY.(token := first))
    ensures ApplyLine(EMPTY.(token := first), BYTES_PREFIX + ToDecimal(count)) == Loaded(Checkpoint(first, count, []))
  {
    hide ApplyLine, ToDecimal;
    DigitsAreNotNewlines(count);
    DecimalRoundTrips(count);
    ApplyTokenLine(EMPTY, first);
    ApplyBytesLine(EMPTY.(token := first), ToDecimal(count));
  }

  /** A token that is not read as anything may yet show a count for another one when its state is torn: what is left
      up to the count is recognised under the first line, whatever count was saved. */
  lemma TornTokenIsTaken(first: Text, count: U64, saved: U64, files: Files, state: Path)
    requires NEWLINE !in first && count > 0
    ensures var token := CountingToken(first, count);
            var torn := VERSION_LINE + [NEWLINE] + (TOKEN_PREFIX + token)[..|TOKEN_PREFIX + token| - 2];
            TokenRead(token) == None && !Quiet(token)
            && torn <= StateText(token, saved) && Records(files[state := torn], state, first, count)
  {
    hide Load, ApplyLine, ApplyLines, ToDecimal, StateText, Header, TokenRead;
    var line, countLine := TOKEN_PREFIX + first, BYTES_PREFIX + ToDecimal(count);
    var token := CountingToken(first, count);
    var body := TOKEN_PREFIX + token;
    CountingTokenIsNotRead(first, count);
    CountLines(first, count);
    assert body == line + [NEWLINE] + countLine + ([NEWLINE] + [0]);
    assert body[..|body| - 2] == line + [NEWLINE] + countLine;
    ApplyFirstLine(EMPTY, line, countLine);
    ApplyLastLine(EMPTY.(token := first), countLine);
    assert CutOff(token, |body| - 2) == Resumed(ResumeState(first, count, 0, 0, []));
    StateTextIsHeader(token, saved);
    TornInToken(token, saved, |body| - 2);
  }

  lemma NoSuchLine(state: Checkpoint)
    ensures ApplyLine(state, [0]).Refused?
  {}

  /** Reading back a state that was saved with any token. */
  lemma StateIsRead(token: Text, count: U64)
    ensures var read := FromCheckpoint(Load(StateText(token, count)));
            if TokenRead(token) == None then !read.Resumed?
            else read.Resumed? && read.state.token == TokenRead(token).value && read.state.committedBytes == count
  {
    hide Load, Saved, TokenLines;
    StateTextIsHeader(token, count);
    LoadSavedToken(token, count);
  }

  lemma TokenReadPlain(token: Text)
    ensures TokenRead(token) == Some(token) <==> NEWLINE !in token
  {
    hide TokenLines;
    PlainTokenLines(token);
  }

  lemma TokenReadSplit(first: Text, second: Text)
    requires NEWLINE !in first && NEWLINE !in second
    ensures TokenRead(first + [NEWLINE] + TOKEN_PREFIX + second) == Some(second)
  {
    hide TokenLines;
    SplitTokenLines(first, second);
  }

  lemma TornWorks(c: Case, files: Files, after: Files, count: U64)
    requires c.Separate() && c.Working(files)
    requires Torn(files, after, c.state, StateText(c.token, count))
    ensures c.Working(after)
  {
    hide Tells, StateText, Tellable;
    if Tellable(c.token, c.meaning) {
      TellableIsExact(c.token, c.meaning);
      assert Tells(after[c.state], c.Whole(), c.meaning);
    }
  }

  lemma StateIsRecorded(files: Files, state: Path, token: Text, count: U64)
    requires NEWLINE !in token && state in files && files[state] == StateText(token, count)
    ensures Records(files, state, token, count)
  {
    StateIsRecognised(files, state, token, token, count);
    TokenReadPlain(token);
  }

  /** A saved state is recognised under a token exactly if that is what the token it was saved with is read as. */
  lemma StateIsRecognised(files: Files, state: Path, token: Text, other: Text, count: U64)
    requires state in files && files[state] == StateText(token, count)
    ensures Records(files, state, other, count) <==> TokenRead(token) == Some(other)
  {
    hide Load, StateText, FromCheckpoint, TokenLines;
    StateIsRead(token, count);
  }

  lemma CommittedIsSound(c: Case, files: Files, after: Files)
    requires c.Separate() && c.Working(files) && c.write in files && files[c.write] == c.Whole()
    requires CommittedFrom(files, after, c.final, c.write, c.state, c.mode)
    ensures c.Sound(after)
  {
    hide Tells, Tellable;
    assert Lookup(files, c.final) == Lookup(c.start, c.final);
  }

  // ---------------------------------------------------------------- Chunks

  function Concat(chunks: seq<Content>): Content {
    if chunks == [] then [] else Concat(chunks[..|chunks| - 1]) + chunks[|chunks| - 1]
  }

  lemma ConcatStep(chunks: seq<Content>, i: nat)
    requires i < |chunks|
    ensures Concat(chunks[..i + 1]) == Concat(chunks[..i]) + chunks[i]
  {
    assert chunks[..i + 1][..i] == chunks[..i];
  }

  lemma {:induction false} ConcatPrefix(chunks: seq<Content>, i: nat)
    requires i <= |chunks|
    ensures Concat(chunks[..i]) <= Concat(chunks)
    decreases |chunks| - i
  {
    if i == |chunks| {
      assert chunks[..i] == chunks;
    } else {
      ConcatStep(chunks, i);
      ConcatPrefix(chunks, i + 1);
    }
  }

  /** The first chunk that begins at the offset, or the number of chunks if that is where the content ends. */
  method ResolveResumeChunkIndex(chunks: seq<Content>, resumeOffset: nat) returns (index: Option<nat>)
    ensures index.Some? ==> index.value <= |chunks| && |Concat(chunks[..index.value])| == resumeOffset
                            && forall i :: 0 <= i < index.value ==> |Concat(chunks[..i])| != resumeOffset
    ensures index == None ==> forall i :: 0 <= i <= |chunks| ==> |Concat(chunks[..i])| != resumeOffset
  {
    var offset := 0;
    for i := 0 to |chunks|
      invariant offset == |Concat(chunks[..i])|
      invariant forall j :: 0 <= j < i ==> |Concat(chunks[..j])| != resumeOffset
    {
      if offset == resumeOffset {
        return Some(i);
      }
      ConcatStep(chunks, i);
      offset := offset + |chunks[i]|;
      if resumeOffset < offset {
        ConcatsGrow(chunks, i + 1);
        return None;
      }
    }
    return if offset == resumeOffset then Some(|chunks|) else None;
  }

  lemma ConcatsGrow(chunks: seq<Content>, from: nat)
    requires from <= |chunks|
    ensures forall i :: from <= i <= |chunks| ==> |Concat(chunks[..i])| >= |Concat(chunks[..from])|
  {
    forall i | from <= i <= |chunks| ensures |Concat(chunks[..i])| >= |Concat(chunks[..from])| {
      ConcatPrefix(chunks[..i], from);
      assert chunks[..i][..from] == chunks[..from];
    }
  }

  // ---------------------------------------------------------------- A download

  datatype Outcome = Completed | Skipped | Paused | Cancelled | Aborted | Exhausted | Failed

  /** What becomes of a chunk: it is there, or the download is to stop before it, in one of four ways. */
  datatype Event = Fetched | Pausing | Cancelling | Aborting | NoServerLeft

  /** The first chunk from `from` on that does not come, or their number. */
  function StopOf(events: nat -> Event, from: nat, chunks: nat): (k: nat)
    requires from <= chunks
    ensures from <= k <= chunks && (k < chunks ==> events(k) != Fetched)
    ensures forall i :: from <= i < k ==> events(i) == Fetched
    decreases chunks - from
  {
    if from == chunks || events(from) != Fetched then from else StopOf(events, from + 1, chunks)
  }

  ghost predicate AllFetched(events: nat -> Event, first: nat, end: nat) {
    forall i :: first <= i < end ==> events(i) == Fetched
  }

  lemma StopIsUnique(events: nat -> Event, from: nat, k: nat, chunks: nat)
    requires from <= k <= chunks && AllFetched(events, from, k) && (k < chunks ==> events(k) != Fetched)
    ensures StopOf(events, from, chunks) == k
  {}

  /** The first chunk that begins at the offset; all of them are to be written if none does. */
  predicate StartsAt(chunks: seq<Content>, offset: nat, first: nat) {
    first <= |chunks|
    && (forall i :: 0 <= i < first ==> |Concat(chunks[..i])| != offset)
    && (|Concat(chunks[..first])| != offset ==>
          first == 0 && forall i :: 0 <= i <= |chunks| ==> |Concat(chunks[..i])| != offset)
  }

  lemma StartExists(chunks: seq<Content>, offset: nat) returns (first: nat)
    ensures StartsAt(chunks, offset, first)
  {
    first := 0;
    while first <= |chunks| && |Concat(chunks[..first])| != offset
      invariant first <= |chunks| + 1
      invariant forall i :: 0 <= i < first ==> |Concat(chunks[..i])| != offset
    {
      first := first + 1;
    }
    if first > |chunks| {
      first := 0;
    }
  }

  lemma StartIsUnique(chunks: seq<Content>, offset: nat, first: nat, first': nat)
    requires StartsAt(chunks, offset, first) && StartsAt(chunks, offset, first')
    ensures first == first'
  {
    hide Concat;
  }

  ghost predicate Belongs(p: WriteState, c: Case) {
    p.finalPath == c.final && p.writePath == c.write && p.statePath == c.state && p.writePath != NO_PATH
    && p.options.atomicWrite && p.options.mode == c.mode && p.options.allowResume && p.options.resumeToken == c.token
    && p.problem == NoProblem && !p.skipped && !p.committed && !p.preserving
  }

  /** The output is open, and the file with what is pending for it is the first part of the content. */
  ghost predicate Active(fs: FileSystem, prepared: PreparedFileWrite, output: OutputStream, c: Case, done: nat)
    reads fs, prepared, output
  {
    fs.Valid() && prepared.Valid() && Belongs(prepared.State(), c)
    && output.isOpen && !output.failed && output.path == c.write
    && c.Working(fs.files) && c.write in fs.files
    && done <= |c.Whole()| && fs.files[c.write] + output.pending == c.Whole()[..done]
  }

  /** One chunk goes to the output, and the state is saved. */
  method StoreChunk(fs: FileSystem, prepared: PreparedFileWrite, output: OutputStream, chunk: Content, done: nat,
                    ghost c: Case)
    returns (error: Problem)
    requires c.Separate() && Active(fs, prepared, output, c, done)
    requires done + |chunk| <= |c.Whole()| && c.Whole()[..done] + chunk == c.Whole()[..done + |chunk|]
    requires |c.Whole()| <= MAX_U64
    modifies fs, prepared`resumeAvailable, prepared`resumeOffset, output`pending, output`failed
    ensures fs.Valid() && old(fs.history) <= fs.history && c.Working(fs.files)
    ensures forall i :: |old(fs.history)| <= i < |fs.history| ==> c.Working(fs.history[i])
    ensures error == NoProblem ==> Active(fs, prepared, output, c, done + |chunk|)
    ensures output.isOpen && prepared.Owns() && Closable(fs, output, c)
    ensures error == NoProblem && c.token != [] && NEWLINE !in c.token ==>
            Records(fs.files, c.state, c.token, done + |chunk|)
    ensures fs.reliable ==> error == NoProblem
  {
    hide Case.Working, StateText, Recorded, FileSystem.Valid, Tellable;
    assert fs.files[c.write] + output.pending + chunk <= c.Whole();
    output.Write(fs, chunk);
    forall after | Extended(old(fs.files), after, c.write, old(output.pending) + chunk) ensures c.Working(after) {
      assert old(fs.files)[c.write] + (old(output.pending) + chunk)
          == old(fs.files)[c.write] + old(output.pending) + chunk;
      ExtendedWorks(c, old(fs.files), after, old(output.pending) + chunk);
    }
    if output.failed {
      return CannotWriteOutput;
    }
    ghost var middle, states := fs.files, fs.history;
    error := prepared.SaveResumeState(fs, done + |chunk|);
    forall after | Torn(middle, after, c.state, StateText(c.token, done + |chunk|)) ensures c.Working(after) {
      TornWorks(c, middle, after, done + |chunk|);
    }
    assert forall i :: |old(fs.history)| <= i < |states| ==> fs.history[i] == states[i];
    if error == NoProblem && c.token != [] && NEWLINE !in c.token {
      StateIsRecorded(fs.files, c.state, c.token, done + |chunk|);
    }
  }

  /** The state file tells how much has been written, unless that is nothing, or there is no token or one with a
      newline, which is not recognised. */
  ghost predicate SavedUpTo(files: Files, c: Case, done: nat) {
    done == 0 || c.token == [] || NEWLINE in c.token || Records(files, c.state, c.token, done)
  }

  /** Closing the output keeps the file a first part of the content. */
  ghost predicate Closable(fs: FileSystem, output: OutputStream, c: Case)
    reads fs, output
  {
    output.isOpen && !output.failed ==>
      output.path == c.write && (c.write in fs.files ==> fs.files[c.write] + output.pending <= c.Whole())
  }

  lemma ChunkFollows(chunks: seq<Content>, whole: Content, i: nat)
    requires i < |chunks| && whole == Concat(chunks)
    ensures var done := |Concat(chunks[..i])|;
            done + |chunks[i]| == |Concat(chunks[..i + 1])| <= |whole|
            && whole[..done] + chunks[i] == whole[..done + |chunks[i]|]
  {
    ConcatStep(chunks, i);
    ConcatPrefix(chunks, i);
    ConcatPrefix(chunks, i + 1);
  }

  /** How the run has come to an end before the output is closed. */
  ghost predicate Ended(fs: FileSystem, prepared: PreparedFileWrite, output: OutputStream, c: Case, outcome: Outcome,
                        done: nat)
    reads fs, prepared, output
  {
    if outcome == Completed then Active(fs, prepared, output, c, |c.Whole()|)
    else if Preserves(outcome) then
      prepared.preserving && output.isOpen && !output.failed && output.path == c.write
      && done <= |c.Whole()| && SavedUpTo(fs.files, c, done)
      && c.write in fs.files && fs.files[c.write] + output.pending == c.Whole()[..done]
    else prepared.Owns() && (outcome == Cancelled && fs.reliable ==> c.write !in fs.files && c.state !in fs.files)
  }

  function OutcomeOf(event: Event): Outcome {
    match event
    case Pausing => Paused
    case Cancelling => Cancelled
    case NoServerLeft => Exhausted
    case _ => Aborted
  }

  /** Stop before a chunk. */
  method Stop(fs: FileSystem, prepared: PreparedFileWrite, output: OutputStream, event: Event, ghost c: Case,
              ghost done: nat)
    returns (outcome: Outcome)
    requires event != Fetched && c.Separate() && Active(fs, prepared, output, c, done) && SavedUpTo(fs.files, c, done)
    modifies fs, prepared`preserving, prepared`resumeAvailable, prepared`resumeOffset
    ensures fs.Valid() && old(fs.history) <= fs.history
    ensures outcome == OutcomeOf(event)
    ensures c.Working(fs.files) && forall i :: |old(fs.history)| <= i < |fs.history| ==> c.Working(fs.history[i])
    ensures Closable(fs, output, c) && Ended(fs, prepared, output, c, outcome, done)
  {
    hide Case.Working, SavedUpTo;
    RemovalsCommute(fs.files, c.write, c.state);
    match event {
      case Pausing =>
        prepared.PreservePartial();
        outcome := Paused;
      case Cancelling =>
        var _ := prepared.DiscardPartial(fs);
        outcome := Cancelled;
      case NoServerLeft =>
        prepared.PreservePartial();
        outcome := Exhausted;
      case _ =>
        outcome := Aborted;
    }
    forall after | Stripped(old(fs.files), after, c.write, c.state) ensures c.Working(after) {
      StrippedWorks(c, old(fs.files), after);
    }
  }

  /** The chunks from `first` on go to the output, in order, until one does not come. */
  method StoreChunks(fs: FileSystem, prepared: PreparedFileWrite, output: OutputStream, chunks: seq<Content>,
                     first: nat, events: nat -> Event, ghost c: Case)
    returns (outcome: Outcome, ghost done: nat)
    requires c.Separate() && c.Whole() == Concat(chunks) && |c.Whole()| <= MAX_U64
    requires first <= |chunks| && Active(fs, prepared, output, c, |Concat(chunks[..first])|)
    requires SavedUpTo(fs.files, c, |Concat(chunks[..first])|)
    modifies fs, prepared`preserving, prepared`resumeAvailable, prepared`resumeOffset, output`pending, output`failed
    ensures fs.Valid() && old(fs.history) <= fs.history && c.Working(fs.files) && Closable(fs, output, c)
    ensures forall i :: |old(fs.history)| <= i < |fs.history| ==> c.Working(fs.history[i])
    ensures outcome != Skipped && Ended(fs, prepared, output, c, outcome, done)
    ensures fs.reliable ==> StopsRight(events, chunks, StopOf(events, first, |chunks|), outcome)
    ensures fs.reliable ==> done == |Concat(chunks[..StopOf(events, first, |chunks|)])|
  {
    hide Case.Working, SavedUpTo, Active, Closable, Concat, Case.Whole, Belongs, Tellable, StopOf;
    for i := first to |chunks|
      invariant old(fs.history) <= fs.history
      invariant Active(fs, prepared, output, c, |Concat(chunks[..i])|)
      invariant SavedUpTo(fs.files, c, |Concat(chunks[..i])|)
      invariant forall i :: |old(fs.history)| <= i < |fs.history| ==> c.Working(fs.history[i])
      invariant AllFetched(events, first, i)
    {
      ghost var states := fs.history;
      done := |Concat(chunks[..i])|;
      if events(i) != Fetched {
        outcome := Stop(fs, prepared, output, events(i), c, done);
        assert forall i :: |old(fs.history)| <= i < |states| ==> fs.history[i] == states[i];
        StopIsUnique(events, first, i, |chunks|);
        return;
      }
      ChunkFollows(chunks, c.Whole(), i);
      var error := StoreChunk(fs, prepared, output, chunks[i], |Concat(chunks[..i])|, c);
      assert forall i :: |old(fs.history)| <= i < |states| ==> fs.history[i] == states[i];
      if error != NoProblem {
        return Failed, done;
      }
      RecordedIsSaved(fs.files, c, done + |chunks[i]|);
    }
    assert chunks[..|chunks|] == chunks;
    ActiveIsClosable(fs, prepared, output, c, |c.Whole()|);
    StopIsUnique(events, first, |chunks|, |chunks|);
    return Completed, |c.Whole()|;
  }

  /** The outcome is that of the chunk at which the run stops. */
  predicate StopsRight(events: nat -> Event, chunks: seq<Content>, k: nat, outcome: Outcome) {
    if k < |chunks| then outcome == OutcomeOf(events(k)) else outcome == Completed
  }

  lemma RecordedIsSaved(files: Files, c: Case, done: nat)
    requires c.token != [] && NEWLINE !in c.token ==> Records(files, c.state, c.token, done)
    ensures SavedUpTo(files, c, done)
  {}

  predicate Preserves(outcome: Outcome) { outcome == Paused || outcome == Exhausted }

  /** The files between two writes. */
  ghost predicate Idle(c: Case, files: Files) { c.Untouched(files) && c.Recoverable(files) }

  /** What preparing a write has decided: to take it up, or to start with nothing. */
  ghost predicate TakenUp(p: WriteState, files: Files) {
    if p.resumeAvailable then Resumes(files, p)
    else p.resumeOffset == 0 && p.writePath !in files && p.statePath !in files
  }

  lemma IdleIsSound(c: Case, files: Files)
    requires c.Separate() && Idle(c, files)
    ensures c.Sound(files)
  {
    hide Load, FromCheckpoint;
    assert Lookup(files, c.final) == Lookup(c.start, c.final);
  }

  lemma StrippedIsIdle(c: Case, files: Files, after: Files)
    requires c.Separate() && Idle(c, files) && Stripped(files, after, c.write, c.state)
    ensures Idle(c, after)
  {
    hide Load, FromCheckpoint;
    NothingRecorded(after, c.state);
  }

  /** Without its files there is nothing to take up. */
  lemma ClearedIsIdle(c: Case, files: Files)
    requires c.Separate() && c.Working(files) && c.state !in files
    ensures Idle(c, files)
  {
    hide Load, FromCheckpoint;
    NothingRecorded(files, c.state);
  }

  lemma PartlyClearedIsStripped(before: Files, after: Files, state: Path, write: Path)
    requires PartlyCleared(before, after, state, write, true)
    ensures Stripped(before, after, write, state)
  {
    RemovalsCommute(before, write, state);
  }

  /** Opening the output after the decision starts to work, at the offset. */
  lemma StartedWorks(c: Case, p: WriteState, files: Files)
    requires c.Separate() && Idle(c, files) && Belongs(p, c) && TakenUp(p, files)
    ensures var started := Started(files, c.write, p.resumeAvailable && p.resumeOffset > 0);
            c.Working(started) && p.resumeOffset <= |c.Whole()| && started[c.write] == c.Whole()[..p.resumeOffset]
            && SavedUpTo(started, c, p.resumeOffset)
  {
    hide Load, FromCheckpoint;
    var started := Started(files, c.write, p.resumeAvailable && p.resumeOffset > 0);
    NothingRecorded(files, c.state);
    assert Recorded(started, c.state) == Recorded(files, c.state);
  }

  /** How much of an earlier write can be taken up. */
  ghost function ResumeOffset(files: Files, final: Path, options: Options): nat {
    if Resumable(files, final, options) then |files[WritePath(final, options)]| else 0
  }

  /** Prepare a write, and open its output if it is to be written. */
  method Begin(fs: FileSystem, finalPath: Path, options: Options, ghost c: Case) returns (prepared: PreparedFileWrite)
    requires fs.Valid() && c.Separate() && Idle(c, fs.files) && options.atomicWrite && options.allowResume
    requires c == CaseOf(c.start, finalPath, options, c.meaning, options.resumeToken)
    modifies fs
    ensures fresh(prepared) && prepared.Valid() && fs.Valid() && old(fs.history) <= fs.history
    ensures Idle(c, fs.files) && forall i :: |old(fs.history)| <= i < |fs.history| ==> Idle(c, fs.history[i])
    ensures prepared.problem == NoProblem && !prepared.skipped ==>
              Belongs(prepared.State(), c) && TakenUp(prepared.State(), fs.files)
    ensures prepared.problem != NoProblem || prepared.skipped ==> NotBegun(prepared.State(), c)
    ensures prepared.skipped ==> prepared.problem == NoProblem && c.final in c.start && c.mode == SkipExisting
    ensures old(c.write !in fs.files && c.state !in fs.files) ==> c.write !in fs.files && c.state !in fs.files
    ensures fs.reliable && c.final.name != "" && (prepared.problem != NoProblem || prepared.skipped) ==>
              c.write !in fs.files && c.state !in fs.files
    ensures fs.reliable && c.final.name != "" && (c.mode == Overwrite || c.final !in c.start) ==>
              prepared.problem == NoProblem && !prepared.skipped
    ensures fs.reliable && c.final.name != "" ==>
              prepared.resumeOffset == ResumeOffset(old(fs.files), finalPath, options)
    ensures fs.reliable && c.final.name != "" && c.final in c.start && !Resumable(old(fs.files), finalPath, options) ==>
              (c.mode == SkipExisting ==> prepared.problem == NoProblem && prepared.skipped)
              && (c.mode == FailIfExists ==> prepared.problem != NoProblem)
  {
    hide Load, FromCheckpoint, Recorded, WritePath, StatePath;
    ghost var before := fs.files;
    PathsDiffer(finalPath, options);
    prepared := PrepareFileWrite(fs, finalPath, options);
    assert Lookup(before, c.final) == Lookup(c.start, c.final);
    if prepared.writePath != NO_PATH {
      forall after | PartlyCleared(before, after, c.state, c.write, true) ensures Idle(c, after) {
        PartlyClearedIsStripped(before, after, c.state, c.write);
        StrippedIsIdle(c, before, after);
      }
    }
  }

  /** A write that is not to be done: dropping it can only remove its own two files. */
  ghost predicate NotBegun(p: WriteState, c: Case) {
    p.options.atomicWrite
    && ((p.writePath == NO_PATH && p.statePath == NO_PATH) || (p.writePath == c.write && p.statePath == c.state))
  }

  /** Open the output of a write that has been begun. */
  method OpenBegun(fs: FileSystem, prepared: PreparedFileWrite, output: OutputStream, ghost c: Case)
    returns (ready: bool, done: nat)
    requires fs.Valid() && prepared.Valid() && c.Separate() && Idle(c, fs.files) && !output.isOpen
    requires Belongs(prepared.State(), c) && TakenUp(prepared.State(), fs.files)
    modifies fs, output
    ensures fs.Valid() && old(fs.history) <= fs.history
    ensures forall i :: |old(fs.history)| <= i < |fs.history| ==> c.Working(fs.history[i])
    ensures done == prepared.resumeOffset
    ensures !ready ==> fs.files == old(fs.files) && !output.isOpen
    ensures ready ==> Active(fs, prepared, output, c, done) && SavedUpTo(fs.files, c, done)
    ensures fs.reliable ==> ready
  {
    hide Case.Working, Idle, TakenUp, SavedUpTo;
    var error: Problem;
    ready, error := prepared.OpenBinaryOutput(fs, output);
    done := if prepared.resumeAvailable then prepared.resumeOffset else 0;
    StartedWorks(c, prepared.State(), old(fs.files));
    NotResumed(prepared.State(), old(fs.files));
  }

  lemma NotResumed(p: WriteState, files: Files)
    requires TakenUp(p, files)
    ensures !p.resumeAvailable ==> p.resumeOffset == 0
  {}

  /** Write the chunks, close the output and commit. */
  method Fill(fs: FileSystem, prepared: PreparedFileWrite, output: OutputStream, chunks: seq<Content>, first: nat,
              events: nat -> Event, ghost c: Case)
    returns (outcome: Outcome)
    requires c.Separate() && c.Whole() == Concat(chunks) && |c.Whole()| <= MAX_U64
    requires first <= |chunks| && Active(fs, prepared, output, c, |Concat(chunks[..first])|)
    requires SavedUpTo(fs.files, c, |Concat(chunks[..first])|)
    modifies fs, prepared`preserving, prepared`resumeAvailable, prepared`resumeOffset, prepared`committed, output
    ensures fs.Valid() && prepared.Valid() && Finished(old(fs.history), fs.history, fs.files, c)
    ensures outcome != Skipped
    ensures outcome == Completed ==> prepared.committed && InPlace(fs.files, c)
    ensures Preserves(outcome) ==> prepared.preserving
    ensures Preserves(outcome) && fs.reliable ==> MayBeTakenUp(fs.files, c)
    ensures !Preserves(outcome) && outcome != Completed ==> prepared.Owns()
    ensures fs.reliable && MayBePut(c) ==> StopsRight(events, chunks, StopOf(events, first, |chunks|), outcome)
    ensures fs.reliable && Preserves(outcome) ==>
            c.write in fs.files && fs.files[c.write] == Concat(chunks[..StopOf(events, first, |chunks|)])
  {
    hide Case.Working, Case.Sound, Case.Whole, SavedUpTo, MayBeTakenUp, FileSystem.Valid, Tellable;
    ghost var done;
    outcome, done := StoreChunks(fs, prepared, output, chunks, first, events, c);
    ghost var stored, storing := fs.files, fs.history;
    CloseOutput(fs, output, c);
    ghost var closed, closing := fs.files, fs.history;
    assert c.Whole()[..|c.Whole()|] == c.Whole();
    if Preserves(outcome) && fs.reliable {
      StillSaved(stored, closed, c, done);
      PrefixOfWhole(chunks, c.Whole(), StopOf(events, first, |chunks|));
    }
    if outcome == Completed {
      if output.failed {
        outcome := Failed;
      } else {
        outcome := PutInPlace(fs, prepared, c);
      }
    }
    forall files | c.Working(files) ensures c.Sound(files) {
      WorkingIsSound(c, files);
    }
    assert forall i :: |old(fs.history)| <= i < |storing| ==> fs.history[i] == storing[i];
    assert forall i :: |storing| <= i < |closing| ==> fs.history[i] == closing[i];
  }

  lemma PrefixOfWhole(chunks: seq<Content>, whole: Content, k: nat)
    requires k <= |chunks| && whole == Concat(chunks)
    ensures |Concat(chunks[..k])| <= |whole| && whole[..|Concat(chunks[..k])|] == Concat(chunks[..k])
  {
    ConcatPrefix(chunks, k);
  }

  lemma StillSaved(stored: Files, closed: Files, c: Case, done: nat)
    requires SavedUpTo(stored, c, done) && Lookup(closed, c.state) == Lookup(stored, c.state)
    requires c.write in closed && |closed[c.write]| == done
    ensures MayBeTakenUp(closed, c)
  {}

  /** Commit a file that is complete. */
  method PutInPlace(fs: FileSystem, prepared: PreparedFileWrite, ghost c: Case) returns (outcome: Outcome)
    requires fs.Valid() && prepared.Valid() && c.Separate() && Belongs(prepared.State(), c)
    requires c.Working(fs.files) && c.write in fs.files && fs.files[c.write] == c.Whole()
    modifies fs, prepared`committed, prepared`resumeAvailable, prepared`resumeOffset
    ensures fs.Valid() && prepared.Valid() && Finished(old(fs.history), fs.history, fs.files, c)
    ensures outcome == Completed || outcome == Failed
    ensures outcome == Completed ==> prepared.committed && InPlace(fs.files, c)
    ensures outcome == Failed ==> prepared.Owns()
    ensures fs.reliable && (c.mode == Overwrite || c.final !in c.start) ==> outcome == Completed
  {
    hide Case.Working, Case.Sound;
    ghost var before := fs.files;
    var error := prepared.Commit(fs);
    outcome := if error == NoProblem then Completed else Failed;
    forall after | CommittedFrom(before, after, c.final, c.write, c.state, c.mode) ensures c.Sound(after) {
      CommittedIsSound(c, before, after);
    }
    WorkingIsSound(c, before);
    WorkingIsUntouched(c, before);
  }

  lemma WorkingIsUntouched(c: Case, files: Files)
    requires c.Separate() && c.Working(files)
    ensures Lookup(files, c.final) == Lookup(c.start, c.final)
  {}

  /** Close the output, in good time or when the run is left. */
  method CloseOutput(fs: FileSystem, output: OutputStream, ghost c: Case)
    requires fs.Valid() && c.Separate() && c.Working(fs.files) && Closable(fs, output, c)
    modifies fs, output`isOpen, output`pending, output`failed
    ensures !output.isOpen
    ensures fs.Valid() && old(fs.history) <= fs.history && c.Working(fs.files)
    ensures forall i :: |old(fs.history)| <= i < |fs.history| ==> c.Working(fs.history[i])
    ensures Lookup(fs.files, c.state) == Lookup(old(fs.files), c.state)
    ensures !output.failed && old(output.isOpen && output.path == c.write && c.write in fs.files) ==>
              c.write in fs.files && fs.files[c.write] == old(fs.files)[c.write] + old(output.pending)
    ensures c.write !in old(fs.files) ==> fs.files == old(fs.files)
    ensures fs.reliable && !old(output.failed) ==> !output.failed
  {
    hide Case.Working;
    ghost var before, added := fs.files, output.pending;
    ghost var open := output.isOpen && !output.failed && c.write in fs.files;
    output.Close(fs);
    forall after | open && Extended(before, after, c.write, added) ensures c.Working(after) {
      ExtendedWorks(c, before, after, added);
    }
  }

  /** The destination holds the new content, and nothing else is left. */
  ghost predicate InPlace(files: Files, c: Case) {
    Lookup(files, c.final) == Some(c.Whole()) && c.write !in files && c.state !in files
  }

  /** All states since have been sound, and so is the present one. */
  ghost predicate Finished(past: seq<Files>, present: seq<Files>, files: Files, c: Case) {
    past <= present && c.Sound(files) && forall i :: |past| <= i < |present| ==> c.Sound(present[i])
  }

  lemma FinishedThen(first: seq<Files>, second: seq<Files>, third: seq<Files>, middle: Files, files: Files, c: Case)
    requires Finished(first, second, middle, c) && Finished(second, third, files, c)
    ensures Finished(first, third, files, c)
  {
    hide Case.Sound;
    assert forall i :: |first| <= i < |second| ==> third[i] == second[i];
  }

  /** Close the output and discard what has been written. */
  method Abandon(fs: FileSystem, prepared: PreparedFileWrite, output: OutputStream, ghost c: Case)
    returns (discarded: bool)
    requires fs.Valid() && prepared.Valid() && c.Separate() && Belongs(prepared.State(), c)
    requires c.Working(fs.files) && Closable(fs, output, c)
    modifies fs, output, prepared`preserving, prepared`resumeAvailable, prepared`resumeOffset
    ensures fs.Valid() && prepared.Valid() && Finished(old(fs.history), fs.history, fs.files, c)
    ensures Belongs(prepared.State(), c) && !output.isOpen
    ensures discarded ==> Idle(c, fs.files) && c.write !in fs.files && c.state !in fs.files
    ensures fs.reliable ==> discarded
  {
    hide Case.Working, Case.Sound, Case.Whole, Idle;
    CloseOutput(fs, output, c);
    ghost var closed, closing := fs.files, fs.history;
    discarded := prepared.DiscardPartial(fs);
    RemovalsCommute(closed, c.write, c.state);
    assert Stripped(closed, RemoveFile(closed, c.state), c.write, c.state);
    assert Stripped(closed, RemoveFile(RemoveFile(closed, c.state), c.write), c.write, c.state);
    forall after | Stripped(closed, after, c.write, c.state) ensures c.Working(after) {
      StrippedWorks(c, closed, after);
    }
    if discarded {
      ClearedIsIdle(c, fs.files);
    }
    forall files | c.Working(files) ensures c.Sound(files) {
      WorkingIsSound(c, files);
    }
    assert forall i :: |old(fs.history)| <= i < |closing| ==> fs.history[i] == closing[i];
  }

  lemma NothingToStrip(files: Files, after: Files, write: Path, state: Path)
    requires write !in files && state !in files && Stripped(files, after, write, state)
    ensures after == files
  {}

  /** Prepare the write once more, after its files are gone; the assignment drops the write that was there before. */
  method PrepareAgain(fs: FileSystem, prepared: PreparedFileWrite, finalPath: Path, options: Options, ghost c: Case)
    requires fs.Valid() && prepared.Valid() && c.Separate() && Belongs(prepared.State(), c) && finalPath.name != ""
    requires options.atomicWrite && options.allowResume
    requires c == CaseOf(c.start, finalPath, options, c.meaning, options.resumeToken)
    requires Idle(c, fs.files) && c.write !in fs.files && c.state !in fs.files
    modifies fs, prepared
    ensures fs.Valid() && prepared.Valid() && Finished(old(fs.history), fs.history, fs.files, c) && Idle(c, fs.files)
    ensures c.write !in fs.files && c.state !in fs.files
    ensures prepared.problem == NoProblem && !prepared.skipped ==>
              Belongs(prepared.State(), c) && TakenUp(prepared.State(), fs.files) && prepared.resumeOffset == 0
    ensures prepared.problem != NoProblem || prepared.skipped ==> NotBegun(prepared.State(), c)
    ensures fs.reliable && (c.mode == Overwrite || c.final !in c.start) ==>
            prepared.problem == NoProblem && !prepared.skipped
  {
    hide Case.Sound, Idle, Stripped;
    var again := Begin(fs, finalPath, options, c);
    ghost var begun, beginning := fs.files, fs.history;
    prepared.MoveFrom(fs, again);
    forall after | Stripped(begun, after, c.write, c.state) ensures after == begun {
      NothingToStrip(begun, after, c.write, c.state);
    }
    forall files | Idle(c, files) ensures c.Sound(files) {
      IdleIsSound(c, files);
    }
    assert forall i :: |old(fs.history)| <= i < |beginning| ==> fs.history[i] == beginning[i];
  }

  lemma WorkingFinishes(past: seq<Files>, present: seq<Files>, files: Files, c: Case)
    requires past <= present && present != [] && files == present[|present| - 1] && c.Separate()
    requires (past == present && Idle(c, files)) || c.Working(files)
    requires forall i :: |past| <= i < |present| ==> c.Working(present[i])
    ensures Finished(past, present, files, c)
  {
    forall files | c.Working(files) ensures c.Sound(files) {
      WorkingIsSound(c, files);
    }
    if past == present && Idle(c, files) {
      IdleIsSound(c, files);
    }
  }

  /** Give up what is there, and begin with nothing. */
  method Restart(fs: FileSystem, prepared: PreparedFileWrite, output: OutputStream, finalPath: Path, options: Options,
                 ghost c: Case)
    returns (ready: bool)
    requires options.atomicWrite && options.allowResume && finalPath.name != ""
    requires c == CaseOf(c.start, finalPath, options, c.meaning, options.resumeToken)
    requires fs.Valid() && prepared.Valid() && c.Separate() && Belongs(prepared.State(), c)
    requires c.Working(fs.files) && Closable(fs, output, c)
    modifies fs, prepared, output
    ensures fs.Valid() && prepared.Valid() && Finished(old(fs.history), fs.history, fs.files, c)
    ensures ready ==> Active(fs, prepared, output, c, 0)
    ensures !ready ==> NotBegun(prepared.State(), c)
    ensures !ready && fs.reliable ==> c.write !in fs.files && c.state !in fs.files
    ensures fs.reliable && (c.mode == Overwrite || c.final !in c.start) ==> ready
  {
    hide Case.Working, Case.Sound, Case.Whole, Idle, TakenUp, Finished, Active;
    var discarded := Abandon(fs, prepared, output, c);
    if !discarded {
      return false;
    }
    ghost var files, states := fs.files, fs.history;
    PrepareAgain(fs, prepared, finalPath, options, c);
    FinishedThen(old(fs.history), states, fs.history, files, fs.files, c);
    if prepared.problem != NoProblem || prepared.skipped {
      return false;
    }
    files, states := fs.files, fs.history;
    var done;
    ready, done := OpenBegun(fs, prepared, output, c);
    WorkingFinishes(states, fs.history, fs.files, c);
    FinishedThen(old(fs.history), states, fs.history, files, fs.files, c);
  }

  /** Open the output and go to the chunk where the earlier write has ended, or begin again with nothing if it
      has not ended between two chunks. */
  method OpenAtChunk(fs: FileSystem, prepared: PreparedFileWrite, output: OutputStream, finalPath: Path,
                     options: Options, chunks: seq<Content>, ghost c: Case)
    returns (ready: bool, first: nat)
    requires options.atomicWrite && options.allowResume && finalPath.name != ""
    requires c == CaseOf(c.start, finalPath, options, c.meaning, options.resumeToken)
    requires fs.Valid() && prepared.Valid() && c.Separate() && Idle(c, fs.files)
    requires Belongs(prepared.State(), c) && TakenUp(prepared.State(), fs.files) && !output.isOpen
    modifies fs, prepared, output
    ensures fs.Valid() && prepared.Valid() && Finished(old(fs.history), fs.history, fs.files, c)
    ensures ready ==> first <= |chunks| && Active(fs, prepared, output, c, |Concat(chunks[..first])|)
    ensures ready ==> SavedUpTo(fs.files, c, |Concat(chunks[..first])|)
    ensures ready ==> StartsAt(chunks, old(prepared.resumeOffset), first)
    ensures !ready ==> NotBegun(prepared.State(), c)
    ensures !ready && fs.reliable ==> c.write !in fs.files && c.state !in fs.files
    ensures fs.reliable && (c.mode == Overwrite || c.final !in c.start) ==> ready
  {
    hide Case.Working, Case.Sound, Case.Whole, Idle, TakenUp, SavedUpTo, Finished, Active, Concat;
    var done;
    first := 0;
    ready, done := OpenBegun(fs, prepared, output, c);
    ghost var files, states := fs.files, fs.history;
    if ready {
      ActiveIsClosable(fs, prepared, output, c, done);
    }
    WorkingFinishes(old(fs.history), fs.history, fs.files, c);
    BelongingIsNotBegun(prepared.State(), c);
    if !ready {
      return;
    }
    var index := ResolveResumeChunkIndex(chunks, done);
    if index == None {
      ready := Restart(fs, prepared, output, finalPath, options, c);
      FinishedThen(old(fs.history), states, fs.history, files, fs.files, c);
      NothingIsSaved(fs.files, c);
      NothingConcat(chunks);
    } else {
      first := index.value;
    }
  }

  lemma NothingConcat(chunks: seq<Content>)
    ensures Concat(chunks[..0]) == []
  {}

  lemma BelongingIsNotBegun(p: WriteState, c: Case)
    requires Belongs(p, c)
    ensures NotBegun(p, c)
  {}

  lemma NothingIsSaved(files: Files, c: Case)
    ensures SavedUpTo(files, c, 0)
  {}

  lemma ActiveIsClosable(fs: FileSystem, prepared: PreparedFileWrite, output: OutputStream, c: Case, done: nat)
    requires Active(fs, prepared, output, c, done)
    ensures Closable(fs, output, c) && c.Working(fs.files) && fs.Valid() && prepared.Valid()
            && Belongs(prepared.State(), c)
  {}

  ghost predicate Absent(files: Files, c: Case) { c.write !in files && c.state !in files }

  /** The write is the owner of the files of the run. */
  ghost predicate OwnsFiles(p: WriteState, c: Case) {
    p.Owns() && p.options.atomicWrite && p.writePath == c.write && p.statePath == c.state
  }

  /** Dropping the write at the end keeps everything sound, and removes its files. */
  lemma DroppedFinishes(c: Case, p: WriteState, before: Files, after: Files, past: seq<Files>, present: seq<Files>,
                        reliable: bool)
    requires NotBegun(p, c) && c.Separate() && Named(before) && c.Sound(before)
    requires p.Dropped(before, after, past, present, reliable)
    ensures Finished(past, present, after, c)
    ensures Absent(before, c) || (reliable && OwnsFiles(p, c)) ==> Absent(after, c)
    ensures c.Untouched(before) ==> c.Untouched(after)
  {
    hide Case.Sound;
    AbsentIsRemoved(before, NO_PATH);
    forall files | Stripped(before, files, c.write, c.state) ensures c.Sound(files) {
      StrippedIsSound(c, before, files);
    }
    assert Stripped(before, before, c.write, c.state);
    assert Stripped(before, after, c.write, c.state);
  }

  lemma StartIsIdle(c: Case)
    requires c.Recoverable(c.start)
    ensures Idle(c, c.start)
  {
    hide Case.Recoverable;
  }

  lemma IdleFinishes(past: seq<Files>, present: seq<Files>, files: Files, c: Case)
    requires past <= present && c.Separate() && Idle(c, files)
    requires forall i :: |past| <= i < |present| ==> Idle(c, present[i])
    ensures Finished(past, present, files, c)
  {
    forall files | Idle(c, files) ensures c.Sound(files) {
      IdleIsSound(c, files);
    }
  }

  /** The download, once the write is prepared. */
  method DownloadPrepared(fs: FileSystem, prepared: PreparedFileWrite, finalPath: Path, options: Options,
                          chunks: seq<Content>, events: nat -> Event, ghost c: Case)
    returns (outcome: Outcome)
    requires options.atomicWrite && options.allowResume && finalPath.name != ""
    requires c == CaseOf(c.start, finalPath, options, c.meaning, options.resumeToken)
    requires c.Whole() == Concat(chunks) && |c.Whole()| <= MAX_U64
    requires fs.Valid() && prepared.Valid() && c.Separate() && Idle(c, fs.files)
    requires Belongs(prepared.State(), c) && TakenUp(prepared.State(), fs.files)
    modifies fs, prepared
    ensures fs.Valid() && prepared.Valid() && Finished(old(fs.history), fs.history, fs.files, c)
    ensures outcome != Skipped && NotBegun(prepared.State(), c)
    ensures outcome == Completed ==> prepared.committed && InPlace(fs.files, c)
    ensures Preserves(outcome) ==> prepared.preserving
    ensures Preserves(outcome) && fs.reliable ==> MayBeTakenUp(fs.files, c)
    ensures !Preserves(outcome) && outcome != Completed && fs.reliable ==>
              OwnsFiles(prepared.State(), c) || Absent(fs.files, c)
    ensures fs.reliable && MayBePut(c) ==>
              forall first: nat :: StartsAt(chunks, old(prepared.resumeOffset), first) ==>
                StopsAsAsked(events, chunks, first, outcome, fs.files, c)
  {
    hide Case.Working, Case.Sound, Case.Whole, Idle, TakenUp, SavedUpTo, Finished, MayBeTakenUp, FileSystem.Valid,
        Tellable, StartsAt;
    var output := new OutputStream();
    var ready, first := OpenAtChunk(fs, prepared, output, finalPath, options, chunks, c);
    if !ready {
      return Failed;
    }
    ghost var files, states := fs.files, fs.history;
    outcome := Fill(fs, prepared, output, chunks, first, events, c);
    FinishedThen(old(fs.history), states, fs.history, files, fs.files, c);
    forall first': nat | StartsAt(chunks, old(prepared.resumeOffset), first') ensures first' == first {
      StartIsUnique(chunks, old(prepared.resumeOffset), first', first);
    }
  }

  /** The outcome is that of the chunk at which the run stops, and what is preserved are the chunks before it. */
  ghost predicate StopsAsAsked(events: nat -> Event, chunks: seq<Content>, first: nat, outcome: Outcome, files: Files,
                               c: Case)
    requires first <= |chunks|
  {
    var k := StopOf(events, first, |chunks|);
    StopsRight(events, chunks, k, outcome)
    && (Preserves(outcome) ==> c.write in files && files[c.write] == Concat(chunks[..k]))
  }

  /** No chunk from the first one on is missing before chunk k, which is the one that does not come. */
  ghost predicate StopsBefore(events: nat -> Event, chunks: seq<Content>, first: nat, k: nat) {
    first <= k < |chunks| && events(k) != Fetched && AllFetched(events, first, k)
  }

  /** The chunks before chunk k are kept, and can be taken up. */
  ghost predicate KeepsChunks(files: Files, c: Case, chunks: seq<Content>, k: nat)
    requires k <= |chunks|
  {
    c.write in files && files[c.write] == Concat(chunks[..k]) && MayBeTakenUp(files, c)
  }

  ghost predicate MayBePut(c: Case) { c.mode == Overwrite || c.final !in c.start }

  /** Download a file made of the chunks to the destination.  Wherever the run stops, and in whatever state a
      crash leaves the files, the destination is sound and a later download can take up what is there. */
  method Download(fs: FileSystem, finalPath: Path, options: Options, chunks: seq<Content>, events: nat -> Event,
                  ghost c: Case)
    returns (outcome: Outcome)
    requires fs.Valid() && options.atomicWrite && options.allowResume
    requires c == CaseOf(fs.files, finalPath, options, c.meaning, options.resumeToken)
    requires c.Whole() == Concat(chunks) && |c.Whole()| <= MAX_U64
    requires c.Recoverable(fs.files)
    modifies fs
    ensures fs.Valid() && Finished(old(fs.history), fs.history, fs.files, c)
    ensures outcome == Completed ==> InPlace(fs.files, c)
    ensures outcome == Skipped ==> c.mode == SkipExisting && c.final in c.start && c.Untouched(fs.files)
    ensures fs.reliable && finalPath.name != "" && c.final in c.start
            && !Resumable(old(fs.files), finalPath, options) ==>
              (c.mode == SkipExisting ==> outcome == Skipped) && (c.mode == FailIfExists ==> outcome == Failed)
    // When no operation on the files fails, nothing is left behind but what may be taken up again ...
    ensures fs.reliable && finalPath.name != "" && Preserves(outcome) ==> MayBeTakenUp(fs.files, c)
    ensures fs.reliable && finalPath.name != "" && !Preserves(outcome) ==> Absent(fs.files, c)
    // ... with all chunks there that are still needed, the download completes ...
    ensures fs.reliable && finalPath.name != "" && MayBePut(c) ==>
              var offset := ResumeOffset(old(fs.files), finalPath, options);
              forall first: nat :: StartsAt(chunks, offset, first) && AllFetched(events, first, |chunks|) ==>
                outcome == Completed
    // ... and else the first chunk that does not come decides
    ensures fs.reliable && finalPath.name != "" && MayBePut(c) ==>
              var offset := ResumeOffset(old(fs.files), finalPath, options);
              forall first: nat, k: nat :: StartsAt(chunks, offset, first) && StopsBefore(events, chunks, first, k) ==>
                (events(k) == Pausing ==> outcome == Paused && KeepsChunks(fs.files, c, chunks, k))
                && (events(k) == NoServerLeft ==> outcome == Exhausted && KeepsChunks(fs.files, c, chunks, k))
                && (events(k) == Cancelling ==> outcome == Cancelled && Absent(fs.files, c))
                && (events(k) == Aborting ==> outcome == Aborted && Absent(fs.files, c))
  {
    hide Case.Working, Case.Sound, Case.Whole, Case.Recoverable, Case.Untouched, Idle, TakenUp, Finished, MayBeTakenUp,
        Tellable, StartsAt, ResumeOffset, Concat, StopOf, Resumable;
    PathsDiffer(finalPath, options);
    StartIsIdle(c);
    var prepared := Begin(fs, finalPath, options, c);
    ghost var files, states := fs.files, fs.history;
    IdleFinishes(old(fs.history), states, files, c);
    IdleIsUntouched(c, files);
    if prepared.problem != NoProblem {
      outcome := Failed;
    } else if prepared.skipped {
      outcome := Skipped;
    } else {
      outcome := DownloadPrepared(fs, prepared, finalPath, options, chunks, events, c);
      FinishedThen(old(fs.history), states, fs.history, files, fs.files, c);
    }
    files, states := fs.files, fs.history;
    FinishedIsSound(old(fs.history), states, files, c);
    prepared.Cleanup(fs);
    DroppedFinishes(c, prepared.State(), files, fs.files, states, fs.history, fs.reliable);
    FinishedThen(old(fs.history), states, fs.history, files, fs.files, c);
    ghost var offset := ResumeOffset(old(fs.files), finalPath, options);
    forall first: nat, k: nat | StartsAt(chunks, offset, first) && StopsBefore(events, chunks, first, k)
      ensures first <= |chunks| && StopOf(events, first, |chunks|) == k
    {
      StopIsUnique(events, first, k, |chunks|);
    }
  }

  lemma IdleIsUntouched(c: Case, files: Files)
    requires Idle(c, files)
    ensures c.Untouched(files)
  {}

  lemma FinishedIsSound(past: seq<Files>, present: seq<Files>, files: Files, c: Case)
    requires Finished(past, present, files, c)
    ensures c.Sound(files)
  {}

  /** A later write will go on with what is there, unless it is nothing. */
  ghost predicate MayBeTakenUp(files: Files, c: Case) {
    c.write in files && SavedUpTo(files, c, |files[c.write]|)
  }

  // ---------------------------------------------------------------- Crashes

  datatype Job = Job(mode: Mode, token: Text, chunks: seq<Content>, events: nat -> Event)
  {
    function Options(suffix: string): Options { FileWrite.Options.Options(mode, true, suffix, true, token) }

    ghost predicate Means(meaning: Meaning) {
      meaning(token) == Concat(chunks) && |Concat(chunks)| <= MAX_U64
    }
  }

  /** What the destination can have after jobs that may each be cut off: each job leaves it, or puts all of its
      content there, the latter only if it may overwrite or finds no destination. */
  ghost predicate Reaches(start: Option<Content>, jobs: seq<Job>, destination: Option<Content>)
    decreases |jobs|
  {
    if jobs == [] then destination == start
    else exists found :: Reaches(start, EarlierJobs(jobs), found) && Leaves(jobs[|jobs| - 1], found, destination)
  }

  function EarlierJobs(jobs: seq<Job>): (earlier: seq<Job>)
    requires jobs != []
    ensures |earlier| < |jobs|
  {
    jobs[..|jobs| - 1]
  }

  /** What a job can make of the destination that it finds. */
  predicate Leaves(job: Job, found: Option<Content>, destination: Option<Content>) {
    destination == found || (destination == Some(Concat(job.chunks)) && (job.mode == Overwrite || found == None))
  }

  /** So it has the content that it had at first, or all that one of the jobs was to write; and if it was there, it
      was one that may overwrite. */
  lemma {:induction false} ReachesMeans(start: Option<Content>, jobs: seq<Job>, destination: Option<Content>)
    requires Reaches(start, jobs, destination)
    ensures start.Some? ==> destination.Some?
    ensures destination == start
            || exists j :: 0 <= j < |jobs| && destination == Some(Concat(jobs[j].chunks))
                           && (jobs[j].mode == Overwrite || start == None)
  {
    hide Concat;
    if jobs != [] {
      var before, job := jobs[..|jobs| - 1], jobs[|jobs| - 1];
      var found :| Reaches(start, EarlierJobs(jobs), found) && Leaves(job, found, destination);
      ReachesMeans(start, before, found);
      if destination == found && found != start {
        var j :| 0 <= j < |before| && found == Some(Concat(before[j].chunks))
            && (before[j].mode == Overwrite || start == None);
        assert jobs[j] == before[j];
      } else if destination != found {
        assert jobs[|jobs| - 1] == job;
      }
    }
  }

  lemma ReachesMore(start: Option<Content>, jobs: seq<Job>, job: Job, found: Option<Content>,
                    destination: Option<Content>)
    requires Reaches(start, jobs, found) && Leaves(job, found, destination)
    ensures Reaches(start, jobs + [job], destination)
  {
    hide Leaves;
    assert EarlierJobs(jobs + [job]) == jobs;
  }

  /** The states of all jobs can be told. */
  predicate AllTell(jobs: seq<Job>, meaning: Meaning) {
    forall i :: 0 <= i < |jobs| ==> Tellable(jobs[i].token, meaning)
  }

  /** The destination has come about as the jobs allow, and no file but it and its two companions is concerned. */
  ghost predicate Survived(files: Files, start: Files, target: Case, jobs: seq<Job>) {
    (AllTell(jobs, target.meaning) ==> target.Recoverable(files))
    && Reaches(Lookup(start, target.final), jobs, Lookup(files, target.final))
    && forall path :: path != target.final && path != target.write && path != target.state ==>
         Lookup(files, path) == Lookup(start, path)
  }

  lemma JobSurvives(files: Files, start: Files, target: Case, jobs: seq<Job>, job: Job, c: Case, after: Files)
    requires Survived(files, start, target, jobs) && c.Sound(after) && job.Means(c.meaning)
    requires c == target.(start := files, mode := job.mode, token := job.token)
    ensures Survived(after, start, target, jobs + [job])
  {
    hide Recorded, Concat, Tellable, Reaches;
    assert (jobs + [job])[|jobs|] == job;
    ReachesMore(Lookup(start, target.final), jobs, job, Lookup(files, target.final), Lookup(after, target.final));
  }

  /** Any number of downloads to one destination, each of which may crash at any moment, with or without file
      operations that fail.  The states of all but the last one can be told. */
  method DownloadWithCrashes(files: Files, finalPath: Path, suffix: string, jobs: seq<Job>, ghost meaning: Meaning)
    returns (left: Files)
    requires Named(files) && forall i :: 0 <= i < |jobs| ==> jobs[i].Means(meaning)
    requires jobs != [] ==> AllTell(EarlierJobs(jobs), meaning)
    requires Target(files, finalPath, suffix, meaning).Recoverable(files)
    ensures Named(left) && Survived(left, files, Target(files, finalPath, suffix, meaning), jobs)
    // In particular
    ensures Lookup(left, finalPath) == Lookup(files, finalPath)
            || exists j :: 0 <= j < |jobs| && Lookup(left, finalPath) == Some(Concat(jobs[j].chunks))
                           && (jobs[j].mode == Overwrite || finalPath !in files)
  {
    hide Survived, Reaches, Case.Recoverable, Case.Sound, WritePath, StatePath, Concat, Tellable;
    left := files;
    ghost var target := Target(files, finalPath, suffix, meaning);
    NothingToSurvive(files, target);
    for i := 0 to |jobs|
      invariant Named(left) && Survived(left, files, target, jobs[..i])
    {
      var reliable := *;
      var fs := new FileSystem(left, reliable);
      EarlierTell(jobs, i, meaning);
      SurvivedIsRecoverable(left, files, target, jobs[..i]);
      ghost var c := target.(start := left, mode := jobs[i].mode, token := jobs[i].token);
      SameTarget(finalPath, suffix, jobs[i]);
      RecoverableForJob(left, target, c);
      var _ := Download(fs, finalPath, jobs[i].Options(suffix), jobs[i].chunks, jobs[i].events, c);
      var crash: nat :| crash < |fs.history|;
      if crash > 0 {
        JobSurvives(left, files, target, jobs[..i], jobs[i], c, fs.history[crash]);
        left := fs.history[crash];
      } else {
        assert fs.history[0] == left;
        MoreJobsSurvive(left, files, target, jobs[..i], jobs[i]);
      }
      assert jobs[..i + 1] == jobs[..i] + [jobs[i]];
    }
    assert jobs[..|jobs|] == jobs;
    SurvivedReaches(left, files, target, jobs);
    ReachesMeans(Lookup(files, finalPath), jobs, Lookup(left, finalPath));
  }

  lemma EarlierTell(jobs: seq<Job>, i: nat, meaning: Meaning)
    requires i < |jobs| && AllTell(EarlierJobs(jobs), meaning)
    ensures AllTell(jobs[..i], meaning)
  {
    hide Tellable;
    assert forall j :: 0 <= j < i ==> jobs[..i][j] == EarlierJobs(jobs)[j];
  }

  lemma SurvivedReaches(files: Files, start: Files, target: Case, jobs: seq<Job>)
    requires Survived(files, start, target, jobs)
    ensures Reaches(Lookup(start, target.final), jobs, Lookup(files, target.final))
  {}

  ghost function Target(files: Files, finalPath: Path, suffix: string, meaning: Meaning): Case {
    CaseOf(files, finalPath, Job(Overwrite, [], [], _ => Fetched).Options(suffix), meaning, [])
  }

  lemma SameTarget(finalPath: Path, suffix: string, job: Job)
    ensures forall files, meaning :: CaseOf(files, finalPath, job.Options(suffix), meaning, job.token)
                                     == Target(files, finalPath, suffix, meaning).(mode := job.mode, token := job.token)
  {}

  lemma NothingToSurvive(files: Files, target: Case)
    requires target.Recoverable(files)
    ensures Survived(files, files, target, [])
  {}

  lemma SurvivedIsRecoverable(files: Files, start: Files, target: Case, jobs: seq<Job>)
    requires Survived(files, start, target, jobs) && AllTell(jobs, target.meaning)
    ensures target.Recoverable(files)
  {}

  lemma RecoverableForJob(files: Files, target: Case, c: Case)
    requires target.Recoverable(files) && c == target.(start := files, mode := c.mode, token := c.token)
    ensures c.Recoverable(files)
  {}

  lemma MoreJobsSurvive(files: Files, start: Files, target: Case, jobs: seq<Job>, job: Job)
    requires Survived(files, start, target, jobs)
    ensures Survived(files, start, target, jobs + [job])
  {
    hide Concat, Reaches, Tellable;
    assert forall i :: 0 <= i < |jobs| ==> (jobs + [job])[i] == jobs[i];
    ReachesMore(Lookup(start, target.final), jobs, job, Lookup(files, target.final), Lookup(files, target.final));
  }

  /** After any crashes, a download that nothing disturbs ends with its own content and nothing else. */
  method DownloadAfterCrashes(files: Files, finalPath: Path, suffix: string, jobs: seq<Job>, last: Job,
                              ghost meaning: Meaning)
    returns (left: Files)
    requires Named(files) && finalPath.name != "" && forall i :: 0 <= i < |jobs| ==> jobs[i].Means(meaning)
    requires AllTell(jobs, meaning) && last.Means(meaning) && last.mode == Overwrite
    requires AllFetched(last.events, 0, |last.chunks|)
    requires Target(files, finalPath, suffix, meaning).Recoverable(files)
    ensures var target := Target(files, finalPath, suffix, meaning);
            Lookup(left, finalPath) == Some(Concat(last.chunks)) && target.write !in left && target.state !in left
            && forall path :: path != finalPath && path != target.write && path != target.state ==>
                 Lookup(left, path) == Lookup(files, path)
  {
    hide Case.Recoverable, WritePath, StatePath, Concat, Tellable;
    left := DownloadWithCrashes(files, finalPath, suffix, jobs, meaning);
    ghost var target := Target(files, finalPath, suffix, meaning);
    SurvivedIsRecoverable(left, files, target, jobs);
    ghost var c := target.(start := left, mode := last.mode, token := last.token);
    SameTarget(finalPath, suffix, last);
    RecoverableForJob(left, target, c);
    var fs := new FileSystem(left, true);
    ghost var first := StartExists(last.chunks, ResumeOffset(left, finalPath, last.Options(suffix)));
    var outcome := Download(fs, finalPath, last.Options(suffix), last.chunks, last.events, c);
    left := fs.files;
  }

  // ---------------------------------------------------------------- Pausing

  /** Write a first part after what is taken up, record the size and leave it. */
  method PauseAfter(fs: FileSystem, finalPath: Path, options: Options, first: Content)
    requires fs.Valid() && fs.reliable && finalPath.name != "" && options.atomicWrite && options.allowResume
    requires options.resumeToken != [] && |TakenUpContent(fs.files, finalPath, options) + first| <= MAX_U64
    requires options.mode == Overwrite || finalPath !in fs.files
    modifies fs
    ensures fs.Valid()
    ensures var written := TakenUpContent(old(fs.files), finalPath, options) + first;
            fs.files == old(fs.files)[WritePath(finalPath, options) := written]
                                     [StatePath(finalPath, options) := StateText(options.resumeToken, |written|)]
  {
    hide Recorded, Records, StateText, Steps, WritePath, StatePath, PartlyCleared, Stripped, Torn, FileSystem.Valid;
    ghost var write, state := WritePath(finalPath, options), StatePath(finalPath, options);
    PathsDiffer(finalPath, options);
    var writer := PrepareFileWrite(fs, finalPath, options);
    ghost var prepared := fs.files;
    KeptIsTakenUp(old(fs.files), prepared, writer, finalPath, options);
    var size := writer.resumeOffset + |first|;
    var _ := writer.WriteOutput(fs, first);
    ghost var written := fs.files;
    assert written[write] == TakenUpContent(old(fs.files), finalPath, options) + first;
    var _ := writer.SaveResumeState(fs, size);
    writer.PreservePartial();
    writer.Cleanup(fs);
  }

  /** What a write that has just been prepared goes on from is what was resumable. */
  lemma KeptIsTakenUp(before: Files, files: Files, writer: PreparedFileWrite, finalPath: Path, options: Options)
    requires writer.options == options && writer.writePath == WritePath(finalPath, options)
    requires writer.statePath == StatePath(finalPath, options)
    requires writer.resumeAvailable <==> Resumable(before, finalPath, options)
    requires writer.resumeAvailable ==> files == before && Resumes(files, writer.State())
    requires !writer.resumeAvailable ==> writer.resumeOffset == 0
    ensures writer.Kept(files, writer.resumeAvailable && writer.resumeOffset > 0)
            == TakenUpContent(before, finalPath, options)
    ensures writer.resumeOffset == |TakenUpContent(before, finalPath, options)|
  {
    hide Records, WritePath, StatePath;
    if writer.resumeAvailable {
      CountIsRecorded(files, writer.statePath, options.resumeToken, writer.resumeOffset, |files[writer.writePath]|);
    }
  }

  lemma CountIsRecorded(files: Files, state: Path, token: Text, count: nat, other: nat)
    ensures Records(files, state, token, count) && Records(files, state, token, other) ==> count == other
  {}

  /** Prepare a write, write everything and drop it: what is there is taken up if it is resumable, and no file
      but the destination is left. */
  method FinishWith(fs: FileSystem, finalPath: Path, options: Options, bytes: Content)
    requires fs.Valid() && fs.reliable && finalPath.name != "" && options.atomicWrite
    requires options.mode == Overwrite || finalPath !in fs.files
    modifies fs
    ensures fs.Valid()
    ensures fs.files
            == RemoveFile(RemoveFile(old(fs.files), WritePath(finalPath, options)), StatePath(finalPath, options))
                          [finalPath := TakenUpContent(old(fs.files), finalPath, options) + bytes]
  {
    hide Recorded, Records, StateText, Steps, WritePath, StatePath;
    ghost var write, state := WritePath(finalPath, options), StatePath(finalPath, options);
    PathsDiffer(finalPath, options);
    var writer := PrepareFileWrite(fs, finalPath, options);
    KeptIsTakenUp(old(fs.files), fs.files, writer, finalPath, options);
    var error := writer.WriteAll(fs, bytes);
    writer.Cleanup(fs);
  }

  ghost function TakenUpContent(files: Files, finalPath: Path, options: Options): Content {
    if Resumable(files, finalPath, options) then files[WritePath(finalPath, options)] else []
  }

  /** Pause after a first part, and later write a second part under some token: if that is what the first token is
      read as, and the later write may resume, what is committed is all that was there with both parts, one after
      the other; if not, only the second part is committed.  So a token without newline is taken up under itself and
      no other. */
  method PauseThenFinish(fs: FileSystem, finalPath: Path, options: Options, first: Content, resume: bool,
                         laterToken: Text, second: Content)
    requires fs.Valid() && fs.reliable && finalPath.name != "" && options.atomicWrite && options.allowResume
    requires options.resumeToken != [] && |TakenUpContent(fs.files, finalPath, options) + first| <= MAX_U64
    requires options.mode == Overwrite || finalPath !in fs.files
    modifies fs
    ensures fs.Valid()
    ensures var kept := if resume && laterToken != [] && TokenRead(options.resumeToken) == Some(laterToken)
                        then TakenUpContent(old(fs.files), finalPath, options) + first else [];
            fs.files
                == RemoveFile(RemoveFile(old(fs.files), WritePath(finalPath, options)), StatePath(finalPath, options))
                          [finalPath := kept + second]
  {
    hide Recorded, Records, StateText, WritePath, StatePath, TokenRead;
    PathsDiffer(finalPath, options);
    ghost var taken := TakenUpContent(fs.files, finalPath, options) + first;
    ghost var token := options.resumeToken;
    PauseAfter(fs, finalPath, options, first);
    StateIsRecognised(fs.files, StatePath(finalPath, options), token, laterToken, |taken|);
    var later := options.(allowResume := resume, resumeToken := laterToken);
    SamePaths(finalPath, options, later);
    FinishWith(fs, finalPath, later, second);
  }

  lemma SamePaths(finalPath: Path, options: Options, later: Options)
    requires later == options.(allowResume := later.allowResume, resumeToken := later.resumeToken)
    ensures WritePath(finalPath, later) == WritePath(finalPath, options)
    ensures StatePath(finalPath, later) == StatePath(finalPath, options)
  {}

  /** The consequence for a token that reads like two token lines: a download that is paused under it is finished
      under the second one with both contents in one file. */
  method PauseUnderSplitToken(fs: FileSystem, finalPath: Path, options: Options, one: Text, other: Text, first: Content,
                              second: Content)
    requires fs.Valid() && fs.reliable && finalPath.name != "" && options.atomicWrite && options.allowResume
    requires NEWLINE !in one && NEWLINE !in other && other != []
    requires options.resumeToken == one + [NEWLINE] + TOKEN_PREFIX + other && |first| <= MAX_U64
    requires options.mode == Overwrite || finalPath !in fs.files
    modifies fs
    ensures fs.Valid() && Lookup(fs.files, finalPath) == Some(first + second)
  {
    hide WritePath, StatePath, TokenRead;
    TokenReadSplit(one, other);
    NeverTakenUp(fs.files, finalPath, options);
    assert [] + first == first;
    PauseThenFinish(fs, finalPath, options, first, true, other, second);
  }

  /** Nothing is ever taken up under a token with a newline. */
  lemma NeverTakenUp(files: Files, finalPath: Path, options: Options)
    ensures NEWLINE in options.resumeToken ==> TakenUpContent(files, finalPath, options) == []
  {
    hide Load, WritePath, StatePath;
    var state := StatePath(finalPath, options);
    if state in files && Load(files[state]).Loaded? {
      LoadedFits(files[state]);
    }
  }

  // ---------------------------------------------------------------- Any sequence of operations

  datatype Operation =
    | Prepare
    | WriteWhole(bytes: Content)
    | OpenOutput
    | WriteOutput(bytes: Content)
    | CloseOutput
    | Save(count: U64)
    | Clear
    | Discard
    | Preserve
    | CommitNow
    | Move
    | Drop

  /** The write is for the destination, or has no files. */
  ghost predicate Concerns(p: WriteState, finalPath: Path, options: Options) {
    (p.writePath == NO_PATH && p.statePath == NO_PATH && p.options.atomicWrite)
    || (p.options == options && p.finalPath == finalPath && finalPath.name != "" && p.options.atomicWrite
        && p.writePath == WritePath(finalPath, options) && p.statePath == StatePath(finalPath, options))
  }

  /** The destination is as it was. */
  ghost predicate Keeps(before: Files, after: Files, finalPath: Path) {
    Lookup(after, finalPath) == Lookup(before, finalPath) && Named(after)
  }

  lemma KeepingSteps(states: seq<Files>, from: nat, finalPath: Path, write: Path, mode: Mode)
    requires 0 < from <= |states| && forall i :: from <= i < |states| ==> Keeps(states[from - 1], states[i], finalPath)
    ensures Steps(states, from, finalPath, write, mode)
  {
    KeptSteps(states, from, finalPath, write, mode);
  }

  lemma StrippedKeeps(before: Files, after: Files, write: Path, state: Path, finalPath: Path)
    requires Named(before) && Stripped(before, after, write, state) && finalPath != write && finalPath != state
    ensures Keeps(before, after, finalPath)
  {}

  /** All states since keep the destination as it was. */
  ghost predicate AllKeep(past: seq<Files>, present: seq<Files>, files: Files, finalPath: Path) {
    past != [] && past <= present && Keeps(past[|past| - 1], files, finalPath)
    && forall i :: |past| <= i < |present| ==> Keeps(past[|past| - 1], present[i], finalPath)
  }

  lemma AllKeepThen(first: seq<Files>, second: seq<Files>, third: seq<Files>, middle: Files, files: Files,
                    finalPath: Path)
    requires AllKeep(first, second, middle, finalPath) && second != [] && middle == second[|second| - 1]
    requires AllKeep(second, third, files, finalPath)
    ensures AllKeep(first, third, files, finalPath)
  {
    hide Named;
    assert forall i :: |first| <= i < |second| ==> third[i] == second[i];
  }

  /** An open output goes to another file than the destination. */
  ghost predicate Aside(output: OutputStream, finalPath: Path)
    reads output
  {
    output.isOpen ==> output.path != finalPath
  }

  method PerformOpen(fs: FileSystem, prepared: PreparedFileWrite, output: OutputStream, ghost finalPath: Path,
                     ghost options: Options)
    requires fs.Valid() && prepared.Valid() && Concerns(prepared.State(), finalPath, options)
            && Aside(output, finalPath)
    modifies fs, output
    ensures fs.Valid() && AllKeep(old(fs.history), fs.history, fs.files, finalPath) && Aside(output, finalPath)
  {
    hide WritePath, StatePath;
    PathsDiffer(finalPath, options);
    var ready, _ := prepared.OpenBinaryOutput(fs, output);
    assert ready ==> output.path in fs.files;
  }

  /** The operations on the output: what it passes on goes to another file than the destination. */
  method PerformOnOutput(fs: FileSystem, output: OutputStream, operation: Operation, ghost finalPath: Path)
    requires fs.Valid() && Aside(output, finalPath) && (operation.WriteOutput? || operation.CloseOutput?)
    modifies fs, output
    ensures fs.Valid() && AllKeep(old(fs.history), fs.history, fs.files, finalPath) && Aside(output, finalPath)
  {
    if operation.WriteOutput? {
      if output.isOpen {
        output.Write(fs, operation.bytes);
      }
    } else {
      output.Close(fs);
    }
  }

  /** Preparing the write anew; what was prepared before is dropped by the assignment. */
  method PerformPrepare(fs: FileSystem, prepared: PreparedFileWrite, finalPath: Path, options: Options)
    requires fs.Valid() && prepared.Valid() && Concerns(prepared.State(), finalPath, options) && options.atomicWrite
    modifies fs, prepared
    ensures fs.Valid() && prepared.Valid() && Concerns(prepared.State(), finalPath, options)
    ensures AllKeep(old(fs.history), fs.history, fs.files, finalPath)
  {
    hide WritePath, StatePath, Stripped, Resumes, Resumable, Keeps;
    PathsDiffer(finalPath, options);
    ghost var before := fs.files;
    var again := PrepareFileWrite(fs, finalPath, options);
    ghost var files, states := fs.files, fs.history;
    ghost var write, state := again.writePath, again.statePath;
    forall after
      | PartlyCleared(before, after, state, write, true) && Named(before) && finalPath != write && finalPath != state
      ensures Keeps(before, after, finalPath)
    {
      PartlyClearedIsStripped(before, after, state, write);
      StrippedKeeps(before, after, write, state, finalPath);
    }
    KeepsItself(before, finalPath);
    assert AllKeep(old(fs.history), states, files, finalPath);
    DropKeeps(fs.files, prepared.State(), finalPath, options);
    prepared.MoveFrom(fs, again);
    assert AllKeep(states, fs.history, fs.files, finalPath);
    AllKeepThen(old(fs.history), states, fs.history, files, fs.files, finalPath);
  }

  lemma KeepsItself(files: Files, finalPath: Path)
    requires Named(files)
    ensures Keeps(files, files, finalPath)
  {}

  /** Dropping the write keeps the destination. */
  lemma DropKeeps(before: Files, p: WriteState, finalPath: Path, options: Options)
    requires Named(before) && Concerns(p, finalPath, options)
    ensures forall after: Files :: Stripped(before, after, p.writePath, p.statePath) ==> Keeps(before, after, finalPath)
  {
    PathsDiffer(finalPath, options);
    forall after: Files | Stripped(before, after, p.writePath, p.statePath) ensures Keeps(before, after, finalPath) {
      if p.writePath == NO_PATH {
        AbsentIsRemoved(before, NO_PATH);
        assert after == before;
      } else {
        StrippedKeeps(before, after, p.writePath, p.statePath, finalPath);
      }
    }
  }

  /** The operations that cannot put the destination in place. */
  method PerformKeeping(fs: FileSystem, prepared: PreparedFileWrite, output: OutputStream, operation: Operation,
                        finalPath: Path, options: Options)
    returns (result: PreparedFileWrite)
    requires fs.Valid() && prepared.Valid() && Concerns(prepared.State(), finalPath, options) && options.atomicWrite
    requires !operation.CommitNow? && !operation.WriteWhole? && Aside(output, finalPath)
    modifies fs, prepared, output
    ensures Aside(output, finalPath)
    ensures result == prepared || fresh(result)
    ensures fs.Valid() && result.Valid() && Concerns(result.State(), finalPath, options)
    ensures AllKeep(old(fs.history), fs.history, fs.files, finalPath)
  {
    hide WritePath, StatePath, Stripped, Keeps;
    ghost var before := fs.files;
    KeepsItself(before, finalPath);
    PathsDiffer(finalPath, options);
    DropKeeps(before, prepared.State(), finalPath, options);
    result := prepared;
    if operation.Prepare? {
      PerformPrepare(fs, prepared, finalPath, options);
    } else if operation.OpenOutput? {
      PerformOpen(fs, prepared, output, finalPath, options);
    } else if operation.WriteOutput? || operation.CloseOutput? {
      PerformOnOutput(fs, output, operation, finalPath);
    } else if operation.Save? {
      PerformSave(fs, prepared, operation.count, finalPath, options);
    } else if operation.Clear? {
      var _ := prepared.ClearResumeState(fs);
      ClearKeeps(before, prepared.State(), finalPath, options);
    } else if operation.Discard? {
      var _ := prepared.DiscardPartial(fs);
      ClearKeeps(before, prepared.State(), finalPath, options);
    } else if operation.Preserve? {
      prepared.PreservePartial();
    } else if operation.Move? {
      result := new PreparedFileWrite.Moved(prepared);
    } else {
      prepared.Cleanup(fs);
      result := new PreparedFileWrite();
    }
  }

  method PerformSave(fs: FileSystem, prepared: PreparedFileWrite, count: U64, ghost finalPath: Path,
                     ghost options: Options)
    requires fs.Valid() && prepared.Valid() && Concerns(prepared.State(), finalPath, options)
    modifies fs, prepared`resumeAvailable, prepared`resumeOffset
    ensures fs.Valid() && AllKeep(old(fs.history), fs.history, fs.files, finalPath)
  {
    hide WritePath, StatePath, StateText;
    PathsDiffer(finalPath, options);
    ghost var written := prepared.statePath != NO_PATH;
    var _ := prepared.SaveResumeState(fs, count);
    assert |fs.history| > |old(fs.history)| ==> Named(fs.history[|fs.history| - 1]) && prepared.statePath in fs.files;
  }

  lemma ClearKeeps(before: Files, p: WriteState, finalPath: Path, options: Options)
    requires Named(before) && Concerns(p, finalPath, options)
    ensures Keeps(before, RemoveFile(before, p.statePath), finalPath)
    ensures Keeps(before, RemoveFile(RemoveFile(before, p.statePath), p.writePath), finalPath)
  {
    PathsDiffer(finalPath, options);
    AbsentIsRemoved(before, NO_PATH);
  }

  /** A commit moves the whole temporary file to the destination, by allowed steps. */
  method PerformCommit(fs: FileSystem, prepared: PreparedFileWrite, finalPath: Path, options: Options)
    requires fs.Valid() && prepared.Valid() && Concerns(prepared.State(), finalPath, options) && options.atomicWrite
    modifies fs, prepared
    ensures fs.Valid() && prepared.Valid() && Concerns(prepared.State(), finalPath, options)
            && old(fs.history) <= fs.history
    ensures Steps(fs.history, |old(fs.history)|, finalPath, WritePath(finalPath, options), options.mode)
  {
    hide WritePath, StatePath, Steps;
    PathsDiffer(finalPath, options);
    var _ := prepared.Commit(fs);
    if prepared.writePath == NO_PATH {
      assert fs.history == old(fs.history);
      KeptSteps(fs.history, |old(fs.history)|, finalPath, WritePath(finalPath, options), options.mode);
    } else {
      CommitSteps(fs.history, |old(fs.history)|, finalPath, prepared.writePath, prepared.statePath, options.mode);
    }
  }

  /** One operation, on a write that is for the destination and on an output, which may be open or not. */
  method Perform(fs: FileSystem, prepared: PreparedFileWrite, output: OutputStream, operation: Operation,
                 finalPath: Path, options: Options)
    returns (result: PreparedFileWrite)
    requires fs.Valid() && prepared.Valid() && Concerns(prepared.State(), finalPath, options) && options.atomicWrite
    requires Aside(output, finalPath)
    modifies fs, prepared, output
    ensures Aside(output, finalPath)
    ensures result == prepared || fresh(result)
    ensures fs.Valid() && result.Valid() && Concerns(result.State(), finalPath, options)
            && old(fs.history) <= fs.history
    ensures Steps(fs.history, |old(fs.history)|, finalPath, WritePath(finalPath, options), options.mode)
  {
    hide WritePath, StatePath, Steps;
    result := prepared;
    if (operation.CommitNow? || operation.WriteWhole?) && output.isOpen {
      // Nothing is committed while the output is open
      KeptSteps(fs.history, |old(fs.history)|, finalPath, WritePath(finalPath, options), options.mode);
    } else if operation.CommitNow? {
      PerformCommit(fs, prepared, finalPath, options);
    } else if operation.WriteWhole? {
      var _ := prepared.WriteAll(fs, operation.bytes);
      if prepared.writePath == NO_PATH {
        KeptSteps(fs.history, |old(fs.history)|, finalPath, WritePath(finalPath, options), options.mode);
      }
    } else {
      result := PerformKeeping(fs, prepared, output, operation, finalPath, options);
      KeepingSteps(fs.history, |old(fs.history)|, finalPath, WritePath(finalPath, options), options.mode);
    }
  }

  /** Over any sequence of operations, whatever fails, each state of the files comes by an allowed step: the
      destination keeps its content or takes over the whole temporary file, and the latter only if there was no
      destination or it may be overwritten. */
  method PerformAll(fs: FileSystem, operations: seq<Operation>, finalPath: Path, options: Options)
    requires fs.Valid() && options.atomicWrite
    modifies fs
    ensures fs.Valid() && old(fs.history) <= fs.history
    ensures Steps(fs.history, |old(fs.history)|, finalPath, WritePath(finalPath, options), options.mode)
  {
    hide WritePath, StatePath, Steps;
    var prepared := new PreparedFileWrite();
    var output := new OutputStream();
    KeptSteps(fs.history, |fs.history|, finalPath, WritePath(finalPath, options), options.mode);
    for i := 0 to |operations|
      invariant fs.Valid() && old(fs.history) <= fs.history
      invariant fresh(output) && Aside(output, finalPath)
      invariant fresh(prepared) && prepared.Valid() && Concerns(prepared.State(), finalPath, options)
      invariant Steps(fs.history, |old(fs.history)|, finalPath, WritePath(finalPath, options), options.mode)
    {
      ghost var states := fs.history;
      prepared := Perform(fs, prepared, output, operations[i], finalPath, options);
      StepsJoin(states, fs.history, |old(fs.history)|, finalPath, WritePath(finalPath, options), options.mode);
    }
  }

  /** So an existing destination that may not be overwritten still has its content at the end. */
  lemma {:induction false} ExistingIsKept(states: seq<Files>, from: nat, finalPath: Path, write: Path, mode: Mode)
    requires 0 < from <= |states| && Steps(states, from, finalPath, write, mode)
    requires mode != Overwrite && finalPath in states[from - 1]
    ensures forall i :: from <= i < |states| ==> Lookup(states[i], finalPath) == Lookup(states[from - 1], finalPath)
    decreases |states| - from
  {
    if from < |states| {
      assert AllowedStep(states[from - 1], states[from], finalPath, write, mode);
      ExistingIsKept(states, from + 1, finalPath, write, mode);
    }
  }
}
