/** Background tasks (src/ffi/steam_cloud.cpp and src/ffi/steam_depot.cpp): the sections of code that are atomic
    on a task, because they hold its lock or are single operations on an atomic variable. */
module BackgroundTask {
  import opened Basics

  datatype Kind =
    | Pull | Push | Verify
    | ManifestDownload | ChunkDownload | FileDownload | AllFilesDownload | LocalVerify

  /** What the operation of a task has come to.  `message` is the message of a cloud operation or the error text
      of a depot operation, and `output` the output text of the latter. */
  datatype Outcome = Outcome(ok: bool, moduleStatus: string, message: string, output: string)

  datatype TransferProgress = TransferProgress(completedSteps: nat, totalSteps: nat, completedBytes: nat,
                                               totalBytes: nat, resumable: bool, resumed: bool, resumeFromBytes: nat)

  const NO_PROGRESS := TransferProgress(0, 0, 0, 0, false, false, 0)

  /** How a task has ended. */
  datatype Bits = Bits(succeeded: bool, canceled: bool, paused: bool)

  datatype Texts = Texts(moduleStatus: string, phase: string, target: string, message: string)

  /** The result of a transfer, or the report of a verification. */
  datatype Stored = Stored(hasResult: bool, result: Option<Outcome>, hasReport: bool, report: Option<Outcome>)

  /** The fields of a task. */
  datatype Task = Task(kind: Kind, cancelRequested: bool, pauseRequested: bool, finished: bool,
                       bits: Bits, texts: Texts, progress: TransferProgress, stored: Stored)

  const NO_BITS := Bits(false, false, false)
  const NEW_TEXTS := Texts("idle", "Queued", "", "")
  const NOTHING_STORED := Stored(false, None, false, None)

  function NewTask(kind: Kind): Task {
    Task(kind, false, false, false, NO_BITS, NEW_TEXTS, NO_PROGRESS, NOTHING_STORED)
  }

  // ---------------------------------------------------------------- The outcome bits

  predicate Contains(text: string, part: string) {
    |part| <= |text| && (text[..|part|] == part || (text != "" && Contains(text[1..], part)))
  }

  /** The text by which it is judged whether an operation was paused or canceled. */
  function JudgedText(kind: Kind, o: Outcome): string {
    if kind.LocalVerify? && o.message == "" then o.output else o.message
  }

  function IsPaused(kind: Kind, o: Outcome): bool { !o.ok && Contains(JudgedText(kind, o), "operation paused") }

  function IsCanceled(kind: Kind, o: Outcome): bool {
    !o.ok && !IsPaused(kind, o) && Contains(JudgedText(kind, o), "operation canceled")
  }

  function DefaultMessage(kind: Kind, ok: bool): string {
    var what := match kind
      case Pull => "pull"
      case Push => "push"
      case Verify => "verify"
      case ManifestDownload => "manifest download"
      case ChunkDownload => "chunk download"
      case FileDownload => "file download"
      case AllFilesDownload => "all-files download"
      case LocalVerify => "verify";
    what + if ok then " complete" else " failed"
  }

  predicate IsCloud(kind: Kind) { kind.Pull? || kind.Push? || kind.Verify? }

  predicate HasResultOf(kind: Kind) { kind.Pull? || kind.Push? }

  predicate HasReportOf(kind: Kind) { kind.Verify? || kind.LocalVerify? }

  function ShownMessage(kind: Kind, o: Outcome): (text: string)
    ensures text != ""
  {
    if o.message != "" then o.message
    else if !IsCloud(kind) && o.output != "" then o.output
    else DefaultMessage(kind, o.ok)
  }

  function StatusOf(o: Outcome, paused: bool, canceled: bool): string {
    if paused then "paused" else if canceled then "canceled" else if o.ok then "succeeded" else "failed"
  }

  function ShownStatus(kind: Kind, o: Outcome): string {
    var paused, canceled := IsPaused(kind, o), IsCanceled(kind, o);
    if IsCloud(kind) then (if o.moduleStatus == "idle" then StatusOf(o, paused, canceled) else o.moduleStatus)
    else if kind.LocalVerify? then
      (if paused then "paused" else if canceled then "canceled"
       else if !o.ok && o.moduleStatus == "idle" then "failed" else o.moduleStatus)
    else StatusOf(o, paused, canceled)
  }

  // ---------------------------------------------------------------- The atomic sections

  function BitsOf(kind: Kind, o: Outcome): Bits { Bits(o.ok, IsCanceled(kind, o), IsPaused(kind, o)) }

  function Storing(kind: Kind, stored: Stored, o: Outcome): Stored {
    if HasResultOf(kind) then stored.(hasResult := true, result := Some(o))
    else if HasReportOf(kind) then stored.(hasReport := true, report := Some(o))
    else stored
  }

  /** The task after the worker's final section. */
  function Decided(t: Task, o: Outcome): Task {
    t.(stored := Storing(t.kind, t.stored, o), bits := BitsOf(t.kind, o),
       texts := t.texts.(moduleStatus := ShownStatus(t.kind, o), message := ShownMessage(t.kind, o)))
  }

  /** Each bit is as before or as decided. */
  predicate PartlySet(before: Bits, after: Bits, decided: Bits) {
    after.succeeded in {before.succeeded, decided.succeeded} && after.paused in {before.paused, decided.paused}
    && after.canceled in {before.canceled, decided.canceled}
  }

  /** Some of the final section has been done when an exception has ended it. */
  ghost predicate PartlyDecided(t: Task, o: Outcome, after: Task) {
    after == t.(stored := after.stored, bits := after.bits, texts := after.texts)
    && PartlySet(t.bits, after.bits, BitsOf(t.kind, o))
  }

  function Progressed(t: Task, moduleStatus: string, phase: string, target: string, progress: TransferProgress): Task {
    t.(texts := Texts(if moduleStatus == "" then "idle" else moduleStatus, phase, target, t.texts.message),
       progress := progress)
  }

  /** The exception handler. */
  function Failed(t: Task, what: string): Task {
    t.(bits := NO_BITS, texts := t.texts.(moduleStatus := "failed", message := what))
  }

  function PauseShown(t: Task): Task {
    t.(texts := Texts("pausing", "Pause requested", t.texts.target,
                      if t.texts.message == "" then "Pause requested..." else t.texts.message))
  }

  function CancelShown(t: Task): Task {
    t.(texts := Texts("canceled", "Cancel requested", t.texts.target,
                      if t.texts.message == "" then "Cancel requested..." else t.texts.message))
  }

  /** What a poll shows. */
  datatype Snapshot = Snapshot(active: bool, task: Task)

  function Observed(t: Task): Snapshot { Snapshot(!t.finished, t) }

  // ---------------------------------------------------------------- What the final section decides

  predicate IsAt(part: string, text: string, i: nat) { i + |part| <= |text| && text[i..i + |part|] == part }

  ghost predicate Occurs(part: string, text: string) { exists i :: IsAt(part, text, i) }

  lemma {:induction false} ContainsIs(text: string, part: string)
    ensures Contains(text, part) <==> Occurs(part, text)
  {
    if |part| <= |text| && text[..|part|] == part {
      assert IsAt(part, text, 0);
    } else if text != "" {
      ContainsIs(text[1..], part);
      assert forall i: nat :: IsAt(part, text[1..], i) ==> IsAt(part, text, i + 1);
      assert forall i: nat :: IsAt(part, text, i) ==> i > 0 && IsAt(part, text[1..], i - 1);
    }
  }

  /** A task has succeeded if its outcome is good; else it was paused if that is said anywhere in the message, or in
      the output of a local verification without message; else canceled if that is. */
  lemma DecidedBits(t: Task, o: Outcome)
    ensures var bits := Decided(t, o).bits;
            var said := if t.kind == LocalVerify && o.message == "" then o.output else o.message;
            (bits.succeeded <==> o.ok)
            && (bits.paused <==> !o.ok && Occurs("operation paused", said))
            && (bits.canceled <==> !o.ok && !Occurs("operation paused", said) && Occurs("operation canceled", said))
  {
    hide Contains, Occurs;
    ContainsIs(JudgedText(t.kind, o), "operation paused");
    ContainsIs(JudgedText(t.kind, o), "operation canceled");
  }

  /** The status that is shown agrees with the bits, unless the operation has set one of its own: a cloud operation
      any but "idle", a local verification that was not paused or canceled any, and if it failed, any but "idle". */
  lemma DecidedStatus(t: Task, o: Outcome)
    ensures var after := Decided(t, o);
            var status, bits := after.texts.moduleStatus, after.bits;
            if t.kind in {Pull, Push, Verify} && o.moduleStatus != "idle" then status == o.moduleStatus
            else if t.kind == LocalVerify && !bits.paused && !bits.canceled
                    && (bits.succeeded || o.moduleStatus != "idle")
            then status == o.moduleStatus
            else (status == "paused" <==> bits.paused) && (status == "canceled" <==> bits.canceled)
                 && (status == "succeeded" <==> bits.succeeded) && (status == "failed" <==> bits == NO_BITS)
  {
    hide Contains;
  }

  /** The message is that of the operation, or for a depot operation its output, or else tells what has been completed
      or has failed; nothing else that is shown changes. */
  lemma DecidedMessage(t: Task, o: Outcome)
    ensures var after := Decided(t, o);
            after.texts.phase == t.texts.phase && after.texts.target == t.texts.target && after.progress == t.progress
            && (o.message != "" ==> after.texts.message == o.message)
            && (o.message == "" && o.output != "" && t.kind !in {Pull, Push, Verify} ==>
                  after.texts.message == o.output)
            && (o.message == "" && (o.output == "" || t.kind in {Pull, Push, Verify}) ==>
                  after.texts.message == (match t.kind
                    case Pull => "pull"
                    case Push => "push"
                    case ManifestDownload => "manifest download"
                    case ChunkDownload => "chunk download"
                    case FileDownload => "file download"
                    case AllFilesDownload => "all-files download"
                    case _ => "verify") + if o.ok then " complete" else " failed")
  {
    hide BitsOf, ShownStatus, Storing;
  }

  /** A pull or a push stores its result, a verification its report, and the depot transfers neither. */
  lemma DecidedStored(t: Task, o: Outcome)
    ensures var stored := Decided(t, o).stored;
            if t.kind in {Pull, Push} then stored == t.stored.(hasResult := true, result := Some(o))
            else if t.kind in {Verify, LocalVerify} then stored == t.stored.(hasReport := true, report := Some(o))
            else stored == t.stored
  {}

  class BackgroundTask {
    var kind: Kind
    var cancelRequested: bool
    var pauseRequested: bool
    var finished: bool
    var succeeded: bool
    var canceled: bool
    var paused: bool
    var moduleStatus: string
    var phase: string
    var target: string
    var message: string
    var progress: TransferProgress
    var hasResult: bool
    var result: Option<Outcome>
    var hasReport: bool
    var report: Option<Outcome>

    function Value(): Task
      reads this
    {
      Task(kind, cancelRequested, pauseRequested, finished, Bits(succeeded, canceled, paused),
           Texts(moduleStatus, phase, target, message), progress, Stored(hasResult, result, hasReport, report))
    }

    constructor (kind: Kind)
      ensures Value() == NewTask(kind)
      ensures this.kind == kind && !cancelRequested && !pauseRequested && !finished
      ensures !succeeded && !canceled && !paused
      ensures moduleStatus == "idle" && phase == "Queued" && target == message == "" && !hasResult && !hasReport
    {
      this.kind := kind;
      cancelRequested, pauseRequested, finished := false, false, false;
      succeeded, canceled, paused := false, false, false;
      moduleStatus, phase, target, message := "idle", "Queued", "", "";
      progress := NO_PROGRESS;
      hasResult, result, hasReport, report := false, None, false, None;
    }

    method OnProgress(moduleStatus: string, phase: string, target: string, progress: TransferProgress)
      modifies this`moduleStatus, this`phase, this`target, this`progress
      ensures Value() == Progressed(old(Value()), moduleStatus, phase, target, progress)
      ensures this.moduleStatus == (if moduleStatus == "" then "idle" else moduleStatus)
      ensures this.phase == phase && this.target == target && this.progress == progress
    {
      this.moduleStatus := if moduleStatus == "" then "idle" else moduleStatus;
      this.phase := phase;
      this.target := target;
      this.progress := progress;
    }

    /** The worker's final section; an exception may end it after any number of its steps. */
    method Decide(o: Outcome, throwAfter: nat) returns (threw: bool)
      modifies this`hasResult, this`result, this`hasReport, this`report
      modifies this`succeeded, this`paused, this`canceled, this`moduleStatus, this`message
      ensures !threw ==> Value() == Decided(old(Value()), o)
      ensures threw ==> PartlyDecided(old(Value()), o, Value())
    {
      hide ShownStatus, ShownMessage, BitsOf, Storing;
      threw := StoreOutcome(o, throwAfter);
      if !threw {
        threw := SetBits(o, throwAfter);
      }
      if !threw {
        threw := SetTexts(o, throwAfter);
      }
    }

    method SetTexts(o: Outcome, throwAfter: nat) returns (threw: bool)
      modifies this`moduleStatus, this`message
      ensures !threw ==> moduleStatus == ShownStatus(kind, o) && message == ShownMessage(kind, o)
    {
      hide ShownStatus, ShownMessage;
      moduleStatus := ShownStatus(kind, o);
      if throwAfter == 5 {
        return true;
      }
      message := ShownMessage(kind, o);
      return false;
    }

    method StoreOutcome(o: Outcome, throwAfter: nat) returns (threw: bool)
      modifies this`hasResult, this`result, this`hasReport, this`report
      ensures !threw ==> Value().stored == Storing(kind, old(Value()).stored, o)
    {
      if throwAfter == 0 {
        return true;
      }
      if HasResultOf(kind) {
        hasResult := true;
        if throwAfter == 1 {
          return true;
        }
        result := Some(o);
      } else if HasReportOf(kind) {
        hasReport := true;
        if throwAfter == 1 {
          return true;
        }
        report := Some(o);
      }
      return false;
    }

    method SetBits(o: Outcome, throwAfter: nat) returns (threw: bool)
      modifies this`succeeded, this`paused, this`canceled
      ensures !threw ==> Value().bits == BitsOf(kind, o)
      ensures PartlySet(old(Value()).bits, Value().bits, BitsOf(kind, o))
    {
      hide Contains;
      succeeded := o.ok;
      if throwAfter == 2 {
        return true;
      }
      paused := !succeeded && Contains(JudgedText(kind, o), "operation paused");
      if throwAfter == 3 {
        return true;
      }
      canceled := !succeeded && !paused && Contains(JudgedText(kind, o), "operation canceled");
      threw := throwAfter == 4;
    }

    method OnException(what: string)
      modifies this`succeeded, this`canceled, this`paused, this`moduleStatus, this`message
      ensures Value() == Failed(old(Value()), what)
      ensures !succeeded && !canceled && !paused && moduleStatus == "failed" && message == what
    {
      succeeded := false;
      canceled := false;
      paused := false;
      moduleStatus := "failed";
      message := what;
    }

    method Finish()
      modifies this`finished
      ensures Value() == old(Value()).(finished := true)
    {
      finished := true;
    }

    method SetCancelRequested(requested: bool)
      modifies this`cancelRequested
      ensures Value() == old(Value()).(cancelRequested := requested)
    {
      cancelRequested := requested;
    }

    method SetPauseRequested(requested: bool)
      modifies this`pauseRequested
      ensures Value() == old(Value()).(pauseRequested := requested)
    {
      pauseRequested := requested;
    }

    method ShowPause()
      modifies this`moduleStatus, this`phase, this`message
      ensures Value() == PauseShown(old(Value()))
      ensures moduleStatus == "pausing" && phase == "Pause requested"
      ensures message == if old(message) == "" then "Pause requested..." else old(message)
    {
      moduleStatus := "pausing";
      phase := "Pause requested";
      if message == "" {
        message := "Pause requested...";
      }
    }

    method ShowCancel()
      modifies this`moduleStatus, this`phase, this`message
      ensures Value() == CancelShown(old(Value()))
      ensures moduleStatus == "canceled" && phase == "Cancel requested"
      ensures message == if old(message) == "" then "Cancel requested..." else old(message)
    {
      moduleStatus := "canceled";
      phase := "Cancel requested";
      if message == "" {
        message := "Cancel requested...";
      }
    }

    method Poll() returns (snapshot: Snapshot)
      ensures snapshot == Observed(Value())
      ensures snapshot.active == !finished && snapshot.task == Value()
    {
      snapshot := Snapshot(!finished, Value());
    }
  }
}
