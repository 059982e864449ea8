/** The registry of background tasks, and what holds in every run of workers and controllers that interleave
    their atomic steps (src/ffi/steam_cloud.cpp and src/ffi/steam_depot.cpp). */
module TaskRegistry {
  import opened Basics
  import opened BackgroundTask

  const HANDLES: int := 0x1_0000_0000_0000_0000

  type Handle = n: nat | n < HANDLES

  /** The handle of the start with the given number, counted from zero. */
  function HandleOf(start: nat): Handle { (start + 1) % HANDLES }

  /** Starts less than 2^64 apart get different handles; 2^64 starts later the handle comes again. */
  lemma HandlesDiffer(start: nat, other: nat)
    requires start < other < start + HANDLES
    ensures HandleOf(start) != HandleOf(other) && HandleOf(start + HANDLES) == HandleOf(start)
  {
    var a, b := start + 1, other + 1;
    var q, r := a / HANDLES, a % HANDLES;
    assert a == q * HANDLES + r;
    if r + (b - a) < HANDLES {
      QuotientIs(b, HANDLES, q, r + (b - a));
    } else {
      QuotientIs(b, HANDLES, q + 1, r + (b - a) - HANDLES);
    }
    QuotientIs(a + HANDLES, HANDLES, q + 1, r);
  }

  class Registry {
    var nextHandle: Handle
    var tasks: map<Handle, BackgroundTask>

    constructor ()
      ensures nextHandle == HandleOf(0) && tasks == map[]
    {
      nextHandle, tasks := 1, map[];
    }

    /** The atomic fetch_add: it wraps around. */
    method TakeHandle(ghost starts: nat) returns (handle: Handle)
      requires nextHandle == HandleOf(starts)
      modifies this`nextHandle
      ensures handle == HandleOf(starts) && nextHandle == HandleOf(starts + 1)
    {
      handle := nextHandle;
      nextHandle := (nextHandle + 1) % HANDLES;
    }

    /** A handle that is in use keeps its task. */
    method Register(handle: Handle, task: BackgroundTask)
      modifies this`tasks
      ensures tasks == if handle in old(tasks) then old(tasks) else old(tasks)[handle := task]
    {
      if handle !in tasks {
        tasks := tasks[handle := task];
      }
    }

    method Find(handle: Handle) returns (task: BackgroundTask?)
      ensures task == if handle in tasks then tasks[handle] else null
    {
      task := if handle in tasks then tasks[handle] else null;
    }

    method Dispose(handle: Handle)
      modifies this`tasks
      ensures tasks == old(tasks) - {handle}
    {
      tasks := tasks - {handle};
    }
  }

  // ---------------------------------------------------------------- Interleaved runs

  /** Where a worker is: in its operation or final section, out of it by an exception, past both, at its end. */
  datatype Stage = Working | Thrown | Leaving | Ended

  /** A controller that has found a task, and the atomic steps that it has done on it since. */
  datatype Control =
    | Polling(start: nat, handle: Handle)
    | Pausing(start: nat, done: nat)
    | Canceling(start: nat, done: nat)

  /** What a poll has shown for a handle, and of which start the task was. */
  datatype Observation = Observation(handle: Handle, start: nat, shown: Snapshot)

  /** Tasks are known by the number of their start. */
  datatype System = System(starts: nat, unregistered: set<nat>, registry: map<Handle, nat>, tasks: map<nat, Task>,
                           stages: map<nat, Stage>, controls: map<nat, Control>, observations: seq<Observation>)

  const INITIAL := System(0, {}, map[], map[], map[], map[], [])

  datatype Want = Poll | Pause | Cancel

  datatype Action =
    | TakeHandle
    | Register(start: nat, kind: Kind)
    | Progress(start: nat, moduleStatus: string, phase: string, target: string, progress: TransferProgress)
    | Decide(start: nat, outcome: Outcome)
    | ThrowInDecision(start: nat, outcome: Outcome, left: Task)
    | Throw(start: nat)
    | HandleException(start: nat, what: string)
    | Finish(start: nat)
    | Find(controller: nat, handle: Handle, want: Want)
    | Step(controller: nat)
    | Dispose(handle: Handle)

  function WithTask(s: System, start: nat, task: Task, stage: Stage): System {
    s.(tasks := s.tasks[start := task], stages := s.stages[start := stage])
  }

  predicate At(s: System, start: nat, stage: Stage) {
    start in s.tasks && start in s.stages && s.stages[start] == stage
  }

  /** A worker's step, as long as it is at the stage that the step belongs to. */
  ghost function WorkerStep(s: System, a: Action): System {
    match a
    case Progress(start, moduleStatus, phase, target, progress) =>
      if At(s, start, Working)
      then WithTask(s, start, Progressed(s.tasks[start], moduleStatus, phase, target, progress), Working)
      else s
    case Decide(start, outcome) =>
      if At(s, start, Working) then WithTask(s, start, Decided(s.tasks[start], outcome), Leaving) else s
    case ThrowInDecision(start, outcome, left) =>
      if At(s, start, Working) && PartlyDecided(s.tasks[start], outcome, left) then WithTask(s, start, left, Thrown)
      else s
    case Throw(start) =>
      if At(s, start, Working) then WithTask(s, start, s.tasks[start], Thrown) else s
    case HandleException(start, what) =>
      if At(s, start, Thrown) then WithTask(s, start, Failed(s.tasks[start], what), Leaving) else s
    case Finish(start) =>
      if At(s, start, Leaving) then WithTask(s, start, s.tasks[start].(finished := true), Ended) else s
    case _ => s
  }

  /** The next atomic step of a controller on the task that it has found; the last one ends it. */
  function ControlStep(s: System, controller: nat): System {
    if controller !in s.controls || s.controls[controller].start !in s.tasks then s
    else
      var control := s.controls[controller];
      var task := s.tasks[control.start];
      var ended := s.controls - {controller};
      match control
      case Polling(start, handle) =>
        s.(controls := ended, observations := s.observations + [Observation(handle, start, Observed(task))])
      case Pausing(start, done) =>
        if done == 0 then
          s.(tasks := s.tasks[start := task.(cancelRequested := false)],
             controls := s.controls[controller := Pausing(start, 1)])
        else if done == 1 then
          s.(tasks := s.tasks[start := task.(pauseRequested := true)],
             controls := s.controls[controller := Pausing(start, 2)])
        else s.(tasks := s.tasks[start := PauseShown(task)], controls := ended)
      case Canceling(start, done) =>
        if done == 0 then
          s.(tasks := s.tasks[start := task.(cancelRequested := true)],
             controls := s.controls[controller := Canceling(start, 1)])
        else if done == 1 then
          s.(tasks := s.tasks[start := task.(pauseRequested := false)],
             controls := s.controls[controller := Canceling(start, 2)])
        else s.(tasks := s.tasks[start := CancelShown(task)], controls := ended)
  }

  function Found(start: nat, handle: Handle, want: Want): Control {
    match want
    case Poll => Polling(start, handle)
    case Pause => Pausing(start, 0)
    case Cancel => Canceling(start, 0)
  }

  /** One atomic step; a step that cannot be taken changes nothing. */
  ghost function Next(s: System, a: Action): System {
    match a
    case TakeHandle => s.(starts := s.starts + 1, unregistered := s.unregistered + {s.starts})
    case Register(start, kind) =>
      if start !in s.unregistered then s
      else
        WithTask(s, start, NewTask(kind), Working)
          .(unregistered := s.unregistered - {start},
            registry := if HandleOf(start) in s.registry then s.registry else s.registry[HandleOf(start) := start])
    case Find(controller, handle, want) =>
      if controller in s.controls || handle !in s.registry then s
      else s.(controls := s.controls[controller := Found(s.registry[handle], handle, want)])
    case Step(controller) => ControlStep(s, controller)
    case Dispose(handle) => s.(registry := s.registry - {handle})
    case _ => WorkerStep(s, a)
  }

  ghost function Run(s: System, actions: seq<Action>): System {
    if actions == [] then s else Next(Run(s, actions[..|actions| - 1]), actions[|actions| - 1])
  }

  // ---------------------------------------------------------------- The invariant

  predicate AtMostOne(bits: Bits) {
    !(bits.succeeded && bits.canceled) && !(bits.succeeded && bits.paused) && !(bits.canceled && bits.paused)
  }

  /** If a bit is set, the bits are those of the outcome that is stored, where one is. */
  predicate Explained(t: Task) {
    t.bits != NO_BITS ==>
      (HasResultOf(t.kind) ==>
       t.stored.hasResult && t.stored.result.Some? && t.bits == BitsOf(t.kind, t.stored.result.value))
      && (HasReportOf(t.kind) ==>
          t.stored.hasReport && t.stored.report.Some? && t.bits == BitsOf(t.kind, t.stored.report.value))
  }

  predicate TaskHolds(t: Task, stage: Stage) {
    (t.finished <==> stage == Ended) && AtMostOne(t.bits)
    && (stage == Working ==> t.bits == NO_BITS)
    && (stage == Leaving || stage == Ended ==> Explained(t))
  }

  /** What stays of a finished task: all but its flags, its status and phase, and a message only if there is one. */
  predicate Settled(earlier: Task, later: Task) {
    later.kind == earlier.kind && later.bits == earlier.bits && later.stored == earlier.stored
    && later.progress == earlier.progress && later.texts.target == earlier.texts.target
    && (earlier.texts.message != "" ==> later.texts.message == earlier.texts.message)
  }

  predicate StartsHold(s: System) {
    (forall n :: n in s.unregistered ==> n < s.starts && n !in s.tasks)
    && (forall n :: n in s.tasks ==> n < s.starts && n in s.stages)
  }

  predicate RegistryHolds(s: System) {
    forall handle :: handle in s.registry ==> s.registry[handle] in s.tasks && HandleOf(s.registry[handle]) == handle
  }

  predicate TasksHold(s: System) {
    forall n :: n in s.tasks && n in s.stages ==> TaskHolds(s.tasks[n], s.stages[n])
  }

  predicate ControlsHold(s: System) {
    forall c :: c in s.controls ==>
      s.controls[c].start in s.tasks
          && (s.controls[c].Polling? ==> s.controls[c].handle == HandleOf(s.controls[c].start))
  }

  /** Every observation is of a task that was started under its handle; it shows at most one bit; and if it shows
      the task inactive, the task has ended and is settled since. */
  predicate ObservationHolds(s: System, o: Observation) {
    o.start in s.tasks && o.handle == HandleOf(o.start) && AtMostOne(o.shown.task.bits)
        && o.shown.active == !o.shown.task.finished
    && (!o.shown.active ==>
        s.tasks[o.start].finished && Settled(o.shown.task, s.tasks[o.start]) && Explained(o.shown.task))
  }

  predicate ObservationsHold(s: System) {
    forall i :: 0 <= i < |s.observations| ==> ObservationHolds(s, s.observations[i])
  }

  /** Once a task is shown inactive, later observations of it show the same. */
  predicate ObservationsAgree(observations: seq<Observation>) {
    forall i, j ::
      0 <= i < j < |observations| && observations[i].start == observations[j].start && !observations[i].shown.active ==>
      !observations[j].shown.active && Settled(observations[i].shown.task, observations[j].shown.task)
  }

  predicate Holds(s: System) {
    StartsHold(s) && RegistryHolds(s) && TasksHold(s) && ControlsHold(s) && ObservationsHold(s)
    && ObservationsAgree(s.observations)
  }

  /** A task that is replaced by one that it allows, with everything else the same, keeps the invariant. */
  lemma TaskChangeHolds(s: System, start: nat, task: Task, stage: Stage)
    requires Holds(s) && start in s.tasks && TaskHolds(task, stage)
    requires s.tasks[start].finished ==> task.finished && Settled(s.tasks[start], task)
    ensures Holds(WithTask(s, start, task, stage))
  {
    hide TaskHolds, Settled, Explained, AtMostOne;
    var after := WithTask(s, start, task, stage);
    forall i | 0 <= i < |s.observations| ensures ObservationHolds(after, s.observations[i]) {
      assert ObservationHolds(s, s.observations[i]);
      if s.observations[i].start == start && !s.observations[i].shown.active {
        SettledFurther(s.observations[i].shown.task, s.tasks[start], task);
      }
    }
  }

  lemma SettledFurther(first: Task, second: Task, third: Task)
    requires Settled(first, second) && Settled(second, third)
    ensures Settled(first, third)
  {}

  lemma DecidedHolds(t: Task, o: Outcome, left: Task)
    requires TaskHolds(t, Working)
    ensures TaskHolds(Decided(t, o), Leaving)
    ensures PartlyDecided(t, o, left) ==> TaskHolds(left, Thrown)
  {
    hide Contains, ShownMessage, ShownStatus;
  }

  lemma WorkerStepHolds(s: System, a: Action)
    requires Holds(s)
    ensures Holds(WorkerStep(s, a))
  {
    hide Holds, Explained, PartlyDecided, Decided;
    TaskOfHolds(s);
    match a
    case Progress(start, moduleStatus, phase, target, progress) =>
      if At(s, start, Working) {
        TaskChangeHolds(s, start, Progressed(s.tasks[start], moduleStatus, phase, target, progress), Working);
      }
    case Decide(start, outcome) =>
      if At(s, start, Working) {
        DecidedHolds(s.tasks[start], outcome, s.tasks[start]);
        TaskChangeHolds(s, start, Decided(s.tasks[start], outcome), Leaving);
      }
    case ThrowInDecision(start, outcome, left) =>
      if At(s, start, Working) && PartlyDecided(s.tasks[start], outcome, left) {
        DecidedHolds(s.tasks[start], outcome, left);
        TaskChangeHolds(s, start, left, Thrown);
      }
    case Throw(start) =>
      if At(s, start, Working) {
        TaskChangeHolds(s, start, s.tasks[start], Thrown);
      }
    case HandleException(start, what) =>
      if At(s, start, Thrown) {
        FailedIsExplained(s.tasks[start], what);
        TaskChangeHolds(s, start, Failed(s.tasks[start], what), Leaving);
      }
    case Finish(start) =>
      if At(s, start, Leaving) {
        FinishedIsExplained(s.tasks[start]);
        TaskChangeHolds(s, start, s.tasks[start].(finished := true), Ended);
      }
    case _ =>
  }

  lemma TaskOfHolds(s: System)
    requires Holds(s)
    ensures forall n, stage :: At(s, n, stage) ==> TaskHolds(s.tasks[n], stage)
  {
    hide TaskHolds;
  }

  lemma FailedIsExplained(t: Task, what: string)
    ensures Explained(Failed(t, what))
  {}

  lemma FinishedIsExplained(t: Task)
    ensures Explained(t) ==> Explained(t.(finished := true))
  {}

  /** A controller's step that keeps the stage of its task. */
  function WithControl(s: System, start: nat, task: Task, controls: map<nat, Control>): System {
    s.(tasks := s.tasks[start := task], controls := controls)
  }

  lemma ControlChangeHolds(s: System, start: nat, task: Task, controls: map<nat, Control>)
    requires Holds(s) && start in s.tasks
    requires start in s.stages ==> TaskHolds(task, s.stages[start])
    requires s.tasks[start].finished ==> task.finished && Settled(s.tasks[start], task)
    requires forall c :: c in controls ==>
               controls[c].start in s.tasks
                   && (controls[c].Polling? ==> controls[c].handle == HandleOf(controls[c].start))
    ensures Holds(WithControl(s, start, task, controls))
  {
    hide TaskHolds, Settled, Explained, AtMostOne;
    TaskChangeHolds(s, start, task, s.stages[start]);
    var after := WithTask(s, start, task, s.stages[start]);
    var controlled := WithControl(s, start, task, controls);
    assert forall i :: 0 <= i < |s.observations| ==> ObservationHolds(after, s.observations[i]);
  }

  /** What a controller does to a task concerns only what is not settled. */
  lemma ControlledHolds(t: Task, stage: Stage, flag: bool)
    requires TaskHolds(t, stage)
    ensures TaskHolds(t.(cancelRequested := flag), stage) && Settled(t, t.(cancelRequested := flag))
    ensures TaskHolds(t.(pauseRequested := flag), stage) && Settled(t, t.(pauseRequested := flag))
    ensures TaskHolds(PauseShown(t), stage) && Settled(t, PauseShown(t))
    ensures TaskHolds(CancelShown(t), stage) && Settled(t, CancelShown(t))
  {
    hide IsPaused, IsCanceled;
  }

  lemma PollHolds(s: System, controller: nat)
    requires Holds(s) && controller in s.controls && s.controls[controller].Polling?
    ensures Holds(ControlStep(s, controller))
  {
    hide Settled, Explained, AtMostOne;
    var start, task := s.controls[controller].start, s.tasks[s.controls[controller].start];
    var o := Observation(s.controls[controller].handle, start, Observed(task));
    var after := ControlStep(s, controller);
    assert start in s.stages && TaskHolds(task, s.stages[start]);
    ItselfSettled(task);
    assert ObservationHolds(after, o);
    forall i | 0 <= i < |after.observations| ensures ObservationHolds(after, after.observations[i]) {
      if i < |s.observations| {
        assert ObservationHolds(s, s.observations[i]);
      }
    }
    forall i | 0 <= i < |s.observations| && s.observations[i].start == start && !s.observations[i].shown.active
      ensures !o.shown.active && Settled(s.observations[i].shown.task, o.shown.task)
    {
      assert ObservationHolds(s, s.observations[i]);
    }
  }

  lemma ItselfSettled(t: Task)
    ensures Settled(t, t)
  {}

  lemma ControlStepHolds(s: System, controller: nat)
    requires Holds(s)
    ensures Holds(ControlStep(s, controller))
  {
    if controller in s.controls && s.controls[controller].start in s.tasks {
      var control := s.controls[controller];
      if control.Polling? {
        PollHolds(s, controller);
      } else {
        hide Holds, TaskHolds, Settled, PauseShown, CancelShown;
        PartsHold(s, control.start);
        var task := s.tasks[control.start];
        var ended := s.controls - {controller};
        ControlledHolds(task, s.stages[control.start], true);
        ControlledHolds(task, s.stages[control.start], false);
        if control.Pausing? {
          if control.done == 0 {
            ControlChangeHolds(s, control.start, task.(cancelRequested := false),
                               s.controls[controller := Pausing(control.start, 1)]);
          } else if control.done == 1 {
            ControlChangeHolds(s, control.start, task.(pauseRequested := true),
                               s.controls[controller := Pausing(control.start, 2)]);
          } else {
            ControlChangeHolds(s, control.start, PauseShown(task), ended);
          }
        } else {
          if control.done == 0 {
            ControlChangeHolds(s, control.start, task.(cancelRequested := true),
                               s.controls[controller := Canceling(control.start, 1)]);
          } else if control.done == 1 {
            ControlChangeHolds(s, control.start, task.(pauseRequested := false),
                               s.controls[controller := Canceling(control.start, 2)]);
          } else {
            ControlChangeHolds(s, control.start, CancelShown(task), ended);
          }
        }
      }
    }
  }

  lemma PartsHold(s: System, start: nat)
    requires Holds(s) && start in s.tasks
    ensures start in s.stages && TaskHolds(s.tasks[start], s.stages[start]) && ControlsHold(s)
  {
    hide TaskHolds;
  }

  lemma RegisterHolds(s: System, start: nat, kind: Kind)
    requires Holds(s)
    ensures Holds(Next(s, Action.Register(start, kind)))
  {
    hide Settled, Explained, AtMostOne, TaskHolds, HandleOf, NewTask;
    var after := Next(s, Action.Register(start, kind));
    NewTaskHolds(kind);
    if start in s.unregistered {
      forall i | 0 <= i < |s.observations| ensures ObservationHolds(after, s.observations[i]) {
        assert ObservationHolds(s, s.observations[i]);
      }
    }
  }

  lemma NewTaskHolds(kind: Kind)
    ensures TaskHolds(NewTask(kind), Working)
  {}

  lemma NextHolds(s: System, a: Action)
    requires Holds(s)
    ensures Holds(Next(s, a))
  {
    hide ObservationsHold, ObservationsAgree, TasksHold, WorkerStep, ControlStep;
    match a
    case Register(start, kind) =>
      RegisterHolds(s, start, kind);
    case Step(controller) =>
      ControlStepHolds(s, controller);
    case TakeHandle =>
      SameTasksHold(s, Next(s, a));
    case Find(controller, handle, want) =>
      SameTasksHold(s, Next(s, a));
    case Dispose(handle) =>
      SameTasksHold(s, Next(s, a));
    case _ =>
      WorkerStepHolds(s, a);
  }

  lemma SameTasksHold(s: System, after: System)
    requires Holds(s) && after.tasks == s.tasks && after.stages == s.stages && after.observations == s.observations
    requires StartsHold(after) && RegistryHolds(after) && ControlsHold(after)
    ensures Holds(after)
  {
    hide TaskHolds, Settled, Explained, AtMostOne;
    assert forall i :: 0 <= i < |s.observations| ==> ObservationHolds(s, s.observations[i]);
  }

  /** The invariant holds in every run. */
  lemma {:induction false} RunHolds(actions: seq<Action>)
    ensures Holds(Run(INITIAL, actions))
  {
    hide Next, Holds;
    if actions == [] {
      InitialHolds();
    } else {
      RunHolds(actions[..|actions| - 1]);
      NextHolds(Run(INITIAL, actions[..|actions| - 1]), actions[|actions| - 1]);
    }
  }

  lemma InitialHolds()
    ensures Holds(INITIAL)
  {}

  // ---------------------------------------------------------------- What polls show in every run

  /** No poll ever shows more than one of succeeded, canceled and paused. */
  lemma PollsShowAtMostOne(actions: seq<Action>, i: nat)
    requires i < |Run(INITIAL, actions).observations|
    ensures var bits := Run(INITIAL, actions).observations[i].shown.task.bits;
            !(bits.succeeded && bits.canceled) && !(bits.succeeded && bits.paused) && !(bits.canceled && bits.paused)
  {
    hide Run;
    RunHolds(actions);
    assert ObservationHolds(Run(INITIAL, actions), Run(INITIAL, actions).observations[i]);
  }

  /** Once a poll of a handle shows its task inactive, every later poll of the handle does, with the same outcome
      bits and the same result or report, as long as the two are of starts less than 2^64 apart. */
  lemma InactiveIsFinal(actions: seq<Action>, i: nat, j: nat)
    requires i < j < |Run(INITIAL, actions).observations|
    requires var earlier, later := Run(INITIAL, actions).observations[i], Run(INITIAL, actions).observations[j];
             !earlier.shown.active && later.handle == earlier.handle
             && later.start < earlier.start + HANDLES && earlier.start < later.start + HANDLES
    ensures var earlier, later := Run(INITIAL, actions).observations[i], Run(INITIAL, actions).observations[j];
            !later.shown.active && later.start == earlier.start
            && later.shown.task.kind == earlier.shown.task.kind && later.shown.task.bits == earlier.shown.task.bits
            && later.shown.task.stored == earlier.shown.task.stored
            && later.shown.task.progress == earlier.shown.task.progress
            && later.shown.task.texts.target == earlier.shown.task.texts.target
            && (earlier.shown.task.texts.message != "" ==>
                  later.shown.task.texts.message == earlier.shown.task.texts.message)
  {
    hide Run, HandleOf;
    RunHolds(actions);
    var s := Run(INITIAL, actions);
    var earlier, later := s.observations[i], s.observations[j];
    assert ObservationHolds(s, earlier) && ObservationHolds(s, later);
    if earlier.start < later.start {
      HandlesDiffer(earlier.start, later.start);
    } else if later.start < earlier.start {
      HandlesDiffer(later.start, earlier.start);
    }
  }

  /** The bits that a poll shows for an ended transfer or verification are those of the result or report that it
      shows, and for a failure by an exception there are none. */
  lemma FinalBitsAreExplained(actions: seq<Action>, i: nat)
    requires i < |Run(INITIAL, actions).observations| && !Run(INITIAL, actions).observations[i].shown.active
    ensures var shown := Run(INITIAL, actions).observations[i].shown.task;
            shown.bits != NO_BITS && HasResultOf(shown.kind) ==>
              shown.stored.result.Some? && shown.bits == BitsOf(shown.kind, shown.stored.result.value)
    ensures var shown := Run(INITIAL, actions).observations[i].shown.task;
            shown.bits != NO_BITS && HasReportOf(shown.kind) ==>
              shown.stored.report.Some? && shown.bits == BitsOf(shown.kind, shown.stored.report.value)
  {
    hide Run, BitsOf;
    RunHolds(actions);
    assert ObservationHolds(Run(INITIAL, actions), Run(INITIAL, actions).observations[i]);
  }

  /** The first start gets the handle 1, and each later one the next of the 2^64 handles. */
  lemma HandlesCount(start: nat)
    ensures HandleOf(0) == 1
    ensures HandleOf(start + 1) == if HandleOf(start) == 0xFFFF_FFFF_FFFF_FFFF then 0 else HandleOf(start) + 1
  {}

  /** As long as it is not disposed of, a handle stays with the task that was registered under it first. */
  lemma {:induction false} RegisteredStays(s: System, actions: seq<Action>, handle: Handle)
    requires handle in s.registry && forall i :: 0 <= i < |actions| ==> actions[i] != Dispose(handle)
    ensures handle in Run(s, actions).registry && Run(s, actions).registry[handle] == s.registry[handle]
  {
    if actions != [] {
      var n := |actions| - 1;
      RegisteredStays(s, actions[..n], handle);
      RegistryKeeps(Run(s, actions[..n]), actions[n], handle);
    }
  }

  lemma RegistryKeeps(s: System, a: Action, handle: Handle)
    requires handle in s.registry && a != Dispose(handle)
    ensures handle in Next(s, a).registry && Next(s, a).registry[handle] == s.registry[handle]
  {
    hide HandleOf, NewTask, Decided, Progressed, Failed, PauseShown, CancelShown, PartlyDecided;
  }

  lemma StartsGrow(s: System, a: Action)
    ensures Next(s, a).starts >= s.starts
    ensures forall n :: n in s.tasks ==> n in Next(s, a).tasks
    ensures forall handle :: handle in Next(s, a).registry ==>
              handle in s.registry || (a.Register? && a.start in s.unregistered && handle == HandleOf(a.start))
  {
    hide HandleOf, NewTask, Decided, Progressed, Failed, PauseShown, CancelShown, PartlyDecided;
  }

  /** Of the starts that have not been registered yet, none is 2^64 or more after the given one, nor 2^64 or more
      before it. */
  predicate StartsNear(s: System, start: nat) {
    s.starts <= start + HANDLES && forall n :: n in s.unregistered ==> start < n + HANDLES
  }

  /** A handle whose task has been registered and disposed of stays invalid for all that follows, until 2^64 more
      starts; nothing is found under it.  Only a start that is 2^64 older, and still not registered, could bring
      the handle back. */
  lemma {:induction false} DisposedStaysInvalid(s: System, start: nat, actions: seq<Action>)
    requires Holds(s) && start in s.tasks && HandleOf(start) !in s.registry
    requires StartsNear(s, start) && Run(s, actions).starts <= start + HANDLES
    ensures Holds(Run(s, actions)) && start in Run(s, actions).tasks && HandleOf(start) !in Run(s, actions).registry
    ensures StartsNear(Run(s, actions), start)
    ensures forall controller, want ::
              Next(Run(s, actions), Find(controller, HandleOf(start), want)) == Run(s, actions)
  {
    hide HandleOf, Holds, WorkerStep, ControlStep;
    if actions != [] {
      var before, a := Run(s, actions[..|actions| - 1]), actions[|actions| - 1];
      assert Run(s, actions) == Next(before, a);
      StartsGrow(before, a);
      DisposedStaysInvalid(s, start, actions[..|actions| - 1]);
      StillNear(before, start, a);
      NextHolds(before, a);
      if a.Register? && a.start in before.unregistered {
        UnregisteredIsOther(before, a.start, start);
      }
    }
  }

  lemma StillNear(s: System, start: nat, a: Action)
    requires Holds(s) && start in s.tasks && StartsNear(s, start) && Next(s, a).starts <= start + HANDLES
    ensures StartsNear(Next(s, a), start)
  {
    hide HandleOf, WorkerStep, ControlStep, ObservationsHold, ObservationsAgree, TasksHold;
    UnregisteredAfter(s, a);
  }

  lemma UnregisteredAfter(s: System, a: Action)
    ensures forall n :: n in Next(s, a).unregistered ==> n in s.unregistered || n == s.starts
  {
    hide HandleOf, NewTask, Decided, Progressed, Failed, PauseShown, CancelShown, PartlyDecided;
  }

  lemma UnregisteredIsOther(s: System, unregistered: nat, start: nat)
    requires Holds(s) && unregistered in s.unregistered && start in s.tasks && StartsNear(s, start)
    ensures HandleOf(unregistered) != HandleOf(start)
  {
    hide HandleOf;
    if unregistered < start {
      HandlesDiffer(unregistered, start);
    } else {
      HandlesDiffer(start, unregistered);
    }
  }

  // ---------------------------------------------------------------- Requests

  predicate IsRequest(control: Control) { control.Pausing? || control.Canceling? }

  function WantOf(control: Control): Want
    requires IsRequest(control)
  {
    if control.Pausing? then Pause else Cancel
  }

  /** The action is a step of a request on the task: its first store, to the cancellation flag (0), its second
      store, to the pause flag (1), or the section that shows it (2). */
  predicate IsMark(s: System, a: Action, start: nat, step: nat) {
    a.Step? && a.controller in s.controls && s.controls[a.controller].start == start && start in s.tasks
    && IsRequest(s.controls[a.controller])
    && (if step < 2 then s.controls[a.controller].done == step else s.controls[a.controller].done >= 2)
  }

  /** The requests that have made the step on the task in a run, in their order. */
  ghost function Marks(s: System, actions: seq<Action>, start: nat, step: nat): seq<Want> {
    if actions == [] then []
    else
      var before, a := Run(s, actions[..|actions| - 1]), actions[|actions| - 1];
      Marks(s, actions[..|actions| - 1], start, step)
      + if IsMark(before, a, start, step) then [WantOf(before.controls[a.controller])] else []
  }

  /** What is not a controller's step leaves the flags of a task alone. */
  lemma OthersKeepFlags(s: System, a: Action, start: nat)
    requires StartsHold(s) && start in s.tasks && !a.Step?
    ensures start in Next(s, a).tasks
    ensures Next(s, a).tasks[start].cancelRequested == s.tasks[start].cancelRequested
    ensures Next(s, a).tasks[start].pauseRequested == s.tasks[start].pauseRequested
  {
    hide HandleOf, NewTask, ShownStatus, ShownMessage, BitsOf, PartlySet, Storing;
  }

  /** One action: the flags change by the stores on the task alone. */
  lemma FlagsFollowStore(s: System, a: Action, start: nat)
    requires Holds(s) && start in s.tasks
    ensures start in Next(s, a).tasks
    ensures Next(s, a).tasks[start].cancelRequested
         == if IsMark(s, a, start, 0) then WantOf(s.controls[a.controller]) == Cancel
            else s.tasks[start].cancelRequested
    ensures Next(s, a).tasks[start].pauseRequested
         == if IsMark(s, a, start, 1) then WantOf(s.controls[a.controller]) == Pause else s.tasks[start].pauseRequested
  {
    hide Next;
    if a.Step? {
      StepIsControl(s, a.controller);
      StepMovesFlags(s, a.controller, start);
    } else {
      OthersKeepFlags(s, a, start);
    }
  }

  lemma StepIsControl(s: System, controller: nat)
    ensures Next(s, Step(controller)) == ControlStep(s, controller)
  {}

  lemma StepMovesFlags(s: System, controller: nat, start: nat)
    requires start in s.tasks
    ensures start in ControlStep(s, controller).tasks
    ensures ControlStep(s, controller).tasks[start].cancelRequested
         == if IsMark(s, Step(controller), start, 0) then WantOf(s.controls[controller]) == Cancel
            else s.tasks[start].cancelRequested
    ensures ControlStep(s, controller).tasks[start].pauseRequested
         == if IsMark(s, Step(controller), start, 1) then WantOf(s.controls[controller]) == Pause
            else s.tasks[start].pauseRequested
  {
    hide PauseShown, CancelShown;
    if controller in s.controls {
      ShowingKeepsFlags(s.tasks[start]);
    }
  }

  lemma ShowingKeepsFlags(t: Task)
    ensures PauseShown(t) == t.(texts := PauseShown(t).texts) && CancelShown(t) == t.(texts := CancelShown(t).texts)
  {}

  /** Along every run from any state the flags are those of the last first store and of the last second store; with
      no such store a flag stays. */
  lemma {:induction false} FlagsFollowStores(s: System, actions: seq<Action>, start: nat)
    requires Holds(s) && start in s.tasks
    ensures Holds(Run(s, actions)) && start in Run(s, actions).tasks
    ensures Run(s, actions).tasks[start].cancelRequested
         == var stores := Marks(s, actions, start, 0);
            if stores == [] then s.tasks[start].cancelRequested else stores[|stores| - 1] == Cancel
    ensures Run(s, actions).tasks[start].pauseRequested
         == var stores := Marks(s, actions, start, 1);
            if stores == [] then s.tasks[start].pauseRequested else stores[|stores| - 1] == Pause
  {
    hide Holds, Next, IsMark;
    if actions != [] {
      var before, a := Run(s, actions[..|actions| - 1]), actions[|actions| - 1];
      FlagsFollowStores(s, actions[..|actions| - 1], start);
      FlagsFollowStore(before, a, start);
      NextHolds(before, a);
    }
  }

  lemma {:induction false} MarksNeedTask(actions: seq<Action>, start: nat, step: nat)
    ensures start !in Run(INITIAL, actions).tasks ==> Marks(INITIAL, actions, start, step) == []
  {
    hide Next, IsMark;
    if actions != [] {
      var before, a := Run(INITIAL, actions[..|actions| - 1]), actions[|actions| - 1];
      MarksNeedTask(actions[..|actions| - 1], start, step);
      StartsGrow(before, a);
      MarkNeedsTask(before, a, start, step);
    }
  }

  lemma MarkNeedsTask(s: System, a: Action, start: nat, step: nat)
    ensures IsMark(s, a, start, step) ==> start in s.tasks
  {}

  lemma {:induction false} MarksAreRequests(s: System, actions: seq<Action>, start: nat, step: nat)
    ensures forall want :: want in Marks(s, actions, start, step) ==> want == Pause || want == Cancel
  {
    hide Next, Run;
    if actions != [] {
      MarksAreRequests(s, actions[..|actions| - 1], start, step);
    }
  }

  lemma BeginsWithoutFlags(s: System, a: Action, start: nat)
    requires start !in s.tasks && start in Next(s, a).tasks
    ensures !Next(s, a).tasks[start].cancelRequested && !Next(s, a).tasks[start].pauseRequested
  {
    hide HandleOf, Decided, Progressed, Failed, PauseShown, CancelShown, PartlyDecided;
  }

  /** In every run, the flags of a task say which request has made the last store to each of them; so when both have
      been stored to, exactly one of them is set exactly if the last stores to the two are by requests of one kind. */
  lemma {:induction false} FlagsAreLastStores(actions: seq<Action>, start: nat)
    requires start in Run(INITIAL, actions).tasks
    ensures var task := Run(INITIAL, actions).tasks[start];
            var first, second := Marks(INITIAL, actions, start, 0), Marks(INITIAL, actions, start, 1);
            (task.cancelRequested <==> first != [] && first[|first| - 1] == Cancel)
            && (task.pauseRequested <==> second != [] && second[|second| - 1] == Pause)
            && (first != [] && second != [] ==>
                  (task.cancelRequested != task.pauseRequested <==> first[|first| - 1] == second[|second| - 1]))
  {
    hide Next, IsMark, Holds;
    var before, a := Run(INITIAL, actions[..|actions| - 1]), actions[|actions| - 1];
    RunHolds(actions[..|actions| - 1]);
    if start in before.tasks {
      FlagsAreLastStores(actions[..|actions| - 1], start);
      FlagsFollowStore(before, a, start);
    } else {
      MarksNeedTask(actions[..|actions| - 1], start, 0);
      MarksNeedTask(actions[..|actions| - 1], start, 1);
      MarkNeedsTask(before, a, start, 0);
      MarkNeedsTask(before, a, start, 1);
      BeginsWithoutFlags(before, a, start);
    }
    MarksAreRequests(INITIAL, actions, start, 0);
    MarksAreRequests(INITIAL, actions, start, 1);
    var first, second := Marks(INITIAL, actions, start, 0), Marks(INITIAL, actions, start, 1);
    assert first != [] && second != [] ==> first[|first| - 1] in first && second[|second| - 1] in second;
  }

  /** A request stays between its two stores until its own next step. */
  lemma {:induction false} ControlStays(s: System, actions: seq<Action>, controller: nat)
    requires Holds(s) && controller in s.controls && IsRequest(s.controls[controller])
    requires s.controls[controller].done == 1 && Marks(s, actions, s.controls[controller].start, 1) == []
    ensures Holds(Run(s, actions)) && controller in Run(s, actions).controls
    ensures Run(s, actions).controls[controller] == s.controls[controller]
  {
    hide Next, IsMark, Holds;
    if actions != [] {
      var before, a := Run(s, actions[..|actions| - 1]), actions[|actions| - 1];
      ControlStays(s, actions[..|actions| - 1], controller);
      ControlStaysOnce(before, a, controller);
      NextHolds(before, a);
    }
  }

  lemma ControlStaysOnce(s: System, a: Action, controller: nat)
    requires Holds(s) && controller in s.controls && IsRequest(s.controls[controller])
    requires s.controls[controller].done == 1 && !IsMark(s, a, s.controls[controller].start, 1)
    ensures controller in Next(s, a).controls && Next(s, a).controls[controller] == s.controls[controller]
  {
    hide HandleOf, ObservationsHold, ObservationsAgree, TasksHold, RegistryHolds, NewTask, Decided, Progressed, Failed,
         PauseShown, CancelShown, PartlyDecided;
  }

  /** A request between whose two stores no other request stores to a flag of the task leaves exactly its own flag
      set, whatever else runs in between and whatever the flags were before. */
  lemma UndisturbedRequest(s: System, between: seq<Action>, controller: nat)
    requires Holds(s) && controller in s.controls && IsRequest(s.controls[controller])
    requires s.controls[controller].done == 0
    requires var first := Next(s, Step(controller));
             Marks(first, between, s.controls[controller].start, 0) == []
             && Marks(first, between, s.controls[controller].start, 1) == []
    ensures var last := Next(Run(Next(s, Step(controller)), between), Step(controller));
            var want := WantOf(s.controls[controller]);
            s.controls[controller].start in last.tasks
            && last.tasks[s.controls[controller].start].cancelRequested == (want == Cancel)
            && last.tasks[s.controls[controller].start].pauseRequested == (want == Pause)
  {
    var control := s.controls[controller];
    var first := Next(s, Step(controller));
    ControlOfTask(s, controller);
    NextHolds(s, Step(controller));
    FlagsFollowStore(s, Step(controller), control.start);
    FirstStoreDone(s, controller);
    hide Next, Holds, Marks, Run;
    FlagsFollowStores(first, between, control.start);
    ControlStays(first, between, controller);
    FlagsFollowStore(Run(first, between), Step(controller), control.start);
  }

  lemma ControlOfTask(s: System, controller: nat)
    requires Holds(s) && controller in s.controls
    ensures s.controls[controller].start in s.tasks
  {
    hide ObservationsHold, ObservationsAgree, TasksHold, RegistryHolds;
  }

  lemma FirstStoreDone(s: System, controller: nat)
    requires controller in s.controls && IsRequest(s.controls[controller]) && s.controls[controller].done == 0
    requires s.controls[controller].start in s.tasks
    ensures var control, after := s.controls[controller], Next(s, Step(controller));
            controller in after.controls && IsRequest(after.controls[controller])
            && after.controls[controller].done == 1 && after.controls[controller].start == control.start
            && WantOf(after.controls[controller]) == WantOf(control)
  {}

  function FourSteps(s: System, a: nat, b: nat, c: nat, d: nat): System {
    ControlStep(ControlStep(ControlStep(ControlStep(s, a), b), c), d)
  }

  /** A pause and a cancellation that have found a task and make their four stores without another request on it:
      exactly one flag is set in the end exactly if the request that stores first is not the one that stores last. */
  lemma CrossingRequests(s: System, start: nat, pausing: nat, canceling: nat, a: nat, b: nat, c: nat, d: nat)
    requires start in s.tasks && pausing in s.controls && canceling in s.controls
    requires s.controls[pausing] == Pausing(start, 0) && s.controls[canceling] == Canceling(start, 0)
    requires multiset{a, b, c, d} == multiset{pausing, pausing, canceling, canceling}
    ensures start in FourSteps(s, a, b, c, d).tasks
    ensures var task := FourSteps(s, a, b, c, d).tasks[start];
            task.cancelRequested != task.pauseRequested <==> a != d
  {
    hide ControlStep;
    assert a in multiset{a, b, c, d} && b in multiset{a, b, c, d} && c in multiset{a, b, c, d}
        && d in multiset{a, b, c, d};
    assert multiset{a, b, c, d}[pausing] == 2;
    var s1 := ControlStep(s, a);
    var s2 := ControlStep(s1, b);
    var s3 := ControlStep(s2, c);
    StoreMoves(s, a, start);
    StoreMoves(s1, b, start);
    StoreMoves(s2, c, start);
    StoreMoves(s3, d, start);
  }

  /** One store of a request on a task. */
  lemma StoreMoves(s: System, controller: nat, start: nat)
    requires start in s.tasks && controller in s.controls && s.controls[controller].start == start
    requires IsRequest(s.controls[controller]) && s.controls[controller].done < 2
    ensures var after, control := ControlStep(s, controller), s.controls[controller];
            start in after.tasks && controller in after.controls && IsRequest(after.controls[controller])
            && after.controls == s.controls[controller := after.controls[controller]]
            && after.controls[controller].start == start && after.controls[controller].done == control.done + 1
            && WantOf(after.controls[controller]) == WantOf(control)
            && after.tasks[start].cancelRequested
               == (if control.done == 0 then WantOf(control) == Cancel else s.tasks[start].cancelRequested)
            && after.tasks[start].pauseRequested
               == (if control.done == 1 then WantOf(control) == Pause else s.tasks[start].pauseRequested)
  {}

  // ---------------------------------------------------------------- The texts of an ended task

  function StatusOfRequest(want: Want): string { if want == Pause then "pausing" else "canceled" }

  function PhaseOfRequest(want: Want): string { if want == Pause then "Pause requested" else "Cancel requested" }

  function MessageOfRequest(want: Want): string {
    if want == Pause then "Pause requested..." else "Cancel requested..."
  }

  /** What requests that are shown one after the other make of texts: the last one gives status and phase, and the
      first one the message where there is none. */
  function TextsAfter(texts: Texts, shown: seq<Want>): Texts {
    if shown == [] then texts
    else
      Texts(StatusOfRequest(shown[|shown| - 1]), PhaseOfRequest(shown[|shown| - 1]), texts.target,
            if texts.message == "" then MessageOfRequest(shown[0]) else texts.message)
  }

  lemma TextsAfterOneMore(texts: Texts, shown: seq<Want>, want: Want)
    ensures TextsAfter(texts, shown + [want]) == TextsAfter(TextsAfter(texts, shown), [want])
  {}

  lemma OthersKeepTexts(s: System, a: Action, start: nat)
    requires StartsHold(s) && TasksHold(s) && start in s.tasks && s.tasks[start].finished && !a.Step?
    ensures start in Next(s, a).tasks && Next(s, a).tasks[start] == s.tasks[start]
  {
    hide HandleOf, NewTask, Decided, Progressed, Failed, PauseShown, CancelShown, PartlyDecided, Explained, AtMostOne;
    assert TaskHolds(s.tasks[start], s.stages[start]);
  }

  lemma StepChangesTexts(s: System, controller: nat, start: nat)
    requires start in s.tasks
    ensures start in ControlStep(s, controller).tasks
    ensures ControlStep(s, controller).tasks[start].finished == s.tasks[start].finished
    ensures ControlStep(s, controller).tasks[start].texts
         == if IsMark(s, Step(controller), start, 2)
            then TextsAfter(s.tasks[start].texts, [WantOf(s.controls[controller])])
            else s.tasks[start].texts
  {
    hide PauseShown, CancelShown, TextsAfter;
    if controller in s.controls {
      ShowingIsTextsAfter(s.tasks[start]);
    }
  }

  lemma ShowingIsTextsAfter(t: Task)
    ensures PauseShown(t) == t.(texts := TextsAfter(t.texts, [Pause]))
    ensures CancelShown(t) == t.(texts := TextsAfter(t.texts, [Cancel]))
  {}

  lemma TextsFollowStep(s: System, a: Action, start: nat)
    requires Holds(s) && start in s.tasks && s.tasks[start].finished
    ensures start in Next(s, a).tasks && Next(s, a).tasks[start].finished
    ensures Next(s, a).tasks[start].texts
         == if IsMark(s, a, start, 2) then TextsAfter(s.tasks[start].texts, [WantOf(s.controls[a.controller])])
            else s.tasks[start].texts
  {
    hide Next, TextsAfter;
    if a.Step? {
      StepIsControl(s, a.controller);
      StepChangesTexts(s, a.controller, start);
    } else {
      OthersKeepTexts(s, a, start);
    }
  }

  /** Along every run, the texts of an ended task are what the requests that are shown on it make of them. */
  lemma {:induction false} TextsFollowRequests(s: System, actions: seq<Action>, start: nat)
    requires Holds(s) && start in s.tasks && s.tasks[start].finished
    ensures Holds(Run(s, actions)) && start in Run(s, actions).tasks && Run(s, actions).tasks[start].finished
    ensures Run(s, actions).tasks[start].texts == TextsAfter(s.tasks[start].texts, Marks(s, actions, start, 2))
  {
    hide Holds, Next, TextsAfter;
    if actions == [] {
      NothingShown(s.tasks[start].texts);
    } else {
      var before, a := Run(s, actions[..|actions| - 1]), actions[|actions| - 1];
      var shown := Marks(s, actions[..|actions| - 1], start, 2);
      TextsFollowRequests(s, actions[..|actions| - 1], start);
      TextsFollowStep(before, a, start);
      NextHolds(before, a);
      if IsMark(before, a, start, 2) {
        TextsAfterOneMore(s.tasks[start].texts, shown, WantOf(before.controls[a.controller]));
      } else {
        assert Marks(s, actions, start, 2) == shown + [] == shown;
      }
    }
  }

  lemma NothingShown(texts: Texts)
    ensures TextsAfter(texts, []) == texts
  {}

  /** Two polls of an ended task show the same status exactly if no request on it is shown in between, or the last
      one that is shown has that status already; else the second poll shows the status of that last request.  The
      phase goes with it, and a message that there is stays. */
  lemma StatusStays(s: System, between: seq<Action>, first: nat, second: nat, start: nat, handle: Handle)
    requires Holds(s) && start in s.tasks && s.tasks[start].finished
    requires first in s.controls && s.controls[first] == Polling(start, handle)
    requires var late := Run(Next(s, Step(first)), between);
             second in late.controls && late.controls[second] == Polling(start, handle)
    ensures var polled := Next(s, Step(first));
            var late := Run(polled, between);
            var shown := Marks(polled, between, start, 2);
            start in late.tasks
            && polled.observations == s.observations + [Observation(handle, start, Observed(s.tasks[start]))]
            && Next(late, Step(second)).observations
               == late.observations + [Observation(handle, start, Observed(late.tasks[start]))]
            && !Observed(s.tasks[start]).active && !Observed(late.tasks[start]).active
            && late.tasks[start].texts == TextsAfter(s.tasks[start].texts, shown)
            && (late.tasks[start].texts.moduleStatus == s.tasks[start].texts.moduleStatus <==>
                  shown == [] || s.tasks[start].texts.moduleStatus
                                 == if shown[|shown| - 1] == Pause then "pausing" else "canceled")
            && (shown != [] ==> late.tasks[start].texts.moduleStatus
                                == if shown[|shown| - 1] == Pause then "pausing" else "canceled")
  {
    hide Holds, Next, Run, Marks;
    var polled := Next(s, Step(first));
    PollObserves(s, first, start, handle);
    PollKeepsTasks(s, first);
    NextHolds(s, Step(first));
    TextsFollowRequests(polled, between, start);
    PollObserves(Run(polled, between), second, start, handle);
  }

  lemma PollKeepsTasks(s: System, controller: nat)
    requires controller in s.controls && s.controls[controller].Polling?
    ensures Next(s, Step(controller)).tasks == s.tasks
  {}

  // ---------------------------------------------------------------- What need not be so

  /** A run, and the state that it leads to when it continues another one. */
  lemma RunStep(s: System, actions: seq<Action>, a: Action)
    ensures Run(s, actions + [a]) == Next(Run(s, actions), a)
  {
    assert (actions + [a])[..|actions|] == actions;
  }

  /** A first start, found by a controller that will pause it and by one that will cancel it. */
  const FOUND_TWICE := [TakeHandle] + [Action.Register(0, Pull)] + [Find(0, 1, Pause)] + [Find(1, 1, Cancel)]

  function Alone(task: Task, stage: Stage, controls: map<nat, Control>, observations: seq<Observation>): System {
    System(1, {}, map[1 := 0], map[0 := task], map[0 := stage], controls, observations)
  }

  lemma StartedAlone()
    ensures Run(INITIAL, [TakeHandle] + [Action.Register(0, Pull)]) == Alone(NewTask(Pull), Working, map[], [])
  {
    RunStep(INITIAL, [], TakeHandle);
    assert [] + [TakeHandle] == [TakeHandle];
    RunStep(INITIAL, [TakeHandle], Action.Register(0, Pull));
    assert {0} - {0} == {};
  }

  lemma FoundTwice()
    ensures Run(INITIAL, FOUND_TWICE) == Alone(NewTask(Pull), Working, Controlling(0, 0), [])
  {
    StartedAlone();
    RunStep(INITIAL, [TakeHandle] + [Action.Register(0, Pull)], Find(0, 1, Pause));
    RunStep(INITIAL, [TakeHandle] + [Action.Register(0, Pull)] + [Find(0, 1, Pause)], Find(1, 1, Cancel));
  }

  lemma FourActions(s: System, actions: seq<Action>, a: Action, b: Action, c: Action, d: Action)
    ensures Run(s, actions + [a] + [b] + [c] + [d]) == Next(Next(Next(Next(Run(s, actions), a), b), c), d)
  {
    hide Next;
    RunStep(s, actions, a);
    RunStep(s, actions + [a], b);
    RunStep(s, actions + [a] + [b], c);
    RunStep(s, actions + [a] + [b] + [c], d);
  }

  function Controlling(paused: nat, canceled: nat): map<nat, Control> {
    map[0 := Pausing(0, paused), 1 := Canceling(0, canceled)]
  }

  lemma AloneChanged(t: Task, after: Task, controls: map<nat, Control>, later: map<nat, Control>)
    ensures WithControl(Alone(t, Working, controls, []), 0, after, later) == Alone(after, Working, later, [])
  {
    assert map[0 := t][0 := after] == map[0 := after];
  }

  /** The stores of a pause, and of a cancellation, that have found the task. */
  lemma StorePause(t: Task, canceled: nat)
    ensures Next(Alone(t, Working, Controlling(0, canceled), []), Step(0))
         == Alone(t.(cancelRequested := false), Working, Controlling(1, canceled), [])
    ensures Next(Alone(t, Working, Controlling(1, canceled), []), Step(0))
         == Alone(t.(pauseRequested := true), Working, Controlling(2, canceled), [])
  {
    assert Controlling(0, canceled)[0 := Pausing(0, 1)] == Controlling(1, canceled);
    assert Controlling(1, canceled)[0 := Pausing(0, 2)] == Controlling(2, canceled);
    AloneChanged(t, t.(cancelRequested := false), Controlling(0, canceled), Controlling(1, canceled));
    AloneChanged(t, t.(pauseRequested := true), Controlling(1, canceled), Controlling(2, canceled));
  }

  lemma StoreCancel(t: Task, paused: nat)
    ensures Next(Alone(t, Working, Controlling(paused, 0), []), Step(1))
         == Alone(t.(cancelRequested := true), Working, Controlling(paused, 1), [])
    ensures Next(Alone(t, Working, Controlling(paused, 1), []), Step(1))
         == Alone(t.(pauseRequested := false), Working, Controlling(paused, 2), [])
  {
    assert Controlling(paused, 0)[1 := Canceling(0, 1)] == Controlling(paused, 1);
    assert Controlling(paused, 1)[1 := Canceling(0, 2)] == Controlling(paused, 2);
    AloneChanged(t, t.(cancelRequested := true), Controlling(paused, 0), Controlling(paused, 1));
    AloneChanged(t, t.(pauseRequested := false), Controlling(paused, 1), Controlling(paused, 2));
  }

  /** The two request flags are separate: a pause and a cancellation that cross may leave both set, or neither. */
  lemma CrossedRequests()
    ensures Run(INITIAL, FOUND_TWICE + [Step(0)] + [Step(1)] + [Step(1)] + [Step(0)])
         == Alone(NewTask(Pull).(cancelRequested := true, pauseRequested := true), Working,
                  Controlling(2, 2), [])
    ensures Run(INITIAL, FOUND_TWICE + [Step(1)] + [Step(0)] + [Step(0)] + [Step(1)])
         == Alone(NewTask(Pull).(cancelRequested := false, pauseRequested := false), Working,
                  Controlling(2, 2), [])
  {
    hide Next, Alone, Run;
    var t := NewTask(Pull);
    FoundTwice();
    FourActions(INITIAL, FOUND_TWICE, Step(0), Step(1), Step(1), Step(0));
    StorePause(t, 0);
    StoreCancel(t.(cancelRequested := false), 1);
    StorePause(t.(cancelRequested := true, pauseRequested := false), 2);
    FourActions(INITIAL, FOUND_TWICE, Step(1), Step(0), Step(0), Step(1));
    StoreCancel(t, 0);
    StorePause(t.(cancelRequested := true), 1);
    StorePause(t.(cancelRequested := false), 1);
    StoreCancel(t.(cancelRequested := false, pauseRequested := true), 2);
    assert t.(cancelRequested := false) == t;
    StoreCancel(t.(cancelRequested := true), 1);
  }

  /** What a pause or a cancellation makes of a task in its three steps. */
  function Asked(t: Task, want: Want): Task {
    match want
    case Poll => t
    case Pause => PauseShown(t.(cancelRequested := false, pauseRequested := true))
    case Cancel => CancelShown(t.(cancelRequested := true, pauseRequested := false))
  }

  lemma AskedInThreeSteps(s: System, controller: nat, start: nat, want: Want)
    requires start in s.tasks && want != Poll && controller in s.controls
            && s.controls[controller] == Found(start, 0, want)
    ensures Next(Next(Next(s, Step(controller)), Step(controller)), Step(controller))
         == WithControl(s, start, Asked(s.tasks[start], want), s.controls - {controller})
  {
    hide PauseShown, CancelShown;
    var t := s.tasks[start];
    var first := if want == Pause then t.(cancelRequested := false) else t.(cancelRequested := true);
    var second := if want == Pause then first.(pauseRequested := true) else first.(pauseRequested := false);
    var one := if want == Pause then Pausing(start, 1) else Canceling(start, 1);
    var two := if want == Pause then Pausing(start, 2) else Canceling(start, 2);
    assert Next(s, Step(controller)) == WithControl(s, start, first, s.controls[controller := one]);
    var s1 := WithControl(s, start, first, s.controls[controller := one]);
    assert s1.tasks[start := second] == s.tasks[start := second];
    assert s1.controls[controller := two] == s.controls[controller := two];
    assert Next(s1, Step(controller)) == WithControl(s, start, second, s.controls[controller := two]);
    var s2 := WithControl(s, start, second, s.controls[controller := two]);
    assert s2.tasks[start := Asked(t, want)] == s.tasks[start := Asked(t, want)];
    assert s2.controls - {controller} == s.controls - {controller};
  }

  /** The status is not settled: to ask an ended task to pause makes a later poll show it pausing, and to cancel it
      shows it canceled, whatever it showed before; yet inactive, and with the same bits. */
  lemma StatusIsNotSettled(s: System, handle: Handle, controller: nat, want: Want)
    requires Holds(s) && handle in s.registry && controller !in s.controls && want != Poll
    requires s.tasks[s.registry[handle]].finished
    ensures var asked := Next(Next(Next(Next(s, Find(controller, handle, want)), Step(controller)), Step(controller)),
                              Step(controller));
            var after := Next(Next(asked, Find(controller, handle, Poll)), Step(controller));
            var task := s.tasks[s.registry[handle]];
            after.observations
                == s.observations + [Observation(handle, s.registry[handle], Observed(Asked(task, want)))]
            && Asked(task, want).finished && Asked(task, want).bits == task.bits
            && Asked(task, want).texts.moduleStatus == if want == Pause then "pausing" else "canceled"
  {
    hide Holds, Next;
    RegisteredIsStarted(s, handle);
    var start := s.registry[handle];
    var task := s.tasks[start];
    FindFinds(s, controller, handle, want);
    var found := s.(controls := s.controls[controller := Found(start, handle, want)]);
    AskedInThreeSteps(found, controller, start, want);
    var asked := WithControl(found, start, Asked(task, want), found.controls - {controller});
    FindFinds(asked, controller, handle, Poll);
    PollObserves(asked.(controls := asked.controls[controller := Found(start, handle, Poll)]), controller, start,
                 handle);
  }

  lemma RegisteredIsStarted(s: System, handle: Handle)
    requires Holds(s) && handle in s.registry
    ensures s.registry[handle] in s.tasks
  {}

  lemma FindFinds(s: System, controller: nat, handle: Handle, want: Want)
    requires handle in s.registry && controller !in s.controls
    ensures Next(s, Find(controller, handle, want))
         == s.(controls := s.controls[controller := Found(s.registry[handle], handle, want)])
  {}

  lemma PollObserves(s: System, controller: nat, start: nat, handle: Handle)
    requires controller in s.controls && s.controls[controller] == Polling(start, handle) && start in s.tasks
    ensures Next(s, Step(controller)).observations
            == s.observations + [Observation(handle, start, Observed(s.tasks[start]))]
  {}
}
