/** The objects behind the runs of background tasks: every run of them is one of the runs that TaskRegistry
    speaks about. */
module TaskProgram {
  import opened Basics
  import opened BackgroundTask
  import opened TaskRegistry

  type Tasks = map<nat, BackgroundTask>

  /** A controller holds the task that it has found, even if the registry drops it. */
  datatype Holding = Holding(task: BackgroundTask, control: Control)

  ghost predicate Numbered(starts: nat, pending: map<nat, Handle>, tasks: Tasks, stages: map<nat, Stage>) {
    stages.Keys == tasks.Keys
    && (forall n :: n in pending ==> n < starts && n !in tasks && pending[n] == HandleOf(n))
    && (forall n :: n in tasks ==> n < starts)
  }

  /** No two starts have the same task. */
  ghost predicate Distinct(tasks: Tasks) {
    forall n, m :: n in tasks && m in tasks && n != m ==> tasks[n] != tasks[m]
  }

  /** The registry has the tasks of the starts that own the handles. */
  ghost predicate Owned(owners: map<Handle, nat>, registered: map<Handle, BackgroundTask>, tasks: Tasks) {
    owners.Keys == registered.Keys
    && forall handle :: handle in owners ==> owners[handle] in tasks && registered[handle] == tasks[owners[handle]]
  }

  ghost predicate Held(controls: map<nat, Holding>, tasks: Tasks) {
    forall c :: c in controls ==>
      controls[c].control.start in tasks && controls[c].task == tasks[controls[c].control.start]
  }

  ghost function ControlsOf(controls: map<nat, Holding>): map<nat, Control> {
    map c | c in controls :: controls[c].control
  }

  /** What a controller's step makes of its task, and of the controller itself. */
  function TaskAfter(t: Task, control: Control): Task {
    match control
    case Polling(_, _) => t
    case Pausing(_, done) =>
      if done == 0 then t.(cancelRequested := false) else if done == 1 then t.(pauseRequested := true)
      else PauseShown(t)
    case Canceling(_, done) =>
      if done == 0 then t.(cancelRequested := true) else if done == 1 then t.(pauseRequested := false)
      else CancelShown(t)
  }

  function ControlAfter(control: Control): Option<Control> {
    match control
    case Polling(_, _) => None
    case Pausing(start, done) => if done < 2 then Some(Pausing(start, done + 1)) else None
    case Canceling(start, done) => if done < 2 then Some(Canceling(start, done + 1)) else None
  }

  /** The action that has been taken is the one that was attempted, but that a final section may have ended by an
      exception or not. */
  predicate SameAttempt(a: Action, taken: Action) {
    taken == a
    || ((a.Decide? || a.ThrowInDecision?) && (taken.Decide? || taken.ThrowInDecision?)
        && taken.start == a.start && taken.outcome == a.outcome)
  }

  class Program {
    const registry: Registry

    /** The number of starts so far.  A start has a number, by which its thread and its worker are told apart. */
    var starts: nat

    /** The handles that have been taken and not registered yet. */
    var pending: map<nat, Handle>

    /** Each worker holds its task as long as it runs. */
    var tasks: Tasks
    var stages: map<nat, Stage>
    var controls: map<nat, Holding>
    var observations: seq<Observation>
    var owners: map<Handle, nat>

    ghost predicate Valid()
      reads this, registry
    {
      registry.nextHandle == HandleOf(starts) && Numbered(starts, pending, tasks, stages) && Distinct(tasks)
      && Owned(owners, registry.tasks, tasks) && Held(controls, tasks)
    }

    /** The values of the tasks, by their starts. */
    ghost function Values(): map<nat, Task>
      reads this`tasks, tasks.Values
    {
      map n | n in tasks :: tasks[n].Value()
    }

    ghost function View(): System
      reads this, tasks.Values
    {
      System(starts, pending.Keys, owners, Values(), stages, ControlsOf(controls), observations)
    }

    constructor ()
      ensures Valid() && View() == INITIAL && fresh(registry) && tasks == map[]
    {
      registry := new Registry();
      starts, pending, tasks, stages, controls, observations := 0, map[], map[], map[], map[], [];
      owners := map[];
    }

    method TakeHandle()
      requires Valid()
      modifies this`pending, this`starts, registry`nextHandle
      ensures Valid() && View() == Next(old(View()), Action.TakeHandle)
    {
      hide HandleOf, Next, Distinct, Owned, Held, Values, ControlsOf, Numbered;
      ghost var before := View();
      TakeHandleNext(before);
      TakeHandleKeeps(starts, pending, tasks, stages);
      var handle := registry.TakeHandle(starts);
      pending := pending[starts := handle];
      starts := starts + 1;
      assert pending.Keys == before.unregistered + {before.starts};
    }

    /** The handle goes into the registry and a worker starts, for a start that has its handle. */
    method Register(start: nat, kind: Kind)
      requires Valid()
      modifies this`pending, this`tasks, this`stages, this`owners, registry`tasks
      ensures Valid() && View() == Next(old(View()), Action.Register(start, kind))
      ensures fresh(tasks.Values - old(tasks.Values))
    {
      hide HandleOf, Next, NewTask, Held, ControlsOf, Distinct, Owned, Numbered, Values;
      ghost var before := View();
      RegisterNext(before, start, kind);
      if start !in pending {
        return;
      }
      var task := new BackgroundTask(kind);
      RegisterKeeps(starts, pending, tasks, stages, owners, registry.tasks, controls, start, pending[start], task);
      Enter(start, pending[start], task);
      assert pending.Keys == before.unregistered - {start};
    }

    /** A new task comes to the registry, and is held by its worker. */
    method Enter(start: nat, handle: Handle, task: BackgroundTask)
      modifies this`pending, this`tasks, this`stages, this`owners, registry`tasks
      ensures registry.tasks == old(if handle in registry.tasks then registry.tasks else registry.tasks[handle := task])
      ensures owners == old(if handle in owners then owners else owners[handle := start])
      ensures tasks == old(tasks)[start := task] && stages == old(stages)[start := Working]
      ensures pending == old(pending) - {start} && Values() == old(Values())[start := task.Value()]
      ensures tasks.Values <= old(tasks.Values) + {task}
    {
      hide Values;
      registry.Register(handle, task);
      owners := if handle in owners then owners else owners[handle := start];
      tasks := tasks[start := task];
      stages := stages[start := Working];
      pending := pending - {start};
      OneAdded(start);
    }

    /** Where one task has been added, one value has. */
    twostate lemma OneAdded(start: nat)
      requires start in tasks && tasks == old(tasks)[start := tasks[start]]
      requires forall n :: n in old(tasks) && n != start ==> tasks[n].Value() == old(tasks[n].Value())
      ensures Values() == old(Values())[start := tasks[start].Value()]
      ensures tasks.Values <= old(tasks.Values) + {tasks[start]}
    {}

    /** A worker's progress. */
    method OnProgress(start: nat, moduleStatus: string, phase: string, target: string, progress: TransferProgress)
      requires Valid()
      modifies this`stages, tasks.Values
      ensures Valid() && tasks == old(tasks)
              && View() == Next(old(View()), Progress(start, moduleStatus, phase, target, progress))
    {
      hide Next, Numbered, Distinct, Owned, Held, Values, ControlsOf, Progressed;
      OnProgressNext(View(), start, moduleStatus, phase, target, progress);
      NumberedStage(starts, pending, tasks, stages, start);
      ValueOfTask(start);
      if start in tasks && stages[start] == Working {
        tasks[start].OnProgress(moduleStatus, phase, target, progress);
        stages := stages[start := Working];
        OneChanged(start);
        StageKeeps(starts, pending, tasks, old(stages), start, Working);
      }
    }

    /** An exception ends a worker's operation. */
    method Throw(start: nat)
      requires Valid()
      modifies this`stages
      ensures Valid() && tasks == old(tasks) && View() == Next(old(View()), Action.Throw(start))
    {
      hide Next, Numbered, Distinct, Owned, Held, Values, ControlsOf;
      ThrowNext(View(), start);
      NumberedStage(starts, pending, tasks, stages, start);
      ValueOfTask(start);
      if start in tasks && stages[start] == Working {
        stages := stages[start := Thrown];
        OneChanged(start);
        StageKeeps(starts, pending, tasks, old(stages), start, Thrown);
      }
    }

    /** The handler of the exception. */
    method OnException(start: nat, what: string)
      requires Valid()
      modifies this`stages, tasks.Values
      ensures Valid() && tasks == old(tasks) && View() == Next(old(View()), HandleException(start, what))
    {
      hide Next, Numbered, Distinct, Owned, Held, Values, ControlsOf, Failed;
      OnExceptionNext(View(), start, what);
      NumberedStage(starts, pending, tasks, stages, start);
      ValueOfTask(start);
      if start in tasks && stages[start] == Thrown {
        tasks[start].OnException(what);
        stages := stages[start := Leaving];
        OneChanged(start);
        StageKeeps(starts, pending, tasks, old(stages), start, Leaving);
      }
    }

    /** The last step of a worker. */
    method Finish(start: nat)
      requires Valid()
      modifies this`stages, tasks.Values
      ensures Valid() && tasks == old(tasks) && View() == Next(old(View()), Action.Finish(start))
    {
      hide Next, Numbered, Distinct, Owned, Held, Values, ControlsOf;
      FinishNext(View(), start);
      NumberedStage(starts, pending, tasks, stages, start);
      ValueOfTask(start);
      if start in tasks && stages[start] == Leaving {
        tasks[start].Finish();
        stages := stages[start := Ended];
        OneChanged(start);
        StageKeeps(starts, pending, tasks, old(stages), start, Ended);
      }
    }

    /** The final section of a worker, which an exception may end after any of its steps: what it has left by then
        is part of the action that has been taken. */
    method Decide(start: nat, outcome: Outcome, throwAfter: nat) returns (ghost taken: Action)
      requires Valid()
      modifies this`stages, tasks.Values
      ensures Valid() && tasks == old(tasks) && View() == Next(old(View()), taken)
      ensures taken == Action.Decide(start, outcome)
              || (taken.ThrowInDecision? && taken.start == start && taken.outcome == outcome)
    {
      hide Next, Numbered, Distinct, Owned, Held, Values, ControlsOf, Decided, PartlyDecided;
      taken := Action.Decide(start, outcome);
      DecideNext(View(), start, outcome);
      NumberedStage(starts, pending, tasks, stages, start);
      ValueOfTask(start);
      if start in tasks && stages[start] == Working {
        var threw := tasks[start].Decide(outcome, throwAfter);
        if threw {
          taken := ThrowInDecision(start, outcome, tasks[start].Value());
          ThrowInDecisionNext(old(View()), start, outcome, tasks[start].Value());
        }
        stages := stages[start := if threw then Thrown else Leaving];
        OneChanged(start);
        StageKeeps(starts, pending, tasks, old(stages), start, if threw then Thrown else Leaving);
      }
    }

    /** A controller finds the task of a handle, and holds it. */
    method Find(controller: nat, handle: Handle, want: Want)
      requires Valid()
      modifies this`controls
      ensures Valid() && View() == Next(old(View()), Action.Find(controller, handle, want))
    {
      hide HandleOf, Next, Numbered, Distinct, Values, ControlsOf, Held;
      FindNext(View(), controller, handle, want);
      ControlOf(controls, controller);
      if controller !in controls {
        var task := registry.Find(handle);
        if task != null {
          FindKeeps(controls, tasks, controller, task, Found(owners[handle], handle, want));
          controls := controls[controller := Holding(task, Found(owners[handle], handle, want))];
        }
      }
    }

    /** The next atomic step of a controller on the task that it holds. */
    method Step(controller: nat)
      requires Valid()
      modifies this`controls, this`observations, tasks.Values
      ensures Valid() && tasks == old(tasks) && View() == Next(old(View()), Action.Step(controller))
    {
      hide Next, Numbered, Distinct, Owned, Held, Values, ControlsOf, ControlStep, TaskAfter, ControlAfter;
      StepIsControl(View(), controller);
      ControlOf(controls, controller);
      if controller !in controls {
        NoControl(View(), controller);
        return;
      }
      var task, control := controls[controller].task, controls[controller].control;
      HeldTask(controls, tasks, controller);
      ValueOfTask(control.start);
      ControlStepIs(View(), controller);
      Act(task, control);
      OneChanged(control.start);
      ControlKeeps(controls, tasks, controller, ControlAfter(control));
      var later := ControlAfter(control);
      controls := if later == None then controls - {controller} else controls[controller := Holding(task, later.value)];
    }

    /** What a controller does to its task, or sees of it. */
    method Act(task: BackgroundTask, control: Control)
      modifies task, this`observations
      ensures task.Value() == TaskAfter(old(task.Value()), control)
      ensures observations == if control.Polling?
                              then old(observations)
                                  + [Observation(control.handle, control.start, Observed(old(task.Value())))]
                              else old(observations)
    {
      if control.Polling? {
        var snapshot := task.Poll();
        observations := observations + [Observation(control.handle, control.start, snapshot)];
      } else {
        RequestStep(task, control);
      }
    }

    /** One step of a pause or a cancellation. */
    method RequestStep(task: BackgroundTask, control: Control)
      requires IsRequest(control)
      modifies task
      ensures task.Value() == TaskAfter(old(task.Value()), control)
    {
      if control.done == 0 {
        task.SetCancelRequested(control.Canceling?);
      } else if control.done == 1 {
        task.SetPauseRequested(control.Pausing?);
      } else if control.Pausing? {
        task.ShowPause();
      } else {
        task.ShowCancel();
      }
    }

    method Dispose(handle: Handle)
      requires Valid()
      modifies this`owners, registry`tasks
      ensures Valid() && View() == Next(old(View()), Action.Dispose(handle))
    {
      hide HandleOf, Next, Numbered, Distinct, Values, ControlsOf, Held;
      DisposeNext(View(), handle);
      registry.Dispose(handle);
      owners := owners - {handle};
    }

    /** One atomic step of whatever thread; which one comes next is up to the caller. */
    method Perform(a: Action, throwAfter: nat) returns (ghost taken: Action)
      requires Valid()
      modifies this, registry, tasks.Values
      ensures Valid() && View() == Next(old(View()), taken) && SameAttempt(a, taken)
      ensures fresh(tasks.Values - old(tasks.Values))
    {
      hide Next, View, Valid;
      taken := a;
      match a {
        case TakeHandle => TakeHandle();
        case Register(start, kind) => Register(start, kind);
        case Progress(start, moduleStatus, phase, target, progress) =>
          OnProgress(start, moduleStatus, phase, target, progress);
        case Decide(start, outcome) => taken := Decide(start, outcome, throwAfter);
        case ThrowInDecision(start, outcome, _) => taken := Decide(start, outcome, throwAfter);
        case Throw(start) => Throw(start);
        case HandleException(start, what) => OnException(start, what);
        case Finish(start) => Finish(start);
        case Find(controller, handle, want) => Find(controller, handle, want);
        case Step(controller) => Step(controller);
        case Dispose(handle) => Dispose(handle);
      }
    }

    lemma ValueOfTask(start: nat)
      ensures start in tasks <==> start in Values()
      ensures start in tasks ==> Values()[start] == tasks[start].Value()
    {}

    /** Where one task has changed, one value has. */
    twostate lemma OneChanged(start: nat)
      requires old(Distinct(tasks)) && start in tasks && tasks == old(tasks)
      requires forall n :: n in tasks && tasks[n] != tasks[start] ==> tasks[n].Value() == old(tasks[n].Value())
      ensures Values() == old(Values())[start := tasks[start].Value()]
    {}
  }

  lemma TakeHandleNext(s: System)
    ensures Next(s, Action.TakeHandle) == s.(starts := s.starts + 1, unregistered := s.unregistered + {s.starts})
  {}

  lemma TakeHandleKeeps(starts: nat, pending: map<nat, Handle>, tasks: Tasks, stages: map<nat, Stage>)
    requires Numbered(starts, pending, tasks, stages)
    ensures Numbered(starts + 1, pending[starts := HandleOf(starts)], tasks, stages)
  {
    hide HandleOf;
  }

  lemma RegisterNext(s: System, start: nat, kind: Kind)
    ensures Next(s, Action.Register(start, kind))
         == if start !in s.unregistered then s
            else s.(unregistered := s.unregistered - {start}, tasks := s.tasks[start := NewTask(kind)],
                    stages := s.stages[start := Working],
                    registry := if HandleOf(start) in s.registry then s.registry
                                else s.registry[HandleOf(start) := start])
  {}

  lemma RegisterKeeps(starts: nat, pending: map<nat, Handle>, tasks: Tasks, stages: map<nat, Stage>,
                      owners: map<Handle, nat>, registered: map<Handle, BackgroundTask>, controls: map<nat, Holding>,
                      start: nat, handle: Handle, task: BackgroundTask)
    requires Numbered(starts, pending, tasks, stages) && Distinct(tasks) && Owned(owners, registered, tasks)
    requires Held(controls, tasks) && start in pending && handle == pending[start] && task !in tasks.Values
    ensures handle == HandleOf(start) && start !in tasks
    ensures Numbered(starts, pending - {start}, tasks[start := task], stages[start := Working])
    ensures Distinct(tasks[start := task]) && Held(controls, tasks[start := task])
    ensures handle in registered <==> handle in owners
    ensures Owned(if handle in owners then owners else owners[handle := start],
                  if handle in registered then registered else registered[handle := task], tasks[start := task])
  {
    hide HandleOf;
  }

  lemma NumberedStage(starts: nat, pending: map<nat, Handle>, tasks: Tasks, stages: map<nat, Stage>, start: nat)
    requires Numbered(starts, pending, tasks, stages)
    ensures start in tasks <==> start in stages
  {}

  lemma StageKeeps(starts: nat, pending: map<nat, Handle>, tasks: Tasks, stages: map<nat, Stage>, start: nat,
                   stage: Stage)
    requires Numbered(starts, pending, tasks, stages) && start in tasks
    ensures Numbered(starts, pending, tasks, stages[start := stage])
  {
    hide HandleOf;
  }

  lemma OnProgressNext(s: System, start: nat, moduleStatus: string, phase: string, target: string,
                       progress: TransferProgress)
    ensures Next(s, Progress(start, moduleStatus, phase, target, progress))
         == if !At(s, start, Working) then s
            else WithTask(s, start, Progressed(s.tasks[start], moduleStatus, phase, target, progress), Working)
  {}

  lemma ThrowNext(s: System, start: nat)
    ensures Next(s, Action.Throw(start))
         == if !At(s, start, Working) then s else WithTask(s, start, s.tasks[start], Thrown)
  {}

  lemma OnExceptionNext(s: System, start: nat, what: string)
    ensures Next(s, HandleException(start, what))
         == if !At(s, start, Thrown) then s else WithTask(s, start, Failed(s.tasks[start], what), Leaving)
  {}

  lemma FinishNext(s: System, start: nat)
    ensures Next(s, Action.Finish(start))
         == if !At(s, start, Leaving) then s else WithTask(s, start, s.tasks[start].(finished := true), Ended)
  {}

  lemma DecideNext(s: System, start: nat, outcome: Outcome)
    ensures Next(s, Action.Decide(start, outcome))
         == if !At(s, start, Working) then s else WithTask(s, start, Decided(s.tasks[start], outcome), Leaving)
  {}

  lemma ThrowInDecisionNext(s: System, start: nat, outcome: Outcome, left: Task)
    requires At(s, start, Working) && PartlyDecided(s.tasks[start], outcome, left)
    ensures Next(s, ThrowInDecision(start, outcome, left)) == WithTask(s, start, left, Thrown)
  {}

  lemma FindNext(s: System, controller: nat, handle: Handle, want: Want)
    ensures Next(s, Action.Find(controller, handle, want))
         == if controller in s.controls || handle !in s.registry then s
            else s.(controls := s.controls[controller := Found(s.registry[handle], handle, want)])
  {}

  lemma DisposeNext(s: System, handle: Handle)
    ensures Next(s, Action.Dispose(handle)) == s.(registry := s.registry - {handle})
  {}

  lemma ControlOf(controls: map<nat, Holding>, controller: nat)
    ensures controller in controls <==> controller in ControlsOf(controls)
    ensures controller in controls ==> ControlsOf(controls)[controller] == controls[controller].control
  {}

  lemma FindKeeps(controls: map<nat, Holding>, tasks: Tasks, controller: nat, task: BackgroundTask, control: Control)
    requires Held(controls, tasks) && control.start in tasks && task == tasks[control.start]
    ensures Held(controls[controller := Holding(task, control)], tasks)
    ensures ControlsOf(controls[controller := Holding(task, control)]) == ControlsOf(controls)[controller := control]
  {}

  lemma HeldTask(controls: map<nat, Holding>, tasks: Tasks, controller: nat)
    requires Held(controls, tasks) && controller in controls
    ensures controls[controller].control.start in tasks
    ensures controls[controller].task == tasks[controls[controller].control.start]
  {}

  lemma ControlKeeps(controls: map<nat, Holding>, tasks: Tasks, controller: nat, later: Option<Control>)
    requires Held(controls, tasks) && controller in controls
    requires later == ControlAfter(controls[controller].control)
    ensures var task := controls[controller].task;
            var after := if later == None then controls - {controller}
                         else controls[controller := Holding(task, later.value)];
            Held(after, tasks)
            && ControlsOf(after) == if later == None then ControlsOf(controls) - {controller}
                                    else ControlsOf(controls)[controller := later.value]
  {}

  lemma NoControl(s: System, controller: nat)
    requires controller !in s.controls
    ensures ControlStep(s, controller) == s
  {}

  lemma ControlStepIs(s: System, controller: nat)
    requires controller in s.controls && s.controls[controller].start in s.tasks
    ensures var control, task := s.controls[controller], s.tasks[s.controls[controller].start];
            ControlStep(s, controller)
            == s.(tasks := s.tasks[control.start := TaskAfter(task, control)],
                  controls := if ControlAfter(control) == None then s.controls - {controller}
                              else s.controls[controller := ControlAfter(control).value],
                  observations := if control.Polling? then
                                    s.observations + [Observation(control.handle, control.start, Observed(task))]
                                  else s.observations)
  {
    hide PauseShown, CancelShown;
    var control := s.controls[controller];
    if control.Polling? {
      assert s.tasks[control.start := s.tasks[control.start]] == s.tasks;
    }
  }

  /** Every execution of the objects, step by step in any order, is a run; so all that holds in every run holds of
      what its polls show. */
  method Execute(actions: seq<Action>, throws: nat -> nat)
    returns (observations: seq<Observation>, ghost taken: seq<Action>)
    ensures |taken| == |actions| && forall i :: 0 <= i < |actions| ==> SameAttempt(actions[i], taken[i])
    ensures observations == Run(INITIAL, taken).observations
    ensures forall i :: 0 <= i < |observations| ==>
              var bits := observations[i].shown.task.bits;
              !(bits.succeeded && bits.canceled) && !(bits.succeeded && bits.paused) && !(bits.canceled && bits.paused)
  {
    hide Next;
    var program := new Program();
    taken := [];
    for i := 0 to |actions|
      invariant program.Valid() && program.View() == Run(INITIAL, taken)
      invariant fresh(program) && fresh(program.registry) && fresh(program.tasks.Values)
      invariant |taken| == i && forall j :: 0 <= j < i ==> SameAttempt(actions[j], taken[j])
    {
      ghost var step := program.Perform(actions[i], throws(i));
      RunStep(INITIAL, taken, step);
      taken := taken + [step];
    }
    observations := program.observations;
    forall i | 0 <= i < |observations| ensures AtMostOne(observations[i].shown.task.bits) {
      PollsShowAtMostOne(taken, i);
    }
  }
}
