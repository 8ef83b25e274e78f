/** The module's shared state and the atomic steps that change it. Each step
    is one region of `http_server.cpp` executed under `s_mutex` (or, for the
    ready bit, one event-group operation inside such a region); the
    lifecycle operations are sequences of these steps. */
module ServerState {
  import opened Types
  import opened FsConfig

  /** The lifecycle state `s_state`. */
  datatype State = Stopped | Starting | Running | Stopping

  /** Everything the lifecycle functions read and write: the state, the
      event group's READY_BIT, whether an engine instance (`s_server`) and a
      worker task (`s_task`) exist, whether that worker has run its entry
      check yet (a fact about the task's progress, not a variable of the
      code), the worker's exit request (`s_task_exit`), the client-list
      bound captured at engine start (`s_max_open_sockets`) and whether the
      volume is mounted. */
  datatype Module = Module(
    state: State,
    ready: bool,
    server: bool,
    task: bool,
    entered: bool,
    taskExit: bool,
    maxSockets: nat,
    mounted: bool)

  /** The state at boot. */
  const Initial: Module := Module(Stopped, false, false, false, false, false, 0, false)

  /** `max_open_sockets` of ESP-IDF's `HTTPD_DEFAULT_CONFIG()`, which the
      component does not change. */
  const DefaultMaxOpenSockets: nat := 7

  /** The atomic steps, named after what they do. */
  datatype Step =
    | BeginStart              // start(): STOPPED -> STARTING, clear exit flag and READY_BIT
    | EngineStart(rc: Err)    // start_server(): record the socket bound, call httpd_start
    | MountVolume(rc: Err)    // ensure_fs_mounted() with the driver's result
    | EngineStop              // stop_server(): clear s_server and stop the engine
    | TaskCreate(created: bool) // start_worker_task(): clear exit flag, create the task
    | TaskReuse               // corrected start_worker_task() on an existing task
    | TaskEnter(checksExit: bool) // http_srv_task() entry: STARTING -> RUNNING and set READY_BIT
                              // (the corrected entry also requires no exit request)
    | TaskExitRequest         // stop_worker_task(): set the exit flag
    | TaskExit                // http_srv_task(): on wake with the exit flag, clear READY_BIT and s_task
    | Rearm                   // corrected start() after a failed attempt: RUNNING -> STARTING, clear READY_BIT
    | GiveUp                  // start() after the last attempt: STOPPED, clear READY_BIT
    | BeginStop               // stop(): -> STOPPING, clear READY_BIT, set exit flag
    | FinishStop              // stop(): STOPPED, clear READY_BIT

  /** The effect of one step. */
  function Apply(m: Module, s: Step): Module
  {
    match s
    case BeginStart =>
      if m.state == Stopped then m.(state := Starting, taskExit := false, ready := false) else m
    case EngineStart(rc) =>
      if m.server then m
      else m.(maxSockets := DefaultMaxOpenSockets, server := rc == Ok)
    case MountVolume(rc) =>
      m.(mounted := EnsureFsMounted(m.mounted, rc).0)
    case EngineStop =>
      m.(server := false)
    case TaskCreate(created) =>
      if m.task then m else m.(taskExit := false, task := created, entered := false)
    case TaskReuse =>
      if m.task then m.(taskExit := false) else m
    case TaskEnter(checksExit) =>
      if !m.task || m.entered then m
      else if m.state == Starting && !(checksExit && m.taskExit) then
        m.(entered := true, state := Running, ready := true)
      else m.(entered := true)
    case TaskExitRequest =>
      if m.task then m.(taskExit := true) else m
    case TaskExit =>
      if m.task && m.entered && m.taskExit then m.(ready := false, task := false, entered := false) else m
    case Rearm =>
      if m.state == Running then m.(state := Starting, ready := false) else m
    case GiveUp =>
      m.(state := Stopped, ready := false)
    case BeginStop =>
      if m.state == Stopped then m else m.(state := Stopping, ready := false, taskExit := true)
    case FinishStop =>
      m.(state := Stopped, ready := false)
  }

  /** The state after a sequence of steps. */
  function Run(m: Module, trace: seq<Step>): Module
  {
    if trace == [] then m else Apply(Run(m, trace[..|trace| - 1]), trace[|trace| - 1])
  }

  lemma {:induction false} RunAppend(m: Module, t1: seq<Step>, t2: seq<Step>)
    ensures Run(m, t1 + t2) == Run(Run(m, t1), t2)
    decreases |t2|
  {
    if t2 != [] {
      var t := t1 + t2;
      assert t[..|t| - 1] == t1 + t2[..|t2| - 1];
      assert t[|t| - 1] == t2[|t2| - 1];
      RunAppend(m, t1, t2[..|t2| - 1]);
    } else {
      assert t1 + t2 == t1;
    }
  }

  /** The trace contains a worker's entry check. */
  predicate HasEntry(trace: seq<Step>)
  {
    exists i :: 0 <= i < |trace| && trace[i].TaskEnter?
  }

  /** The worker's entry check, run by a worker that has not run it yet,
      is the only step that enters RUNNING. */
  lemma OnlyCommitEntersRunning(m: Module, s: Step)
    requires m.state != Running && Apply(m, s).state == Running
    ensures s.TaskEnter? && m.state == Starting && m.task && !m.entered
    ensures Apply(m, s).ready && Apply(m, s).entered
  {
  }

  /** A sequence of steps that ends in RUNNING from elsewhere contains a
      worker's entry check. */
  lemma {:induction false} RunningNeedsCommit(m: Module, trace: seq<Step>)
    requires m.state != Running && Run(m, trace).state == Running
    ensures HasEntry(trace)
    decreases |trace|
  {
    var init := trace[..|trace| - 1];
    var last := trace[|trace| - 1];
    assert trace == init + [last];
    if Run(m, init).state == Running {
      RunningNeedsCommit(m, init);
      var i :| 0 <= i < |init| && init[i].TaskEnter?;
      assert trace[i] == init[i];
    } else {
      OnlyCommitEntersRunning(Run(m, init), last);
      assert trace[|trace| - 1] == last;
    }
  }

  /** The READY_BIT is only ever set together with RUNNING, by a worker's
      entry check. */
  lemma ReadyOnlyWithCommit(m: Module, s: Step)
    requires !m.ready && Apply(m, s).ready
    ensures s.TaskEnter? && m.state == Starting && Apply(m, s).state == Running
  {
  }

  /** Only the worker's own exit step clears `s_task`, and only after its
      entry check and an exit request. */
  lemma OnlyWorkerClearsTask(m: Module, s: Step)
    requires m.task && !Apply(m, s).task
    ensures s == TaskExit && m.entered && m.taskExit
  {
  }

  /** The mounted flag never goes back to false. */
  lemma MountedStaysMounted(m: Module, s: Step)
    requires m.mounted
    ensures Apply(m, s).mounted
  {
  }

  /** The invariant the lifecycle operations are meant to keep between
      public calls: READY_BIT is set exactly in RUNNING; RUNNING has an
      engine and a live worker, past its entry check, that has not been
      asked to exit; STOPPED has no engine. */
  predicate Valid(m: Module)
  {
    && (m.ready <==> m.state == Running)
    && (m.state == Running ==> m.server && m.task && m.entered && !m.taskExit)
    && (m.state == Stopped ==> !m.server)
  }

  /** The boot state is valid. */
  lemma InitialIsValid()
    ensures Valid(Initial) && Initial.state == Stopped
  {
  }

  /** In a valid RUNNING module the worker's exit step does nothing, so the
      worker cannot vanish while the module is running. */
  lemma RunningWorkerStays(m: Module)
    requires Valid(m) && m.state == Running
    ensures Apply(m, TaskExit) == m
  {
  }

  /** With its exit request pending, an entered worker does exit: READY_BIT
      and the worker go while the state stays as it is, so a RUNNING
      module is left invalid. */
  lemma PendingExitTakesWorker(m: Module)
    requires m.task && m.entered && m.taskExit
    ensures var after := Apply(m, TaskExit);
            && after.state == m.state && !after.ready && !after.task
            && (m.state == Running ==> !Valid(after))
  {
  }
}
