/** The public lifecycle API of `http_srv` and the helpers it drives:
    `start_server`, `stop_server`, `start_worker_task`, `stop_worker_task`,
    `start`, `stop`, `is_running` and `wait_until_running`. Each operation
    is modelled sequentially as the atomic steps it takes (see
    `ServerState`); what the engine, the task scheduler and the worker do
    in the meantime is an input. */
module Lifecycle {
  import opened Types
  import opened ServerState
  import opened Routes

  /** The result of a lifecycle operation: the module afterwards, the steps
      taken, and the `vTaskDelay` calls made, in ticks. */
  datatype Outcome = Outcome(m: Module, trace: seq<Step>, delays: seq<tick>)

  /** No step at all. */
  function Idle(m: Module): Outcome
  {
    Outcome(m, [], [])
  }

  /** One step. */
  function Do(m: Module, s: Step): Outcome
  {
    Outcome(Apply(m, s), [s], [])
  }

  /** A delay and nothing else. */
  function Delay(m: Module, ticks: tick): Outcome
  {
    Outcome(m, [], [ticks])
  }

  /** `o` followed by `p`, which was run from `o.m`. */
  function Then(o: Outcome, p: Outcome): Outcome
  {
    Outcome(p.m, o.trace + p.trace, o.delays + p.delays)
  }

  /** The recorded steps lead from `m` to the recorded module. */
  predicate Explains(m: Module, o: Outcome)
  {
    Run(m, o.trace) == o.m
  }

  lemma IdleExplains(m: Module)
    ensures Explains(m, Idle(m))
  {
  }

  lemma DoExplains(m: Module, s: Step)
    ensures Explains(m, Do(m, s))
  {
    assert [s][..0] == [];
  }

  lemma ThenExplains(m: Module, o: Outcome, p: Outcome)
    requires Explains(m, o) && Explains(o.m, p)
    ensures Explains(m, Then(o, p))
  {
    RunAppend(m, o.trace, p.trace);
  }

  // ---------------------------------------------------------------------
  // Inputs
  // ---------------------------------------------------------------------

  /** What the outside world does during one start attempt: the engine's
      answer to `httpd_start`, the flash driver's answer to the mount, the
      engine's answers to the built-in registrations, whether the worker
      task could be created, whether the worker runs its entry check within
      the 500 ms wait, whether otherwise it runs it after the wait but before
      `stop_worker_task` asks it to exit, and whether it exits within
      `stop_worker_task`'s polling window when asked to. */
  datatype Attempt = Attempt(
    engineRc: Err,
    mountRc: Err,
    registerRcs: seq<Err>,
    taskCreated: bool,
    commits: bool,
    entersLate: bool,
    exits: bool)

  /** Build-time configuration: whether static assets are enabled and the
      FreeRTOS tick rate in Hz. */
  datatype Config = Config(fsEnabled: bool, tickRateHz: nat)

  /** The worker reuse of `start_worker_task`, the entry check of
      `http_srv_task` and the undo of a failed attempt as the code reads
      them, or with the fixes described in the README's findings. */
  datatype Variant = AsWritten | Corrected

  /** The worker's entry check: as written it commits in STARTING; the
      corrected check also requires that no exit has been requested. */
  function Entry(v: Variant): Step
  {
    TaskEnter(v == Corrected)
  }

  // ---------------------------------------------------------------------
  // Ticks and backoff
  // ---------------------------------------------------------------------

  /** The number of start attempts. */
  const MaxAttempts: nat := 5

  /** FreeRTOS `pdMS_TO_TICKS` at the given tick rate: the product is
      computed in 64 bits, so only the final cast to `TickType_t` wraps. */
  function MsToTicks(ms: nat, hz: nat): tick
  {
    ((ms * hz / 1000) % TickModulus) as tick
  }

  /** The start retry backoff update `backoff + backoff` in `TickType_t`,
      which wraps at 2^32. */
  function Double(b: tick): tick
  {
    ((b as int + b as int) % TickModulus) as tick
  }

  /** The first `n` backoffs starting from `b`, each the double of the one
      before, with wrap-around. */
  function Backoffs(b: tick, n: nat): (r: seq<tick>)
    ensures |r| == n
    decreases n
  {
    if n == 0 then [] else [b] + Backoffs(Double(b), n - 1)
  }

  // ---------------------------------------------------------------------
  // Helpers of start() and stop()
  // ---------------------------------------------------------------------

  /** `start_server`: nothing to do when an engine exists; otherwise start
      one, mount the volume when assets are enabled, and register the
      built-in routes, stopping the engine again if one is refused. */
  function StartServer(m: Module, a: Attempt, fsEnabled: bool): (Outcome, Err)
  {
    if m.server then (Idle(m), Ok)
    else if a.engineRc != Ok then (Do(m, EngineStart(a.engineRc)), a.engineRc)
    else
      var o1 := Do(m, EngineStart(Ok));
      var o2 := if fsEnabled then Then(o1, Do(o1.m, MountVolume(a.mountRc))) else o1;
      var rc := RegisterRoutes(o2.m, BuiltinRoutes, a.registerRcs, 0);
      if rc != Ok then (Then(o2, Do(o2.m, EngineStop)), rc) else (o2, Ok)
  }

  /** `stop_server`. */
  function StopServer(m: Module): Outcome
  {
    if m.server then Do(m, EngineStop) else Idle(m)
  }

  /** `start_worker_task`: an existing task is kept (and, in the corrected
      variant, its exit request withdrawn); otherwise the exit flag is
      cleared and a task is created, which may fail. */
  function StartWorkerTask(m: Module, created: bool, v: Variant): (Outcome, bool)
  {
    if m.task then
      (if v == Corrected then Do(m, TaskReuse) else Idle(m), true)
    else
      (Do(m, TaskCreate(created)), created)
  }

  /** `stop_worker_task`: with a worker, ask it to exit and report whether
      it did within the polling window. A worker that exits has first run
      its entry check, if it had not yet. */
  function StopWorkerTask(m: Module, exits: bool, v: Variant): (Outcome, bool)
  {
    if !m.task then (Idle(m), true)
    else
      var o := Do(m, TaskExitRequest);
      if !exits then (o, false)
      else if o.m.entered then (Then(o, Do(o.m, TaskExit)), true)
      else
        var o1 := Then(o, Do(o.m, Entry(v)));
        (Then(o1, Do(o1.m, TaskExit)), true)
  }

  /** The undo of a failed attempt: stop the worker, then the engine. The
      corrected variant then puts a module that a late worker left RUNNING
      back to STARTING. */
  function UndoAttempt(m: Module, exits: bool, v: Variant): Outcome
  {
    var (o1, _) := StopWorkerTask(m, exits, v);
    var o2 := Then(o1, StopServer(o1.m));
    if v == Corrected then Then(o2, Do(o2.m, Rearm)) else o2
  }

  /** The end of an attempt once the engine and the worker are up: wait
      for READY_BIT, which is set only when the worker's entry check commits
      within the wait; without it, the worker may still run its entry check
      before it is asked to exit, and the attempt is undone. */
  function AwaitReady(m: Module, commits: bool, entersLate: bool, exits: bool, v: Variant): (Outcome, bool)
  {
    var o3 := if commits then Do(m, Entry(v)) else Idle(m);
    if o3.m.ready then (o3, true)
    else
      var o4 := if entersLate then Then(o3, Do(o3.m, Entry(v))) else o3;
      (Then(o4, UndoAttempt(o4.m, exits, v)), false)
  }

  /** One attempt of `start`: start the engine, then the worker, then wait
      for the worker's commit. A failed attempt undoes what it started; it
      reports success exactly when READY_BIT was seen. */
  function TryOnce(m: Module, a: Attempt, fsEnabled: bool, v: Variant): (Outcome, bool)
  {
    var (o1, srvRc) := StartServer(m, a, fsEnabled);
    if srvRc != Ok then (o1, false)
    else
      var (o2, taskOk) := StartWorkerTask(o1.m, a.taskCreated, v);
      var o12 := Then(o1, o2);
      if !taskOk then (Then(o12, StopServer(o12.m)), false)
      else
        var (o3, ok) := AwaitReady(o12.m, a.commits, a.entersLate, a.exits, v);
        (Then(o12, o3), ok)
  }

  /** The attempts of one `start` call: attempt `k` from a given module. */
  function AttemptsOf(env: nat -> Attempt, cfg: Config, v: Variant): (Module, nat) -> (Outcome, bool)
  {
    (m: Module, k: nat) => TryOnce(m, env(k), cfg.fsEnabled, v)
  }

  /** The attempt loop of `start` from attempt `k` with the current
      backoff: after a failed attempt wait, double the backoff and try
      again; after the last one the module is STOPPED. */
  function Attempts(m: Module, attempt: (Module, nat) -> (Outcome, bool), k: nat, backoff: tick): Outcome
    decreases MaxAttempts - k
  {
    if k >= MaxAttempts then Do(m, GiveUp)
    else
      var (o, ok) := attempt(m, k);
      if ok then o
      else Then(Then(o, Delay(o.m, backoff)), Attempts(o.m, attempt, k + 1, Double(backoff)))
  }

  // ---------------------------------------------------------------------
  // The public API
  // ---------------------------------------------------------------------

  /** `start`: only from STOPPED, enter STARTING with the exit flag and
      READY_BIT clear and run the attempts with an initial backoff of 50 ms. */
  function StartWith(m: Module, env: nat -> Attempt, cfg: Config, v: Variant): Outcome
  {
    if m.state != Stopped then Idle(m)
    else
      var o := Do(m, BeginStart);
      Then(o, Attempts(o.m, AttemptsOf(env, cfg, v), 0, MsToTicks(50, cfg.tickRateHz)))
  }

  /** `start` with the corrected worker reuse. */
  function Start(m: Module, env: nat -> Attempt, cfg: Config): Outcome
  {
    StartWith(m, env, cfg, Corrected)
  }

  /** `start` exactly as the code reads. */
  function StartAsWritten(m: Module, env: nat -> Attempt, cfg: Config): Outcome
  {
    StartWith(m, env, cfg, AsWritten)
  }

  /** `stop`: nothing on STOPPED; from any other state enter STOPPING, ask
      the worker to exit, stop the engine and end STOPPED. `exits` says
      whether the worker exits within the polling window. In STOPPING the
      two entry checks behave alike, so `stop` has one variant. */
  function Stop(m: Module, exits: bool): Outcome
  {
    if m.state == Stopped then Idle(m)
    else
      var o1 := Do(m, BeginStop);
      var (o2, _) := StopWorkerTask(o1.m, exits, AsWritten);
      var o12 := Then(o1, o2);
      var o3 := Then(o12, StopServer(o12.m));
      Then(o3, Do(o3.m, FinishStop))
  }

  /** `is_running`. */
  function IsRunning(m: Module): bool
  {
    m.state == Running
  }

  /** `wait_until_running`: RUNNING answers at once, STOPPED and STOPPING
      are refused; while STARTING the READY_BIT is awaited, and
      `commitsInTime` says whether the worker commits before a non-zero
      timeout expires. A zero timeout only looks at the bit. */
  function WaitUntilRunning(m: Module, timeout: tick, commitsInTime: bool): (rc: Err)
    ensures rc in {Ok, InvalidState, Timeout}
    ensures m.state == Running ==> rc == Ok
    ensures m.state in {Stopped, Stopping} <==> rc == InvalidState
    ensures m.state == Starting && timeout == 0 ==> (rc == Ok <==> m.ready)
    ensures m.state == Starting ==> (rc == Ok <==> m.ready || (timeout > 0 && commitsInTime))
    ensures rc == Ok ==> m.state == Running || m.ready || (timeout > 0 && commitsInTime)
  {
    if m.state == Running then Ok
    else if m.state == Stopped || m.state == Stopping then InvalidState
    else if m.ready || (timeout > 0 && commitsInTime) then Ok
    else Timeout
  }
}
