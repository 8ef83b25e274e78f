/** Properties of the lifecycle: what each helper does to the module, that
    `start` and `stop` keep the module invariant, how the retry backoff
    grows, and the stale exit flag of the code as written. */
module LifecycleFacts {
  import opened Types
  import opened ServerState
  import opened Routes
  import opened Lifecycle

  // ---------------------------------------------------------------------
  // Helpers
  // ---------------------------------------------------------------------

  /** `start_server` without an engine leaves an engine exactly when it
      succeeds, fails with the engine's own code when the engine does not
      start, and does not touch the state, READY_BIT or the worker. */
  lemma StartServerKeeps(m: Module, a: Attempt, fsEnabled: bool)
    requires !m.server
    ensures var (o, rc) := StartServer(m, a, fsEnabled);
            && Explains(m, o) && o.delays == []
            && o.m.state == m.state && o.m.ready == m.ready
            && o.m.task == m.task && o.m.taskExit == m.taskExit && o.m.entered == m.entered
            && (o.m.server <==> rc == Ok)
            && (a.engineRc != Ok ==> rc == a.engineRc)
  {
    var t := StartServer(m, a, fsEnabled);
    if a.engineRc != Ok {
      DoExplains(m, EngineStart(a.engineRc));
      assert t.0.m == m.(maxSockets := DefaultMaxOpenSockets);
    } else {
      var o1 := Do(m, EngineStart(Ok));
      assert o1.m == m.(maxSockets := DefaultMaxOpenSockets, server := true);
      DoExplains(m, EngineStart(Ok));
      var o2 := if fsEnabled then Then(o1, Do(o1.m, MountVolume(a.mountRc))) else o1;
      if fsEnabled {
        DoExplains(o1.m, MountVolume(a.mountRc));
        ThenExplains(m, o1, Do(o1.m, MountVolume(a.mountRc)));
        assert o2.m == o1.m.(mounted := o2.m.mounted);
      }
      var rc := RegisterRoutes(o2.m, BuiltinRoutes, a.registerRcs, 0);
      if rc != Ok {
        DoExplains(o2.m, EngineStop);
        ThenExplains(m, o2, Do(o2.m, EngineStop));
        assert t.0.m == o2.m.(server := false);
      } else {
        assert t.0 == o2;
      }
    }
  }

  /** `start_server` while starting without an engine succeeds exactly
      when the engine starts and accepts the four built-in routes. */
  lemma StartServerFacts(m: Module, a: Attempt, fsEnabled: bool)
    requires m.state == Starting && !m.server
    ensures var (o, rc) := StartServer(m, a, fsEnabled);
            && (o.m.server <==> rc == Ok)
            && (rc == Ok <==> a.engineRc == Ok && forall j :: 0 <= j < |BuiltinRoutes| ==> RcAt(a.registerRcs, j) == Ok)
  {
    StartServerKeeps(m, a, fsEnabled);
    if a.engineRc == Ok {
      var o1 := Do(m, EngineStart(Ok));
      var o2 := if fsEnabled then Then(o1, Do(o1.m, MountVolume(a.mountRc))) else o1;
      RegisterRoutesFirstFailure(o2.m, BuiltinRoutes, a.registerRcs, 0);
    }
  }

  /** With an engine already present, `start_server` returns success at
      once and changes nothing. */
  lemma StartServerIdempotent(m: Module, a: Attempt, fsEnabled: bool)
    requires m.server
    ensures StartServer(m, a, fsEnabled) == (Idle(m), Ok)
  {
  }

  /** `stop_server` leaves no engine and changes nothing else. */
  lemma StopServerFacts(m: Module)
    ensures var o := StopServer(m);
            Explains(m, o) && o.delays == [] && o.m == m.(server := false)
  {
    if m.server {
      DoExplains(m, EngineStop);
    }
  }

  /** `start_worker_task` reports success exactly when a worker exists
      afterwards; a worker it created has no exit request, and neither has a
      reused one in the corrected variant. The state, READY_BIT and engine
      are untouched. */
  lemma StartWorkerTaskFacts(m: Module, created: bool, v: Variant)
    ensures var (o, ok) := StartWorkerTask(m, created, v);
            && Explains(m, o) && o.delays == []
            && o.m.state == m.state && o.m.ready == m.ready && o.m.server == m.server
            && (ok <==> o.m.task)
            && (ok && (v == Corrected || !m.task) ==> !o.m.taskExit)
            && (o.m.entered <==> m.task && m.entered)
            && (v == AsWritten && m.task ==> o.m == m)
  {
    if m.task {
      if v == Corrected {
        DoExplains(m, TaskReuse);
      }
    } else {
      DoExplains(m, TaskCreate(created));
    }
  }

  /** `stop_worker_task` reports success exactly when no worker is left. It
      may only clear READY_BIT (the worker does so on exit) and leaves the
      engine alone. It leaves the state alone too, except that, as written,
      a worker that exits in STARTING before its entry check first commits
      and so leaves the module RUNNING. A worker that exits takes READY_BIT
      with it; one that does not exit is left as it was. */
  lemma StopWorkerTaskFacts(m: Module, exits: bool, v: Variant)
    ensures var (o, done) := StopWorkerTask(m, exits, v);
            && Explains(m, o) && o.delays == []
            && o.m.server == m.server
            && (o.m.ready ==> m.ready)
            && (done <==> !o.m.task)
            && o.m.state == (if v == AsWritten && exits && m.task && !m.entered && m.state == Starting
                             then Running else m.state)
            && (m.task && exits ==> !o.m.ready && !o.m.task)
            && (!(m.task && exits) ==> o.m.ready == m.ready && o.m.task == m.task && o.m.entered == m.entered)
  {
    if m.task {
      var o := Do(m, TaskExitRequest);
      DoExplains(m, TaskExitRequest);
      if exits {
        if o.m.entered {
          DoExplains(o.m, TaskExit);
          ThenExplains(m, o, Do(o.m, TaskExit));
        } else {
          var o1 := Then(o, Do(o.m, Entry(v)));
          DoExplains(o.m, Entry(v));
          ThenExplains(m, o, Do(o.m, Entry(v)));
          DoExplains(o1.m, TaskExit);
          ThenExplains(m, o1, Do(o1.m, TaskExit));
        }
      }
    }
  }

  // ---------------------------------------------------------------------
  // start()
  // ---------------------------------------------------------------------

  /** Undoing a failed attempt leaves no engine and makes no delay. As
      written it keeps the state, except that a worker exiting in STARTING
      before its entry check commits RUNNING on its way out; the corrected
      undo puts a RUNNING module back to STARTING, so it never leaves
      RUNNING. READY_BIT survives only with RUNNING and a worker past its
      entry check that was not made to exit. */
  lemma UndoAttemptFacts(m: Module, exits: bool, v: Variant)
    requires m.ready ==> m.state == Running && m.task && m.entered
    ensures var o := UndoAttempt(m, exits, v);
            && o.delays == []
            && !o.m.server
            && (o.m.ready ==> m.ready && !(m.task && exits))
            && (o.m.ready ==> o.m.state == Running && o.m.task && o.m.entered)
            && o.m.state == (if v == Corrected then (if m.state == Running then Starting else m.state)
                             else if exits && m.task && !m.entered && m.state == Starting then Running
                             else m.state)
  {
    var (o1, _) := StopWorkerTask(m, exits, v);
    StopWorkerTaskFacts(m, exits, v);
    StopServerFacts(o1.m);
  }

  /** With the engine and a worker up, the wait for READY_BIT succeeds
      exactly when READY_BIT is already set or the worker's entry check
      commits in time: it runs in STARTING for the first time and, in the
      corrected variant, finds no exit request. Success makes the module
      RUNNING with READY_BIT and changes nothing else, whether or not the
      worker runs its entry check late; failure leaves a head-of-attempt
      state, and outside STARTING keeps the state and READY_BIT clear. */
  lemma AwaitReadyFacts(m: Module, commits: bool, entersLate: bool, exits: bool, v: Variant)
    requires m.server && m.task
    requires m.ready ==> m.state == Running && m.entered
    requires m.state == Starting || (v == AsWritten && m.state == Running)
    ensures var t := AwaitReady(m, commits, entersLate, exits, v);
            && t.0.delays == []
            && (t.1 <==> m.ready || (commits && !m.entered && m.state == Starting && !(v == Corrected && m.taskExit)))
            && (t.1 ==> t.0.m == if m.ready then m else m.(state := Running, ready := true, entered := true))
            && (!t.1 ==> AttemptHead(t.0.m, v))
            && (m.state != Starting && !m.ready ==> !t.1 && t.0.m.state == m.state && !t.0.m.ready)
  {
    var o3 := if commits then Do(m, Entry(v)) else Idle(m);
    if !o3.m.ready {
      var o4 := if entersLate then Then(o3, Do(o3.m, Entry(v))) else o3;
      UndoAttemptFacts(o4.m, exits, v);
    }
  }

  /** The state at the head of every attempt: no engine, and STARTING
      without READY_BIT; as written, also RUNNING, which a failed attempt
      leaves behind when its new worker runs its entry check after the wait
      for READY_BIT has ended. READY_BIT, when set, goes with RUNNING and a
      worker past its entry check. */
  predicate AttemptHead(m: Module, v: Variant)
  {
    && !m.server
    && (m.ready ==> m.state == Running && m.task && m.entered)
    && (m.state == Starting || (v == AsWritten && m.state == Running))
  }

  /** One attempt from a head-of-attempt state either succeeds, RUNNING
      with READY_BIT, an engine and a worker past its entry check (whose
      exit request is withdrawn in the corrected variant), or fails back to
      a head-of-attempt state. It fails whenever the engine does not start,
      it always fails and keeps the state when started outside STARTING
      without READY_BIT, and it makes no delay of its own. */
  lemma TryOnceFacts(m: Module, a: Attempt, fsEnabled: bool, v: Variant)
    requires AttemptHead(m, v)
    ensures var t := TryOnce(m, a, fsEnabled, v);
            && t.0.delays == []
            && (t.1 ==> t.0.m.state == Running && t.0.m.ready && t.0.m.server && t.0.m.task && t.0.m.entered)
            && (t.1 && v == Corrected ==> !t.0.m.taskExit)
            && (!t.1 ==> AttemptHead(t.0.m, v))
            && (a.engineRc != Ok ==> !t.1)
            && (m.state != Starting && !m.ready ==> !t.1 && t.0.m.state == m.state && !t.0.m.ready)
  {
    var t := TryOnce(m, a, fsEnabled, v);
    var (o1, srvRc) := StartServer(m, a, fsEnabled);
    if srvRc != Ok {
      assert t == (o1, false);
      StartServerKeeps(m, a, fsEnabled);
    } else {
      var (o2, taskOk) := StartWorkerTask(o1.m, a.taskCreated, v);
      var o12 := Then(o1, o2);
      if !taskOk {
        assert t == (Then(o12, StopServer(o12.m)), false);
        StartServerKeeps(m, a, fsEnabled);
        StartWorkerTaskFacts(o1.m, a.taskCreated, v);
        StopServerFacts(o12.m);
      } else {
        var t3 := AwaitReady(o12.m, a.commits, a.entersLate, a.exits, v);
        assert t == (Then(o12, t3.0), t3.1);
        StartServerKeeps(m, a, fsEnabled);
        StartWorkerTaskFacts(o1.m, a.taskCreated, v);
        AwaitReadyFacts(o12.m, a.commits, a.entersLate, a.exits, v);
      }
    }
  }

  /** What one attempt from `m`, a head-of-attempt state, promises: it
      makes no delay of its own; on success the module is RUNNING with
      READY_BIT, an engine and a worker past its entry check (with no
      pending exit request in the corrected variant); on failure it is at a
      head-of-attempt state; outside STARTING without READY_BIT it fails and
      keeps the state and READY_BIT clear. */
  predicate AttemptContract(m: Module, r: (Outcome, bool), v: Variant)
  {
    && r.0.delays == []
    && (r.1 ==> r.0.m.state == Running && r.0.m.ready && r.0.m.server && r.0.m.task && r.0.m.entered)
    && (r.1 && v == Corrected ==> !r.0.m.taskExit)
    && (!r.1 ==> AttemptHead(r.0.m, v))
    && (m.state != Starting && !m.ready ==> !r.1 && r.0.m.state == m.state && !r.0.m.ready)
  }

  /** Every attempt keeps the contract. */
  ghost predicate WellBehaved(attempt: (Module, nat) -> (Outcome, bool), v: Variant)
  {
    forall m: Module, j: nat :: AttemptHead(m, v) ==> AttemptContract(m, attempt(m, j), v)
  }

  /** The attempts of `start` keep the contract. */
  lemma AttemptsOfWellBehaved(env: nat -> Attempt, cfg: Config, v: Variant)
    ensures WellBehaved(AttemptsOf(env, cfg, v), v)
  {
    forall m: Module, j: nat | AttemptHead(m, v) ensures AttemptContract(m, AttemptsOf(env, cfg, v)(m, j), v) {
      TryOnceFacts(m, env(j), cfg.fsEnabled, v);
    }
  }

  /** The attempt loop, from attempt `k`, ends RUNNING with READY_BIT, an
      engine and a worker, or gives up STOPPED with neither READY_BIT nor an
      engine. When no remaining attempt can succeed it gives up, and so it
      does whenever it is entered outside STARTING without READY_BIT. In the
      corrected variant
      a RUNNING module's worker has no pending exit request. */
  lemma {:induction false} AttemptsEnd(m: Module, attempt: (Module, nat) -> (Outcome, bool), v: Variant, k: nat, b: tick)
    requires AttemptHead(m, v) && WellBehaved(attempt, v)
    ensures var o := Attempts(m, attempt, k, b);
            && (o.m.state == Running || o.m.state == Stopped)
            && (o.m.state == Running ==> o.m.ready && o.m.server && o.m.task && o.m.entered)
            && (o.m.state == Running && v == Corrected ==> !o.m.taskExit)
            && (o.m.state == Stopped ==> !o.m.ready && !o.m.server)
            && ((forall n: Module, j: nat :: AttemptHead(n, v) && k <= j < MaxAttempts ==> !attempt(n, j).1)
                ==> o.m.state == Stopped)
            && (m.state != Starting && !m.ready ==> o.m.state == Stopped)
    decreases MaxAttempts - k
  {
    if k < MaxAttempts {
      var t := attempt(m, k);
      assert AttemptContract(m, t, v);
      if !t.1 {
        AttemptsEnd(t.0.m, attempt, v, k + 1, Double(b));
      }
    }
  }

  /** The loop waits once per failed attempt: after giving up it has waited
      once for every attempt from `k` on, and fewer times when an attempt
      succeeded. The waits are the backoff, doubled once per failed
      attempt. */
  lemma AttemptsDelays(m: Module, attempt: (Module, nat) -> (Outcome, bool), v: Variant, k: nat, b: tick)
    requires AttemptHead(m, v) && WellBehaved(attempt, v) && k <= MaxAttempts
    ensures var o := Attempts(m, attempt, k, b);
            && (o.m.state != Running ==> |o.delays| == MaxAttempts - k)
            && (o.m.state == Running ==> |o.delays| < MaxAttempts - k)
            && o.delays == Backoffs(b, |o.delays|)
  {
    AttemptsWaitCount(m, attempt, v, k, b);
    AttemptsWaitBackoffs(m, attempt, v, k, b);
  }

  /** The number of waits of the loop from attempt `k`: one per attempt
      from `k` on when it gives up, fewer when an attempt succeeds. */
  lemma {:induction false} AttemptsWaitCount(m: Module, attempt: (Module, nat) -> (Outcome, bool), v: Variant, k: nat, b: tick)
    requires AttemptHead(m, v) && WellBehaved(attempt, v) && k <= MaxAttempts
    ensures var o := Attempts(m, attempt, k, b);
            && (o.m.state != Running ==> |o.delays| == MaxAttempts - k)
            && (o.m.state == Running ==> |o.delays| < MaxAttempts - k)
    decreases MaxAttempts - k
  {
    if k < MaxAttempts {
      var t := attempt(m, k);
      assert AttemptContract(m, t, v);
      if !t.1 {
        AttemptsWaitCount(t.0.m, attempt, v, k + 1, Double(b));
        FailedAttemptWaits(m, attempt, k, b);
      }
    }
  }

  /** The waits of the loop from attempt `k` are the backoff `b`, doubled
      once per wait. */
  lemma {:induction false} AttemptsWaitBackoffs(m: Module, attempt: (Module, nat) -> (Outcome, bool), v: Variant, k: nat, b: tick)
    requires AttemptHead(m, v) && WellBehaved(attempt, v) && k <= MaxAttempts
    ensures var o := Attempts(m, attempt, k, b);
            o.delays == Backoffs(b, |o.delays|)
    decreases MaxAttempts - k
  {
    if k < MaxAttempts {
      var t := attempt(m, k);
      assert AttemptContract(m, t, v);
      if !t.1 {
        var rest := Attempts(t.0.m, attempt, k + 1, Double(b));
        AttemptsWaitBackoffs(t.0.m, attempt, v, k + 1, Double(b));
        FailedAttemptWaits(m, attempt, k, b);
        assert Attempts(m, attempt, k, b).delays == [b] + rest.delays;
        assert Backoffs(b, 1 + |rest.delays|) == [b] + Backoffs(Double(b), |rest.delays|);
      }
    }
  }

  /** The attempt loop's trace explains its result when every attempt's
      does. */
  lemma {:induction false} AttemptsExplain(m: Module, attempt: (Module, nat) -> (Outcome, bool), k: nat, b: tick)
    requires forall n: Module, j: nat :: Explains(n, attempt(n, j).0)
    ensures Explains(m, Attempts(m, attempt, k, b))
    decreases MaxAttempts - k
  {
    if k >= MaxAttempts {
      DoExplains(m, GiveUp);
    } else {
      var t := attempt(m, k);
      if !t.1 {
        AttemptsExplain(t.0.m, attempt, k + 1, Double(b));
        RetryExplains(m, t.0, b, Attempts(t.0.m, attempt, k + 1, Double(b)));
      }
    }
  }

  /** Each attempt of `start` explains its result. */
  lemma AttemptsOfExplain(env: nat -> Attempt, cfg: Config, v: Variant)
    ensures forall n: Module, j: nat :: Explains(n, AttemptsOf(env, cfg, v)(n, j).0)
  {
    forall n: Module, j: nat ensures Explains(n, AttemptsOf(env, cfg, v)(n, j).0) {
      TryOnceExplains(n, env(j), cfg.fsEnabled, v);
    }
  }

  /** `start` from STOPPED without an engine enters STARTING with the exit
      request and READY_BIT clear, and then runs the attempt loop from a
      head-of-attempt state with a 50 ms backoff. */
  lemma StartLoop(m: Module, env: nat -> Attempt, cfg: Config, v: Variant)
    requires m.state == Stopped && !m.server
    ensures var o0 := Do(m, BeginStart);
            var at := AttemptsOf(env, cfg, v);
            var b := MsToTicks(50, cfg.tickRateHz);
            && o0.m == m.(state := Starting, ready := false, taskExit := false)
            && StartWith(m, env, cfg, v) == Then(o0, Attempts(o0.m, at, 0, b))
            && AttemptHead(o0.m, v) && WellBehaved(at, v)
  {
    AttemptsOfWellBehaved(env, cfg, v);
  }

  /** Every `start`'s trace explains its result. */
  lemma StartExplains(m: Module, env: nat -> Attempt, cfg: Config, v: Variant)
    ensures Explains(m, StartWith(m, env, cfg, v))
  {
    if m.state == Stopped {
      var o0 := Do(m, BeginStart);
      var at := AttemptsOf(env, cfg, v);
      var b := MsToTicks(50, cfg.tickRateHz);
      DoExplains(m, BeginStart);
      AttemptsOfExplain(env, cfg, v);
      AttemptsExplain(o0.m, at, 0, b);
      ThenExplains(m, o0, Attempts(o0.m, at, 0, b));
    }
  }

  /** `start` from a valid STOPPED module keeps the module invariant and
      ends RUNNING or STOPPED; RUNNING is reached only through a worker's
      entry check. */
  lemma StartPreservesValid(m: Module, env: nat -> Attempt, cfg: Config)
    requires Valid(m) && m.state == Stopped
    ensures var o := Start(m, env, cfg);
            && Valid(o.m)
            && (o.m.state == Running || o.m.state == Stopped)
            && Explains(m, o)
            && (o.m.state == Running ==> HasEntry(o.trace))
  {
    StartLoop(m, env, cfg, Corrected);
    StartExplains(m, env, cfg, Corrected);
    var o0 := Do(m, BeginStart);
    AttemptsEnd(o0.m, AttemptsOf(env, cfg, Corrected), Corrected, 0, MsToTicks(50, cfg.tickRateHz));
    var o := Start(m, env, cfg);
    if o.m.state == Running {
      RunningNeedsCommit(m, o.trace);
    }
  }

  /** `start` does nothing unless the module is STOPPED: it returns at once
      when running, starting or stopping. */
  lemma StartOnlyFromStopped(m: Module, env: nat -> Attempt, cfg: Config, v: Variant)
    requires m.state != Stopped
    ensures StartWith(m, env, cfg, v) == Idle(m)
  {
  }

  /** Every `start`, as written or corrected, reaches RUNNING only through
      a worker's entry check. */
  lemma StartRunningOnlyByCommit(m: Module, env: nat -> Attempt, cfg: Config, v: Variant)
    requires m.state != Running
    requires StartWith(m, env, cfg, v).m.state == Running
    ensures HasEntry(StartWith(m, env, cfg, v).trace)
  {
    StartExplains(m, env, cfg, v);
    RunningNeedsCommit(m, StartWith(m, env, cfg, v).trace);
  }

  /** One attempt's trace explains its result from any module. */
  lemma TryOnceExplains(m: Module, a: Attempt, fsEnabled: bool, v: Variant)
    ensures Explains(m, TryOnce(m, a, fsEnabled, v).0)
  {
    var (o1, srvRc) := StartServer(m, a, fsEnabled);
    StartServerExplains(m, a, fsEnabled);
    if srvRc == Ok {
      var (o2, taskOk) := StartWorkerTask(o1.m, a.taskCreated, v);
      StartWorkerTaskFacts(o1.m, a.taskCreated, v);
      var o12 := Then(o1, o2);
      ThenExplains(m, o1, o2);
      if !taskOk {
        StopServerFacts(o12.m);
        ThenExplains(m, o12, StopServer(o12.m));
      } else {
        AwaitReadyExplains(o12.m, a.commits, a.entersLate, a.exits, v);
        ThenExplains(m, o12, AwaitReady(o12.m, a.commits, a.entersLate, a.exits, v).0);
      }
    }
  }

  /** The wait for READY_BIT and its undo explain their result from any
      module. */
  lemma AwaitReadyExplains(m: Module, commits: bool, entersLate: bool, exits: bool, v: Variant)
    ensures Explains(m, AwaitReady(m, commits, entersLate, exits, v).0)
  {
    var o3 := if commits then Do(m, Entry(v)) else Idle(m);
    if commits {
      DoExplains(m, Entry(v));
    }
    if !o3.m.ready {
      var o4 := if entersLate then Then(o3, Do(o3.m, Entry(v))) else o3;
      if entersLate {
        DoExplains(o3.m, Entry(v));
        ThenExplains(m, o3, Do(o3.m, Entry(v)));
      }
      UndoAttemptExplains(o4.m, exits, v);
      ThenExplains(m, o4, UndoAttempt(o4.m, exits, v));
    }
  }

  /** The undo of a failed attempt explains its result from any module. */
  lemma UndoAttemptExplains(m: Module, exits: bool, v: Variant)
    ensures Explains(m, UndoAttempt(m, exits, v))
  {
    var (o1, _) := StopWorkerTask(m, exits, v);
    StopWorkerTaskFacts(m, exits, v);
    var o2 := Then(o1, StopServer(o1.m));
    StopServerFacts(o1.m);
    ThenExplains(m, o1, StopServer(o1.m));
    if v == Corrected {
      DoExplains(o2.m, Rearm);
      ThenExplains(m, o2, Do(o2.m, Rearm));
    }
  }

  /** `start_server`'s trace explains its result from any module. */
  lemma StartServerExplains(m: Module, a: Attempt, fsEnabled: bool)
    ensures Explains(m, StartServer(m, a, fsEnabled).0)
  {
    if !m.server {
      if a.engineRc != Ok {
        DoExplains(m, EngineStart(a.engineRc));
      } else {
        var o1 := Do(m, EngineStart(Ok));
        DoExplains(m, EngineStart(Ok));
        var o2 := if fsEnabled then Then(o1, Do(o1.m, MountVolume(a.mountRc))) else o1;
        if fsEnabled {
          DoExplains(o1.m, MountVolume(a.mountRc));
          ThenExplains(m, o1, Do(o1.m, MountVolume(a.mountRc)));
        }
        DoExplains(o2.m, EngineStop);
        ThenExplains(m, o2, Do(o2.m, EngineStop));
      }
    }
  }

  lemma RetryExplains(m: Module, o: Outcome, b: tick, rest: Outcome)
    requires Explains(m, o) && Explains(o.m, rest)
    ensures Explains(m, Then(Then(o, Delay(o.m, b)), rest))
  {
    ThenExplains(m, o, Delay(o.m, b));
    ThenExplains(m, Then(o, Delay(o.m, b)), rest);
  }

  /** A shorter run of backoffs is a prefix of a longer one. */
  lemma {:induction false} BackoffsPrefix(b: tick, n: nat, len: nat)
    requires n <= len
    ensures Backoffs(b, n) == Backoffs(b, len)[..n]
    decreases n
  {
    if n > 0 {
      BackoffsPrefix(Double(b), n - 1, len - 1);
    }
  }

  /** Five backoffs from `b` without wrap-around, as long as 16 times `b`
      fits in a tick. */
  lemma BackoffsFive(b: tick)
    requires 16 * (b as int) < TickModulus
    ensures Backoffs(b, 5) == [b, 2 * b, 4 * b, 8 * b, 16 * b]
  {
    var x := b as int;
    assert Double(b) as int == 2 * x;
    assert Double(Double(b)) as int == 4 * x;
    assert Double(Double(Double(b))) as int == 8 * x;
    assert Double(Double(Double(Double(b)))) as int == 16 * x;
  }

  /** The backoff never wraps: at any tick rate FreeRTOS allows on this
      platform (1 to 1000 Hz), the delays of `start` are the initial 50 ms
      backoff times 1, 2, 4, 8 and 16, at most one per attempt. */
  lemma StartBackoffNeverWraps(m: Module, env: nat -> Attempt, cfg: Config, v: Variant)
    requires 1 <= cfg.tickRateHz <= 1000
    requires m.state == Stopped && !m.server
    ensures var o := StartWith(m, env, cfg, v);
            var b := MsToTicks(50, cfg.tickRateHz);
            && b as int == 50 * cfg.tickRateHz / 1000
            && |o.delays| <= MaxAttempts
            && o.delays == [b, 2 * b, 4 * b, 8 * b, 16 * b][..|o.delays|]
  {
    var b := MsToTicks(50, cfg.tickRateHz);
    assert b as int == 50 * cfg.tickRateHz / 1000 <= 50;
    var ds := StartWith(m, env, cfg, v).delays;
    assert |ds| <= MaxAttempts && ds == Backoffs(b, |ds|) by {
      StartLoop(m, env, cfg, v);
      AttemptsDelays(Do(m, BeginStart).m, AttemptsOf(env, cfg, v), v, 0, b);
    }
    BackoffsPrefix(b, |ds|, 5);
    BackoffsFive(b);
  }

  /** When the engine never starts, `start` gives up STOPPED with READY_BIT
      clear after five delays; at 1000 Hz these are 50, 100, 200, 400 and
      800 ticks. */
  lemma StartGivesUp(m: Module, env: nat -> Attempt, cfg: Config, v: Variant)
    requires m.state == Stopped && !m.server
    requires forall j :: 0 <= j < MaxAttempts ==> env(j).engineRc != Ok
    ensures var o := StartWith(m, env, cfg, v);
            && o.m.state == Stopped && !o.m.ready && !o.m.server
            && |o.delays| == MaxAttempts
            && (cfg.tickRateHz == 1000 ==> o.delays == [50, 100, 200, 400, 800])
  {
    StartLoop(m, env, cfg, v);
    var o0 := Do(m, BeginStart);
    var at := AttemptsOf(env, cfg, v);
    var b := MsToTicks(50, cfg.tickRateHz);
    forall n: Module, j: nat | AttemptHead(n, v) && 0 <= j < MaxAttempts ensures !at(n, j).1 {
      TryOnceFacts(n, env(j), cfg.fsEnabled, v);
    }
    AttemptsEnd(o0.m, at, v, 0, b);
    AttemptsDelays(o0.m, at, v, 0, b);
    var o := StartWith(m, env, cfg, v);
    if cfg.tickRateHz == 1000 {
      assert b == 50;
      BackoffsFive(b);
    }
  }

  // ---------------------------------------------------------------------
  // stop()
  // ---------------------------------------------------------------------

  /** `stop` does nothing on a STOPPED module; from any other state it ends
      STOPPED with READY_BIT clear and no engine, so the module is valid
      afterwards whatever it was before. */
  lemma StopFacts(m: Module, exits: bool)
    ensures var o := Stop(m, exits);
            && Explains(m, o) && o.delays == []
            && (m.state == Stopped ==> o == Idle(m))
            && (m.state != Stopped ==> o.trace[0] == BeginStop && o.m.state == Stopped && !o.m.ready && !o.m.server)
            && (Valid(m) || m.state != Stopped ==> Valid(o.m))
  {
    StopExplains(m, exits);
    if m.state != Stopped {
      var o1 := Do(m, BeginStop);
      var (o2, _) := StopWorkerTask(o1.m, exits, AsWritten);
      assert o2.delays == [] by {
        StopWorkerTaskFacts(o1.m, exits, AsWritten);
      }
      var o12 := Then(o1, o2);
      var o3 := Then(o12, StopServer(o12.m));
      assert o3.m == o12.m.(server := false) && o3.delays == [] by {
        StopServerFacts(o12.m);
      }
      assert Stop(m, exits) == Then(o3, Do(o3.m, FinishStop));
    }
  }

  /** `stop`'s trace explains its result. */
  lemma StopExplains(m: Module, exits: bool)
    ensures Explains(m, Stop(m, exits))
  {
    if m.state != Stopped {
      var o1 := Do(m, BeginStop);
      DoExplains(m, BeginStop);
      var (o2, _) := StopWorkerTask(o1.m, exits, AsWritten);
      StopWorkerTaskFacts(o1.m, exits, AsWritten);
      var o12 := Then(o1, o2);
      ThenExplains(m, o1, o2);
      var o3 := Then(o12, StopServer(o12.m));
      StopServerFacts(o12.m);
      ThenExplains(m, o12, StopServer(o12.m));
      DoExplains(o3.m, FinishStop);
      ThenExplains(m, o3, Do(o3.m, FinishStop));
    }
  }

  /** A second `stop` does nothing. */
  lemma StopIdempotent(m: Module, exits1: bool, exits2: bool)
    ensures var s := Stop(m, exits1).m;
            Stop(s, exits2) == Idle(s)
  {
    StopFacts(m, exits1);
  }

  /** After `stop` the module is not running, refuses registrations, is
      reported stopped by `wait_until_running` and has no sessions to
      close. */
  lemma NothingRunsAfterStop(m: Module, exits: bool, uri: string, verb: HttpMethod, handler: Handler,
                             engineRc: Err, timeout: tick, commits: bool, listRc: Err, clients: seq<int>)
    ensures var s := Stop(m, exits).m;
            && !IsRunning(s)
            && RegisterUri(s, Some(uri), verb, Some(handler), engineRc) == InvalidState
            && UnregisterUri(s, Some(uri), verb, engineRc) == InvalidState
            && WaitUntilRunning(s, timeout, commits) == InvalidState
            && (Valid(m) ==> CloseAllSessions(s, listRc, clients) == [])
  {
    StopFacts(m, exits);
  }

  /** Unlike the interface's description ("returns immediately if not
      running"), `stop` on a STARTING module tears it down. */
  lemma StopTearsDownStarting(m: Module, exits: bool)
    requires m.state == Starting
    ensures Stop(m, exits) != Idle(m)
    ensures Stop(m, exits).m.state == Stopped
  {
    StopFacts(m, exits);
  }

  // ---------------------------------------------------------------------
  // is_running() and wait_until_running()
  // ---------------------------------------------------------------------

  /** On a valid module `is_running` holds only with an engine, a worker
      and READY_BIT, and a zero-timeout `wait_until_running` is exactly the
      same check. */
  lemma RunningMeansReady(m: Module, commits: bool)
    requires Valid(m)
    ensures IsRunning(m) ==> m.server && m.task && m.ready
    ensures WaitUntilRunning(m, 0, commits) == Ok <==> IsRunning(m)
  {
  }

  /** When attempt 0 fails and attempt 1 succeeds, the loop waits once,
      with the initial backoff, and ends where attempt 1 does. */
  lemma SecondAttemptEndsLoop(m: Module, attempt: (Module, nat) -> (Outcome, bool), b: tick)
    requires !attempt(m, 0).1 && attempt(attempt(m, 0).0.m, 1).1
    ensures var t0 := attempt(m, 0);
            var t1 := attempt(t0.0.m, 1);
            var o := Attempts(m, attempt, 0, b);
            o.m == t1.0.m && o.delays == t0.0.delays + [b] + t1.0.delays
  {
    var t0 := attempt(m, 0);
    assert Attempts(t0.0.m, attempt, 1, Double(b)) == attempt(t0.0.m, 1).0;
  }

  /** When attempt `k` fails, the loop waits once with the current backoff
      and goes on from attempt `k + 1` with the backoff doubled. */
  lemma FailedAttemptWaits(m: Module, attempt: (Module, nat) -> (Outcome, bool), k: nat, b: tick)
    requires k < MaxAttempts && !attempt(m, k).1
    ensures var t := attempt(m, k);
            var rest := Attempts(t.0.m, attempt, k + 1, Double(b));
            var o := Attempts(m, attempt, k, b);
            o.m == rest.m && o.delays == t.0.delays + [b] + rest.delays
  {
  }

  // ---------------------------------------------------------------------
  // The stale exit flag
  // ---------------------------------------------------------------------

  /** The attempt script that exposes the stale exit flag: in attempt 0 the
      worker is created but neither commits in time nor exits when asked; in
      every later attempt everything succeeds. */
  function SlowWorkerScript(k: nat): Attempt
  {
    if k == 0 then Attempt(Ok, Ok, [], true, false, false, false)
    else Attempt(Ok, Ok, [], true, true, false, true)
  }

  /** With no scripted refusals, the built-in routes are all accepted. */
  lemma BuiltinsAccepted(m: Module)
    requires m.state in {Starting, Running} && m.server
    ensures RegisterRoutes(m, BuiltinRoutes, [], 0) == Ok
  {
    RegisterRoutesFirstFailure(m, BuiltinRoutes, [], 0);
    FirstFailureIs([], |BuiltinRoutes|, |BuiltinRoutes|);
  }

  /** Attempt 0 of the slow-worker script from STARTING with no engine,
      worker or exit request: the new worker neither commits nor exits, so
      the attempt fails leaving STARTING with no engine, the worker still
      there, and its exit request set. */
  lemma SlowAttemptZero(m: Module, v: Variant)
    requires m.state == Starting && !m.ready && !m.server && !m.task && !m.taskExit
    ensures var t0 := TryOnce(m, SlowWorkerScript(0), false, v);
            && !t0.1 && t0.0.delays == []
            && t0.0.m == m.(maxSockets := DefaultMaxOpenSockets, task := true, taskExit := true, entered := false)
  {
    var m1 := m.(server := true, maxSockets := DefaultMaxOpenSockets);
    BuiltinsAccepted(m1);
    assert StartServer(m, SlowWorkerScript(0), false) == (Do(m, EngineStart(Ok)), Ok);
    var m2 := m1.(task := true, taskExit := false, entered := false);
    assert StartWorkerTask(m1, true, v).0.m == m2;
    assert StopWorkerTask(m2, false, v).0.m == m2.(taskExit := true);
    assert AwaitReady(m2, false, false, false, v).0.m == m2.(taskExit := true, server := false);
  }

  /** Attempt 1 of the slow-worker script, from STARTING with no engine and
      the old worker not yet entered: the worker is reused and commits, so
      the attempt succeeds. As written the exit request stays as it was;
      the corrected reuse withdraws it. */
  lemma ReusedWorkerCommits(m: Module, v: Variant)
    requires m.state == Starting && !m.ready && !m.server && m.task && !m.entered
    ensures var t1 := TryOnce(m, SlowWorkerScript(1), false, v);
            && t1.1 && t1.0.delays == []
            && t1.0.m == m.(state := Running, ready := true, server := true, entered := true,
                            maxSockets := DefaultMaxOpenSockets,
                            taskExit := if v == Corrected then false else m.taskExit)
  {
    var m4 := m.(server := true, maxSockets := DefaultMaxOpenSockets);
    BuiltinsAccepted(m4);
    assert StartServer(m, SlowWorkerScript(1), false) == (Do(m, EngineStart(Ok)), Ok);
    var m5 := if v == Corrected then m4.(taskExit := false) else m4;
    assert StartWorkerTask(m4, true, v).0.m == m5;
    assert AwaitReady(m5, true, false, true, v).0.m == m5.(state := Running, ready := true, entered := true);
  }

  /** As written, `start` reuses the slow worker in attempt 1 without
      withdrawing the exit request `stop_worker_task` made in attempt 0, so
      it returns RUNNING after one wait with the request pending; the
      worker's next wake-up (already pending from attempt 0) makes it exit,
      leaving a RUNNING module without READY_BIT or worker. */
  lemma StaleExitFlagAsWritten(m: Module, cfg: Config)
    requires m.state == Stopped && !m.server && !m.task && !cfg.fsEnabled
    ensures var o := StartAsWritten(m, SlowWorkerScript, cfg);
            && o.m.state == Running && o.m.taskExit && !Valid(o.m)
            && o.delays == [MsToTicks(50, cfg.tickRateHz)]
            && var after := Apply(o.m, TaskExit);
               after.state == Running && !after.ready && !after.task
  {
    var o := StartAsWritten(m, SlowWorkerScript, cfg);
    var m0 := Apply(m, BeginStart);
    var m3 := m0.(maxSockets := DefaultMaxOpenSockets, task := true, taskExit := true, entered := false);
    assert o.m == m3.(state := Running, ready := true, server := true, entered := true)
        && o.delays == [MsToTicks(50, cfg.tickRateHz)] by {
      var at := AttemptsOf(SlowWorkerScript, cfg, AsWritten);
      SlowAttemptZero(m0, AsWritten);
      assert at(m0, 0) == TryOnce(m0, SlowWorkerScript(0), false, AsWritten);
      ReusedWorkerCommits(m3, AsWritten);
      assert at(m3, 1) == TryOnce(m3, SlowWorkerScript(1), false, AsWritten);
      SecondAttemptEndsLoop(m0, at, MsToTicks(50, cfg.tickRateHz));
      StartLoop(m, SlowWorkerScript, cfg, AsWritten);
    }
    PendingExitTakesWorker(o.m);
  }

  /** With the exit request withdrawn on reuse, the same script ends after
      one wait in a valid RUNNING module whose worker stays. */
  lemma StaleExitFlagCorrected(m: Module, cfg: Config)
    requires m.state == Stopped && !m.server && !m.task && !cfg.fsEnabled
    ensures var o := Start(m, SlowWorkerScript, cfg);
            && o.m.state == Running && !o.m.taskExit && Valid(o.m)
            && o.delays == [MsToTicks(50, cfg.tickRateHz)]
            && Apply(o.m, TaskExit) == o.m
  {
    var at := AttemptsOf(SlowWorkerScript, cfg, Corrected);
    var m0 := Apply(m, BeginStart);
    SlowAttemptZero(m0, Corrected);
    var t0 := at(m0, 0);
    assert t0 == TryOnce(m0, SlowWorkerScript(0), false, Corrected);
    var m3 := t0.0.m;
    ReusedWorkerCommits(m3, Corrected);
    assert at(m3, 1) == TryOnce(m3, SlowWorkerScript(1), false, Corrected);
    SecondAttemptEndsLoop(m0, at, MsToTicks(50, cfg.tickRateHz));
    StartLoop(m, SlowWorkerScript, cfg, Corrected);
    RunningWorkerStays(Start(m, SlowWorkerScript, cfg).m);
  }

  // ---------------------------------------------------------------------
  // The worker that exits before its entry check
  // ---------------------------------------------------------------------

  /** The attempt script that exposes the early exit: in attempt 0 the new
      worker has not run its entry check when the wait for READY_BIT ends,
      and exits as soon as it is asked to; every later attempt succeeds. */
  function EarlyExitScript(k: nat): Attempt
  {
    if k == 0 then Attempt(Ok, Ok, [], true, false, false, true)
    else Attempt(Ok, Ok, [], true, true, false, true)
  }

  /** As written, the attempt-0 worker runs its entry check only on its way
      out: it commits RUNNING and then exits, so attempt 0 fails leaving the
      module RUNNING without READY_BIT, worker or engine. Every later
      worker's entry check sees RUNNING rather than STARTING and never
      commits, so `start` waits five times and gives up STOPPED although
      every later attempt would have succeeded. */
  lemma ExitedWorkerBlocksRetriesAsWritten(m: Module, cfg: Config)
    requires m.state == Stopped && !m.server && !m.task && !cfg.fsEnabled
    ensures var t0 := TryOnce(Apply(m, BeginStart), EarlyExitScript(0), false, AsWritten);
            && !t0.1 && t0.0.m.state == Running && !t0.0.m.ready && !t0.0.m.task && !t0.0.m.server
    ensures var o := StartAsWritten(m, EarlyExitScript, cfg);
            && o.m.state == Stopped && |o.delays| == MaxAttempts
  {
    var at := AttemptsOf(EarlyExitScript, cfg, AsWritten);
    var b := MsToTicks(50, cfg.tickRateHz);
    var m0 := Apply(m, BeginStart);
    StartLoop(m, EarlyExitScript, cfg, AsWritten);
    EarlyExitAttemptZero(m0, AsWritten);
    assert at(m0, 0) == TryOnce(m0, EarlyExitScript(0), false, AsWritten);
    var m3 := at(m0, 0).0.m;
    FailedAttemptWaits(m0, at, 0, b);
    // Attempts 1 to 4 start from RUNNING and cannot succeed.
    AttemptsEnd(m3, at, AsWritten, 1, Double(b));
    AttemptsDelays(m3, at, AsWritten, 1, Double(b));
  }

  /** With the entry check that also requires no pending exit request, the
      attempt-0 worker exits without committing, attempt 0 leaves the
      module STARTING, and attempt 1 brings it to a valid RUNNING after one
      wait. */
  lemma ExitedWorkerRetriesCorrected(m: Module, cfg: Config)
    requires m.state == Stopped && !m.server && !m.task && !cfg.fsEnabled
    ensures var o := Start(m, EarlyExitScript, cfg);
            && o.m.state == Running && Valid(o.m) && o.delays == [MsToTicks(50, cfg.tickRateHz)]
  {
    var at := AttemptsOf(EarlyExitScript, cfg, Corrected);
    var m0 := Apply(m, BeginStart);
    EarlyExitAttemptZero(m0, Corrected);
    var t0 := at(m0, 0);
    assert t0 == TryOnce(m0, EarlyExitScript(0), false, Corrected);
    var m3 := t0.0.m;
    FreshAttemptSucceeds(m3, EarlyExitScript(1), Corrected);
    assert at(m3, 1) == TryOnce(m3, EarlyExitScript(1), false, Corrected);
    SecondAttemptEndsLoop(m0, at, MsToTicks(50, cfg.tickRateHz));
    StartLoop(m, EarlyExitScript, cfg, Corrected);
  }

  /** Attempt 0 of the early-exit script from STARTING with no engine,
      worker or exit request: the attempt fails with no engine, no worker
      and the exit request left set. As written the worker's entry check,
      run on its way out, commits RUNNING; with the corrected check it does
      not, and the module stays STARTING. */
  lemma EarlyExitAttemptZero(m: Module, v: Variant)
    requires m.state == Starting && !m.ready && !m.server && !m.task && !m.taskExit
    ensures var t0 := TryOnce(m, EarlyExitScript(0), false, v);
            && !t0.1 && t0.0.delays == []
            && t0.0.m == m.(state := if v == Corrected then Starting else Running,
                            maxSockets := DefaultMaxOpenSockets, taskExit := true, entered := false)
  {
    var m1 := m.(server := true, maxSockets := DefaultMaxOpenSockets);
    BuiltinsAccepted(m1);
    assert StartServer(m, EarlyExitScript(0), false) == (Do(m, EngineStart(Ok)), Ok);
    var m2 := m1.(task := true, taskExit := false, entered := false);
    assert StartWorkerTask(m1, true, v).0.m == m2;
    var gone := m2.(state := if v == Corrected then Starting else Running, task := false, taskExit := true);
    assert StopWorkerTask(m2, true, v).0.m == gone;
    assert AwaitReady(m2, false, false, true, v).0.m == gone.(server := false);
  }

  // ---------------------------------------------------------------------
  // The worker that runs its entry check after the wait
  // ---------------------------------------------------------------------

  /** The attempt script that exposes the late entry: in attempt 0 the new
      worker runs its entry check only after the wait for READY_BIT has
      ended but before `stop_worker_task` asks it to exit, and exits when
      asked; every later attempt succeeds. */
  function LateEntryScript(k: nat): Attempt
  {
    if k == 0 then Attempt(Ok, Ok, [], true, false, true, true)
    else Attempt(Ok, Ok, [], true, true, false, true)
  }

  /** Attempt 0 of the late-entry script from STARTING with no engine,
      worker or exit request: it fails, with no engine, no worker and the
      exit request left set; as written the late commit leaves the module
      RUNNING, and the corrected undo puts it back to STARTING. */
  lemma LateEntryAttemptZero(m: Module, v: Variant)
    requires m.state == Starting && !m.ready && !m.server && !m.task && !m.taskExit
    ensures var t0 := TryOnce(m, LateEntryScript(0), false, v);
            && !t0.1 && t0.0.delays == []
            && t0.0.m == m.(state := if v == Corrected then Starting else Running,
                            maxSockets := DefaultMaxOpenSockets, taskExit := true, entered := false)
  {
    var m1 := m.(server := true, maxSockets := DefaultMaxOpenSockets);
    BuiltinsAccepted(m1);
    assert StartServer(m, LateEntryScript(0), false) == (Do(m, EngineStart(Ok)), Ok);
    var m2 := m1.(task := true, taskExit := false, entered := false);
    assert StartWorkerTask(m1, true, v).0.m == m2;
    var late := m2.(state := Running, ready := true, entered := true);
    assert Apply(m2, Entry(v)) == late;
    var gone := m2.(state := Running, task := false, taskExit := true);
    assert StopWorkerTask(late, true, v).0.m == gone;
    assert UndoAttempt(late, true, v).m == if v == Corrected then gone.(state := Starting, server := false)
                                          else gone.(server := false);
    assert AwaitReady(m2, false, true, true, v).0.m == UndoAttempt(late, true, v).m;
  }

  /** As written, the late worker finds STARTING and no exit request yet,
      so it commits RUNNING after the wait has already failed; it then exits
      when asked, and the undo leaves the module RUNNING without READY_BIT,
      worker or engine. As with the early exit, `start` then waits five
      times and gives up STOPPED although every later attempt would have
      succeeded. */
  lemma LateEntryBlocksRetriesAsWritten(m: Module, cfg: Config)
    requires m.state == Stopped && !m.server && !m.task && !cfg.fsEnabled
    ensures var t0 := TryOnce(Apply(m, BeginStart), LateEntryScript(0), false, AsWritten);
            && !t0.1 && t0.0.m.state == Running && !t0.0.m.ready && !t0.0.m.task && !t0.0.m.server
    ensures var o := StartAsWritten(m, LateEntryScript, cfg);
            && o.m.state == Stopped && |o.delays| == MaxAttempts
  {
    var at := AttemptsOf(LateEntryScript, cfg, AsWritten);
    var b := MsToTicks(50, cfg.tickRateHz);
    var m0 := Apply(m, BeginStart);
    StartLoop(m, LateEntryScript, cfg, AsWritten);
    LateEntryAttemptZero(m0, AsWritten);
    assert at(m0, 0) == TryOnce(m0, LateEntryScript(0), false, AsWritten);
    var m3 := at(m0, 0).0.m;
    FailedAttemptWaits(m0, at, 0, b);
    // Attempts 1 to 4 start from RUNNING and cannot succeed.
    AttemptsEnd(m3, at, AsWritten, 1, Double(b));
    AttemptsDelays(m3, at, AsWritten, 1, Double(b));
  }

  /** An attempt from STARTING with no engine and no worker, in which
      everything succeeds and the new worker commits within the wait, ends
      RUNNING with READY_BIT, an engine and that worker, whatever the worker
      would have done later. */
  lemma FreshAttemptSucceeds(m: Module, a: Attempt, v: Variant)
    requires m.state == Starting && !m.ready && !m.server && !m.task
    requires a.engineRc == Ok && a.registerRcs == [] && a.taskCreated && a.commits
    ensures var t := TryOnce(m, a, false, v);
            && t.1 && t.0.delays == []
            && t.0.m == m.(state := Running, ready := true, server := true, task := true, entered := true,
                           taskExit := false, maxSockets := DefaultMaxOpenSockets)
  {
    var m1 := m.(server := true, maxSockets := DefaultMaxOpenSockets);
    BuiltinsAccepted(m1);
    assert StartServer(m, a, false) == (Do(m, EngineStart(Ok)), Ok);
    var m2 := m1.(task := true, taskExit := false, entered := false);
    assert StartWorkerTask(m1, true, v).0.m == m2;
    assert Apply(m2, Entry(v)) == m2.(state := Running, ready := true, entered := true);
  }

  /** The late worker's entry check finds STARTING and no exit request yet,
      so it commits RUNNING and sets READY_BIT in both variants: only the
      undo can put the failed attempt back to STARTING. */
  lemma LateEntryCommitsInBothVariants(m: Module, v: Variant)
    requires m.state == Starting && m.task && !m.entered && !m.taskExit
    ensures Apply(m, Entry(v)) == m.(state := Running, ready := true, entered := true)
  {
  }

  /** With the corrected undo, which puts a RUNNING module back to STARTING
      once the worker and the engine are stopped, attempt 0 leaves the module
      STARTING, and attempt 1 brings it to a valid RUNNING after one wait.
      The corrected entry check alone would not do, as
      `LateEntryCommitsInBothVariants` shows. */
  lemma LateEntryRetriesCorrected(m: Module, cfg: Config)
    requires m.state == Stopped && !m.server && !m.task && !cfg.fsEnabled
    ensures var o := Start(m, LateEntryScript, cfg);
            && o.m.state == Running && Valid(o.m) && o.delays == [MsToTicks(50, cfg.tickRateHz)]
  {
    var at := AttemptsOf(LateEntryScript, cfg, Corrected);
    var m0 := Apply(m, BeginStart);
    LateEntryAttemptZero(m0, Corrected);
    var t0 := at(m0, 0);
    assert t0 == TryOnce(m0, LateEntryScript(0), false, Corrected);
    var m3 := t0.0.m;
    FreshAttemptSucceeds(m3, LateEntryScript(1), Corrected);
    assert at(m3, 1) == TryOnce(m3, LateEntryScript(1), false, Corrected);
    SecondAttemptEndsLoop(m0, at, MsToTicks(50, cfg.tickRateHz));
    StartLoop(m, LateEntryScript, cfg, Corrected);
  }
}
