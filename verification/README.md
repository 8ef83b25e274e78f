# A Dafny model of the `http_srv` embedded HTTP server component

This project models the core of an ESP-IDF component that runs an HTTP
server with a FreeRTOS worker task and serves static assets from a LittleFS
volume. The core lives in `components/http_server/http_server.cpp` and its
public interface in `components/http_server/include/http_server.hpp`. The
project covers two parts.

**Static assets.**
- `Resolver` models `resolve_fs_path`. It maps a request URI to a file on
  the volume. A URI without a leading `/`, or containing `..`, is refused
  before the volume is touched. A directory URI gets `index.html`. A
  request for `x.gz` names the same logical file as `x`. The `.html` and
  `.htm` spellings alias each other. A pre-compressed `.gz` sibling is
  preferred, and the content type always comes from the logical name.
- `ContentType` models the extension table.
- `Status` models the status-line table.
- `Streamer` models `send_file_stream`. It sends chunks of at most
  1024 bytes, then a zero-length terminator, and stops at the first chunk
  the engine rejects.
- `Handlers` models `try_serve_from_fs` and the two built-in routes. They
  fall back to the embedded asset on "not found" and "not supported", and
  answer any other failure with a 500.
- `FsConfig` models the mount-point and label configuration and the
  once-only mount.

**Lifecycle.**
- The module state lives in `ServerState`: `s_state`, the event group's
  READY_BIT, `s_server`, `s_task`, `s_task_exit`, `s_max_open_sockets` and
  the mounted flag. It also records whether the current worker has run its
  entry check, the locked region at the top of `http_srv_task`. A worker
  always runs that check before it can exit.
- Every region the code runs under `s_mutex` is one atomic `Step`. The
  operations are sequences of steps, and each one returns the steps it took
  (`Outcome.trace`). So "only a worker's entry check enters RUNNING" is a
  lemma about traces.
- `Lifecycle` models `start` with its five attempts and doubling backoff,
  `stop`, `is_running`, `wait_until_running` and their helpers.
  `start` comes in two variants. `StartAsWritten` follows the code.
  `Start` carries the three fixes listed under "## Findings":
  - a reused worker has its exit request withdrawn;
  - the worker's entry check does not commit while an exit request is
    pending;
  - a failed attempt that finds the module RUNNING once the worker and the
    engine are stopped puts it back to STARTING (the `Rearm` step).

  The rest of the model uses `Start`.
- `Routes` models `register_uri`, `unregister_uri`, the internal
  registration and `close_all_sessions`.

**Inputs.** What the outside world does is an input to the model:
- the engine's answers to `httpd_start`, registrations and sends;
- the flash driver's answer to the mount;
- whether the worker task is created;
- whether the worker runs its entry check within the 500 ms wait;
- whether a worker that missed the wait runs its entry check before
  `stop_worker_task` asks it to exit;
- whether the worker exits within `stop_worker_task`'s polling window.

A script of engine answers is a `seq<Err>`, and calls past its end succeed.
`start` draws one `Attempt` record per attempt.

`TickType_t` is 32 bits wide. Its wrap-around in the backoff update
`backoff + backoff` is written out as `% 2^32`. `pdMS_TO_TICKS` is
`ms * rate / 1000`, truncated to 32 bits.

## Model

| member | source | states |
|---|---|---|
| Text.HasDotDot | components/http_server/http_server.cpp:332-335 | the traversal guard holds exactly when ".." occurs at some position of the URI, including inside a segment |
| ContentType.DefaultOnlyWithoutExtension | components/http_server/http_server.cpp:343-373 | a path is served as plain text exactly when none of the table's extensions ends it |
| ContentType.TableTypesAreNotPlain | components/http_server/http_server.cpp:345-371 | no extension of the table selects the plain-text default |
| ContentType.LookupFirstMatch | components/http_server/http_server.cpp:343-373 | a path gets the type of the first extension in table order that ends it |
| ContentType.DependsOnlyOnSuffix | components/http_server/http_server.cpp:343-373 | only the last six characters of a path decide its type |
| ContentType.HtmlSpellingsAgree | components/http_server/http_server.cpp:345-346 | the `.html` and `.htm` spellings of a page both get the HTML type |
| ContentType.GzNameWouldBePlain | components/http_server/http_server.cpp:343-373 | a physical `.gz` name would be served as plain text, which is why the type is taken from the logical name |
| Status.StatusFor | components/http_server/http_server.cpp:170-199 | the status line starts with the requested code when the table knows it, and with 500 otherwise |
| Status.StatusLinesDistinguishKnownCodes | components/http_server/http_server.cpp:170-199 | two different known codes never share a status line |
| Status.UnknownCodeIsServerError | components/http_server/http_server.cpp:196-197 | an unknown code gets the same line as 500 |
| FsConfig.ResolveFsBase | components/http_server/http_server.cpp:92-117 | the mount point always starts with '/': the default for an empty setting, the setting with '/' prepended when it lacks one, otherwise the setting unchanged |
| FsConfig.ResolveFsBaseIdempotent | components/http_server/http_server.cpp:92-117 | correcting an already corrected mount point changes nothing |
| FsConfig.ResolveFsLabel | components/http_server/http_server.cpp:119-130 | the partition label is never empty: an empty setting gives the default "littlefs", and a non-empty setting is kept |
| FsConfig.EnsureFsMounted | components/http_server/http_server.cpp:283-330 | the volume counts as mounted exactly when the call returns OK; once mounted the driver is not called again; otherwise its code is passed on |
| FsConfig.MountIsMonotonic | components/http_server/http_server.cpp:290-294 | a mounted volume stays mounted whatever the driver would answer later |
| Resolver.Candidates | components/http_server/http_server.cpp:432-455 | the logical path is tried first; a second candidate exists exactly when the path names an HTML page |
| Resolver.Search | components/http_server/http_server.cpp:457-480 | the probes follow the fixed order (".gz", then plain, per candidate) and stop at the first hit; a hit is found exactly when some candidate exists in either form; the result serves that candidate with its type; a miss clears every output |
| Resolver.PrependMissedCandidate | components/http_server/http_server.cpp:457-480 | a candidate missed in both forms adds its two probes in front, keeping the probes a prefix of the probe order and every probe but the last a miss |
| Resolver.ResolveFsPath | components/http_server/http_server.cpp:386-404 | a missing URI, one without a leading '/' and one with ".." are refused without probing the volume |
| ResolverFacts.NormalizeDirectory | components/http_server/http_server.cpp:408-411 | a directory URI is served by its `index.html` |
| ResolverFacts.NormalizeStripsGz | components/http_server/http_server.cpp:417-421 | a request for `p.gz` names the logical file `p` |
| ResolverFacts.NormalizeKeepsPlainFile | components/http_server/http_server.cpp:406-421 | any other URI is its own logical path |
| ResolverFacts.BareGzProbesRootOnly | components/http_server/http_server.cpp:408-421 | "/.gz" becomes "/" only after the root rule has run, so it probes "<base>/.gz" and "<base>/" and never the index page |
| ResolverFacts.AliasOfStem | components/http_server/http_server.cpp:436-455 | the alias swaps ".html" and ".htm" on the same stem |
| ResolverFacts.AliasInvolution | components/http_server/http_server.cpp:436-455 | the alias of an alias is the original name |
| ResolverFacts.CandidatesAreAliasPair | components/http_server/http_server.cpp:432-455 | the candidates are the logical path and exactly its alias when it is an HTML page, and only the path otherwise |
| ResolverFacts.ResolvedIffSomeCandidateExists | components/http_server/http_server.cpp:386-481 | resolution succeeds exactly when the URI is acceptable and one of its candidates exists, compressed or plain |
| ResolverFacts.FoundServesCandidate | components/http_server/http_server.cpp:457-478 | a found file exists, serves a candidate with that candidate's type, and every earlier probe missed |
| ResolverFacts.ResolutionFollowsLogicalPath | components/http_server/http_server.cpp:386-481 | two acceptable URIs with the same logical path resolve identically |
| ResolverFacts.GzSpellingSameLogicalPath | components/http_server/http_server.cpp:406-421 | "p.gz" and "p" name the same logical path, and "p" is acceptable when "p.gz" is |
| ResolverFacts.GzRequestResolvesLikePlain | components/http_server/http_server.cpp:417-478 | requesting `p.gz` resolves exactly like requesting `p`: what exists on the volume chooses compression |
| ResolverFacts.TraversalNeverProbes | components/http_server/http_server.cpp:399-404 | a URI containing ".." is refused with no probe, whatever the volume holds |
| ResolverFacts.CompressedVariantPreferred | components/http_server/http_server.cpp:457-478 | an example: "/a.html" is served from "a.html.gz" when both files exist, and plain when only "a.html" exists |
| ResolverFacts.SearchSkipsMissing | components/http_server/http_server.cpp:457-478 | a candidate absent in both forms costs two probes, and the search moves on |
| ResolverFacts.SearchFindsPlain | components/http_server/http_server.cpp:468-476 | a candidate present only in plain form is served uncompressed after two probes |
| ResolverFacts.HtmCandidates | components/http_server/http_server.cpp:446-455 | a ".htm" request tries its own name, then the ".html" name |
| ResolverFacts.HtmFallsBackToHtml | components/http_server/http_server.cpp:446-478 | a ".htm" request whose own spelling is absent is served from the ".html" file with the HTML type, after four probes in order |
| ResolverFacts.HtmAliasFindsHtml | components/http_server/http_server.cpp:446-478 | an example: "/page.htm" is served from "/page.html" when only that file exists |
| ResolverFacts.SecretsRefused | components/http_server/http_server.cpp:399-404 | an example: "/../secrets.txt" is refused even when the file exists |
| Streamer.ChunksReassemble | components/http_server/http_server.cpp:510-531 | the chunks read back concatenate to the file; each holds 1 to 1024 bytes, and all but the last are full |
| Streamer.SendChunks | components/http_server/http_server.cpp:510-536 | the loop sends the chunks up to and including the first rejected one and returns its code, or sends them all and the terminator and returns the terminator's code |
| Streamer.SendFileStream | components/http_server/http_server.cpp:483-537 | the streamer's response and code are those of the reference outcome, for an unopenable file and for every file content |
| Streamer.StreamDeliversFile | components/http_server/http_server.cpp:510-536 | when the engine accepts every chunk, the body is exactly the file in bounded chunks, the stream is terminated and has the resolved type |
| Streamer.StreamStopsAtRejectedChunk | components/http_server/http_server.cpp:521-526 | a rejected chunk ends the stream without a terminator, and its code is returned |
| Streamer.StreamHeadersMatchEncoding | components/http_server/http_server.cpp:502-508 | gzip encoding is declared exactly when the compressed file is sent, and the no-cache headers always follow |
| Streamer.OpenFailureIsServerError | components/http_server/http_server.cpp:487-499 | a file that cannot be opened gets a 500 plain-text "File open failed" response instead of a stream |
| Streamer.EmptyFileSendsOnlyTerminator | components/http_server/http_server.cpp:510-536 | an empty file sends no data chunk, only the terminator |
| Handlers.TryServeFromFs | components/http_server/http_server.cpp:540-567 | disabled gives "not supported"; an empty URI gives "invalid request"; a failed mount gives "not supported"; a URI that does not resolve gives "not found" and no response; a resolved one gives the streamer's response and code for the file as it is at open time |
| Handlers.FallbackFor | components/http_server/http_server.cpp:573-592 | success is final; "not found" and "not supported" fall back to the embedded asset; every other code gets a 500 |
| Handlers.RootWithoutVolumeServesEmbeddedPage | components/http_server/http_server.cpp:573-592 | with assets disabled the root route sends only the embedded page, as HTML with no-cache headers |
| Handlers.MissingAssetFallsBack | components/http_server/http_server.cpp:573-617 | an asset missing from the volume is answered with the embedded fallback alone |
| Handlers.MountFailureFallsBack | components/http_server/http_server.cpp:551-554 | a volume that fails to mount is treated like a disabled one |
| Handlers.StreamedThenFallback | components/http_server/http_server.cpp:573-592 | whenever the volume produced a response, the route sends it first and then exactly the fallback its code calls for: nothing on success, the embedded asset on "not found" or "not supported", a 500 otherwise |
| Handlers.ResolvedAssetIsStreamed | components/http_server/http_server.cpp:540-592 | a present asset is streamed in full with its type; the handler succeeds when the terminator is accepted; a terminator refused with "not found" or "not supported" is followed by the embedded asset, any other refusal by a 500, and the handler then returns that send's code |
| Handlers.VanishedAssetIsServerError | components/http_server/http_server.cpp:483-592 | a resolved file that vanished before the open is answered with the streamer's 500; the handler succeeds when that send is accepted; a send refused with "not found" or "not supported" is followed by the embedded asset, any other refusal by the handler's own 500, and the handler then returns that send's code |
| Handlers.EmptyUriIsServerError | components/http_server/http_server.cpp:546-549 | an empty request URI is an invalid request, which the built-in routes answer with a 500 |
| ServerState.OnlyCommitEntersRunning | components/http_server/http_server.cpp:758-765 | the only step that enters RUNNING is a worker's first entry check while STARTING, and it sets READY_BIT |
| ServerState.RunningNeedsCommit | components/http_server/http_server.cpp:754-804 | any run of steps that reaches RUNNING from elsewhere contains a worker's entry check |
| ServerState.ReadyOnlyWithCommit | components/http_server/http_server.cpp:758-765 | READY_BIT is only ever set by an entry check that moves STARTING to RUNNING |
| ServerState.OnlyWorkerClearsTask | components/http_server/http_server.cpp:754-802 | only the worker's own exit, after its entry check and an exit request, clears the task handle |
| ServerState.MountedStaysMounted | components/http_server/http_server.cpp:283-330 | no step unmounts the volume |
| ServerState.InitialIsValid | components/http_server/http_server.cpp:62-80 | the boot state is STOPPED and satisfies the module invariant |
| ServerState.PendingExitTakesWorker | components/http_server/http_server.cpp:768-780 | an entered worker with a pending exit request exits, taking READY_BIT and the task handle with it and leaving the state alone, so a RUNNING module becomes invalid |
| ServerState.RunningWorkerStays | components/http_server/http_server.cpp:768-780 | in a valid RUNNING module the worker's exit step changes nothing |
| Routes.RegisterUriInternal | components/http_server/http_server.cpp:623-653 | a null argument gives "invalid argument"; STARTING or RUNNING with an engine gets the engine's code; anything else gives "invalid state" |
| Routes.RegisterUri | components/http_server/http_server.cpp:1117-1151 | a null argument gives "invalid argument"; a module not fully running gives "invalid state"; otherwise the engine's code |
| Routes.UnregisterUri | components/http_server/http_server.cpp:1153-1179 | the same three outcomes, with the uri the only argument checked |
| Routes.RegisterUriStricterThanInternal | components/http_server/include/http_server.hpp:85-102 | a public registration succeeds only when fully running, and then the internal one would too; the two differ only while STARTING |
| Routes.RegisterAndUnregisterAgree | components/http_server/include/http_server.hpp:104-118 | registration and unregistration accept exactly the same modules |
| Routes.RegisterRoutesFirstFailure | components/http_server/http_server.cpp:710-745 | the built-in registrations return the engine's answer to the first refused route, or success when all are accepted |
| Routes.LiveSockets | components/http_server/http_server.cpp:236-243 | every live descriptor of the list is closed, and nothing else |
| Routes.CloseAllSessions | components/http_server/http_server.cpp:210-245 | nothing is closed without an engine, with a zero socket bound, or when listing fails; otherwise exactly the live clients among the first `s_max_open_sockets` listed |
| Lifecycle.WaitUntilRunning | components/http_server/http_server.cpp:1081-1115 | RUNNING gives OK at once; STOPPED and STOPPING, and only they, give "invalid state"; in STARTING, OK exactly when READY_BIT is already set or the commit comes within a non-zero timeout |
| Lifecycle.StartWith | components/http_server/http_server.cpp:937-1013 | `start` for either variant; its contracts are `LifecycleFacts.StartOnlyFromStopped`, `StartLoop`, `AttemptsEnd` and `AttemptsDelays` |
| Lifecycle.Start | components/http_server/http_server.cpp:937-1013 | `start` with the corrected worker reuse, entry check and undo; its contract is `LifecycleFacts.StartPreservesValid` |
| Lifecycle.StartAsWritten | components/http_server/http_server.cpp:937-1013 | `start` as the code reads; its behaviour is shown by `LifecycleFacts.StaleExitFlagAsWritten`, `ExitedWorkerBlocksRetriesAsWritten` and `LateEntryBlocksRetriesAsWritten` |
| Lifecycle.Stop | components/http_server/http_server.cpp:1015-1062 | `stop`; its contracts are `LifecycleFacts.StopFacts`, `StopIdempotent` and `NothingRunsAfterStop` |
| Lifecycle.IsRunning | components/http_server/http_server.cpp:1064-1079 | `is_running`; its contract is `LifecycleFacts.RunningMeansReady` |
| Lifecycle.TryOnce | components/http_server/http_server.cpp:969-1004 | one attempt; its contracts are `LifecycleFacts.TryOnceFacts` and `TryOnceExplains` |
| Lifecycle.AwaitReady | components/http_server/http_server.cpp:986-1004 | the wait for READY_BIT and the undo; its contract is `LifecycleFacts.AwaitReadyFacts` |
| Lifecycle.UndoAttempt | components/http_server/http_server.cpp:998-999 | the undo of a failed attempt; its contract is `LifecycleFacts.UndoAttemptFacts` |
| Lifecycle.StartServer | components/http_server/http_server.cpp:681-748 | `start_server`; its contracts are `LifecycleFacts.StartServerKeeps`, `StartServerFacts` and `StartServerIdempotent` |
| Lifecycle.StopServer | components/http_server/http_server.cpp:655-679 | `stop_server`; its contract is `LifecycleFacts.StopServerFacts` |
| Lifecycle.StartWorkerTask | components/http_server/http_server.cpp:833-883 | `start_worker_task`; its contract is `LifecycleFacts.StartWorkerTaskFacts` |
| Lifecycle.StopWorkerTask | components/http_server/http_server.cpp:885-922 | `stop_worker_task`; its contract is `LifecycleFacts.StopWorkerTaskFacts` |
| ContentType.ContentTypeForPath | components/http_server/http_server.cpp:343-373 | the extension table; its contracts are `ContentType.LookupFirstMatch`, `DefaultOnlyWithoutExtension` and `DependsOnlyOnSuffix` |
| Text.EndsWith | components/http_server/http_server.cpp:337-341 | the suffix test; its facts are `Text.EndsWithAppend`, `EndsWithSplit` and `EndsWithTail` |
| Resolver.Normalize | components/http_server/http_server.cpp:406-421 | the logical path starts with '/'; its contracts are `ResolverFacts.NormalizeDirectory`, `NormalizeStripsGz` and `NormalizeKeepsPlainFile` |
| Streamer.Chunks | components/http_server/http_server.cpp:510-531 | the file read in 1024-byte chunks; its contract is `Streamer.ChunksReassemble` |
| Handlers.HandleRoot | components/http_server/http_server.cpp:573-592 | `handle_root`; its contracts are `Handlers.RootWithoutVolumeServesEmbeddedPage`, `MissingAssetFallsBack` and `ResolvedAssetIsStreamed` |
| Handlers.HandleFavicon | components/http_server/http_server.cpp:594-617 | `handle_favicon_ico`; its contracts are those of the shared built-in route: `Handlers.MissingAssetFallsBack`, `MountFailureFallsBack` and `ResolvedAssetIsStreamed` |
| ServerState.Apply | components/http_server/http_server.cpp:754-1062 | the effect of each locked region; its contracts are `ServerState.OnlyCommitEntersRunning`, `ReadyOnlyWithCommit`, `OnlyWorkerClearsTask` and `MountedStaysMounted` |
| LifecycleFacts.StartServerKeeps | components/http_server/http_server.cpp:681-748 | without an engine, starting the server leaves an engine exactly on success, passes on the engine's failure code, and leaves the state, READY_BIT and the worker alone |
| LifecycleFacts.StartServerFacts | components/http_server/http_server.cpp:681-748 | while STARTING, starting the server succeeds exactly when the engine starts and accepts all four built-in routes |
| LifecycleFacts.StartServerIdempotent | components/http_server/http_server.cpp:688-692 | with an engine already present, starting the server succeeds at once and changes nothing |
| LifecycleFacts.StopServerFacts | components/http_server/http_server.cpp:655-679 | stopping the server leaves no engine and changes nothing else |
| LifecycleFacts.StartWorkerTaskFacts | components/http_server/http_server.cpp:833-883 | success means a worker exists; a newly created worker has no exit request and has not run its entry check; as written, an existing worker is kept untouched |
| LifecycleFacts.StopWorkerTaskFacts | components/http_server/http_server.cpp:885-922 | success means no worker is left; READY_BIT can only be cleared; the engine is untouched; the state is untouched except that, as written, a worker exiting in STARTING before its entry check commits RUNNING on its way out; a worker that exits takes READY_BIT with it, and one that does not is left as it was |
| LifecycleFacts.UndoAttemptFacts | components/http_server/http_server.cpp:998-999 | undoing a failed attempt leaves no engine; as written it keeps the state except for a worker committing RUNNING on its way out; corrected, it never leaves RUNNING; READY_BIT survives only with RUNNING and a worker that was not made to exit |
| LifecycleFacts.AwaitReadyFacts | components/http_server/http_server.cpp:986-1004 | with an engine and a worker up, READY_BIT is seen exactly when it is already set or the worker's first entry check runs in STARTING within the wait (and, corrected, finds no exit request); a late entry check does not rescue the attempt; otherwise the worker and engine are stopped, leaving STARTING, or, as written, possibly RUNNING; outside STARTING without READY_BIT the state is kept |
| LifecycleFacts.TryOnceFacts | components/http_server/http_server.cpp:969-1004 | an attempt either reaches RUNNING with READY_BIT, an engine and a worker past its entry check, or fails with neither engine nor READY_BIT, in STARTING or, as written, in RUNNING; an engine failure always fails; an attempt begun in RUNNING without READY_BIT always fails |
| LifecycleFacts.AttemptsOfWellBehaved | components/http_server/http_server.cpp:969-1004 | every attempt of `start`, from any head-of-attempt state including the as-written RUNNING one, keeps the attempt contract |
| LifecycleFacts.AttemptsEnd | components/http_server/http_server.cpp:969-1012 | the attempt loop ends RUNNING with READY_BIT, engine and worker, or STOPPED with neither; if no attempt can succeed, or an earlier attempt left RUNNING behind without READY_BIT, it ends STOPPED |
| LifecycleFacts.AttemptsDelays | components/http_server/http_server.cpp:967-1004 | one delay per failed attempt: all five when giving up, fewer on success, each the double of the last |
| LifecycleFacts.AttemptsWaitCount | components/http_server/http_server.cpp:968-1004 | the loop waits once for every attempt from `k` on when it gives up, and fewer times when an attempt succeeds |
| LifecycleFacts.AttemptsWaitBackoffs | components/http_server/http_server.cpp:966-1004 | the loop's waits are the initial backoff doubled once per wait, with 32-bit wrap-around |
| LifecycleFacts.FailedAttemptWaits | components/http_server/http_server.cpp:998-1004 | after a failed attempt the loop waits once with the current backoff and goes on with the next attempt and the doubled backoff |
| LifecycleFacts.SecondAttemptEndsLoop | components/http_server/http_server.cpp:968-1004 | when attempt 0 fails and attempt 1 succeeds, `start` waits exactly once, with the initial backoff, and ends where attempt 1 does |
| LifecycleFacts.AttemptsExplain | components/http_server/http_server.cpp:969-1012 | the loop's recorded steps lead from its start to its result |
| LifecycleFacts.StartLoop | components/http_server/http_server.cpp:937-967 | `start` from STOPPED enters STARTING with the exit request and READY_BIT clear and runs the attempt loop from a 50 ms backoff |
| LifecycleFacts.StartPreservesValid | components/http_server/http_server.cpp:937-1013 | with the corrected worker reuse, entry check and undo, `start` from a valid STOPPED module ends RUNNING or STOPPED and valid, and RUNNING only via an entry check |
| LifecycleFacts.StartOnlyFromStopped | components/http_server/http_server.cpp:947-955 | `start` returns at once while running, starting or stopping |
| LifecycleFacts.StartRunningOnlyByCommit | components/http_server/include/http_server.hpp:34-36 | every `start`, as written or corrected, reaches RUNNING only through a worker's entry check |
| LifecycleFacts.BackoffsFive | components/http_server/http_server.cpp:964-1004 | five backoffs from a small enough start are that start times 1, 2, 4, 8 and 16 |
| LifecycleFacts.StartBackoffNeverWraps | components/http_server/http_server.cpp:964-1004 | at tick rates from 1 to 1000 Hz the 32-bit backoff never wraps: the delays are 50 ms in ticks times 1, 2, 4, 8, 16, at most five |
| LifecycleFacts.StartGivesUp | components/http_server/http_server.cpp:1006-1012 | when the engine never starts, `start` ends STOPPED without READY_BIT or engine after five delays (50 to 800 ticks at 1000 Hz) |
| LifecycleFacts.StopFacts | components/http_server/http_server.cpp:1015-1062 | `stop` does nothing on STOPPED; from any other state it ends STOPPED with no READY_BIT or engine, and the module is valid afterwards |
| LifecycleFacts.StopIdempotent | components/http_server/include/http_server.hpp:40-48 | a second `stop` does nothing |
| LifecycleFacts.NothingRunsAfterStop | components/http_server/http_server.cpp:1015-1189 | after `stop` the module is not running, refuses registration and unregistration, is "invalid state" to waiters, and a valid one has no sessions to close |
| LifecycleFacts.StopTearsDownStarting | components/http_server/http_server.cpp:1029-1041 | `stop` on a STARTING module tears it down to STOPPED |
| LifecycleFacts.RunningMeansReady | components/http_server/include/http_server.hpp:50-83 | on a valid module, running implies an engine, a worker and READY_BIT, and a zero-timeout wait is exactly `is_running` |
| LifecycleFacts.StaleExitFlagAsWritten | components/http_server/http_server.cpp:840-846 | as written, from any STOPPED module without engine or worker, a worker reused after a failed attempt keeps its exit request, so `start` returns RUNNING after one wait with an invalid module, which the worker's pending wake-up leaves without READY_BIT or worker |
| LifecycleFacts.ExitedWorkerBlocksRetriesAsWritten | components/http_server/http_server.cpp:754-804 | as written, from any STOPPED module without engine or worker, a new worker that first runs when asked to exit commits RUNNING and then exits, so the failed attempt leaves RUNNING without READY_BIT, worker or engine, and `start` gives up STOPPED after five waits although every later attempt succeeds |
| LifecycleFacts.ExitedWorkerRetriesCorrected | components/http_server/http_server.cpp:969-1004 | with an entry check that commits only without a pending exit request, the same script ends in a valid RUNNING module after one wait |
| LifecycleFacts.StaleExitFlagCorrected | components/http_server/http_server.cpp:840-846 | with the request withdrawn on reuse, the same scenario ends valid and RUNNING after one wait, and the worker stays |
| LifecycleFacts.FreshAttemptSucceeds | components/http_server/http_server.cpp:969-997 | an attempt from STARTING with no engine or worker, whose engine, routes and new worker all succeed in time, ends RUNNING with READY_BIT, engine and that worker, and no exit request |
| LifecycleFacts.SlowAttemptZero | components/http_server/http_server.cpp:986-1003 | a new worker that neither commits in time nor exits when asked makes the attempt fail in STARTING with no engine, the worker still alive and its exit request set |
| LifecycleFacts.ReusedWorkerCommits | components/http_server/http_server.cpp:840-846 | a worker kept from a failed attempt commits in the next one; as written its exit request stays set, and corrected it is withdrawn |
| LifecycleFacts.EarlyExitAttemptZero | components/http_server/http_server.cpp:758-766 | a new worker that first runs when asked to exit makes the attempt fail with no engine or worker; as written its entry check commits RUNNING on the way out, corrected the module stays STARTING |
| LifecycleFacts.LateEntryCommitsInBothVariants | components/http_server/http_server.cpp:758-766 | an entry check that finds STARTING and no exit request commits RUNNING and READY_BIT in both variants |
| LifecycleFacts.LateEntryAttemptZero | components/http_server/http_server.cpp:986-1003 | in the late-entry scenario attempt 0 fails with no engine or worker, leaving RUNNING as written and STARTING corrected |
| LifecycleFacts.LateEntryBlocksRetriesAsWritten | components/http_server/http_server.cpp:986-1003 | as written, from any STOPPED module without engine or worker, a new worker whose entry check runs after the wait but before the exit request commits RUNNING and then exits, so the failed attempt leaves RUNNING without READY_BIT, worker or engine, and `start` gives up STOPPED after five waits although every later attempt succeeds |
| LifecycleFacts.LateEntryRetriesCorrected | components/http_server/http_server.cpp:986-1003 | the corrected entry check alone still commits on a late entry; with the corrected undo the same script ends in a valid RUNNING module after one wait |

## Left out

- The mutex and real concurrency are not modelled. Each locked region is
  one atomic step, and the operations run one after another. Interleavings
  of `stop` with a `start` in progress, or with a registration, are not
  modelled.
- `lock_mutex` timeouts and `ensure_mutex` failures are not modelled.
  These are the `ESP_FAIL` paths of every public function, and the
  "could not lock" branches of the helpers. Every lock is taken to succeed.
- `start_worker_task`'s second lock failure and its race with a concurrent
  creator (source lines 867-877) are not modelled: creation is a single
  step.
- The engine's route table and wildcard matching belong to ESP-IDF. They
  are not modelled; the engine's answers are inputs.
- The worker's own scheduling is not modelled. Its entry check runs at one
  of three points, chosen by the inputs: within the 500 ms wait; after the
  wait but before `stop_worker_task` asks it to exit; or, for a worker
  asked to exit, just before it exits. An entry check between the undo of a
  failed attempt and the next attempt is not a separate input. As written
  it has the same effect as a late entry whose worker does not exit. In the
  corrected variant it finds the exit request and does not commit.
- The worker's deferred work is not modelled; the source has none. Its
  notification counter is not modelled either: "the worker exits when
  asked" is an input.
- Time is not modelled. The 500 ms readiness wait, the
  `wait_until_running` timeout and `stop_worker_task`'s 50 x (50 + 20) ms
  polling window each become a boolean input saying whether the event came
  in time. Only the backoff delays are recorded, in ticks.
- The logging and the `esp_littlefs_info` report are left out.
  `format_if_mount_failed` is also left out: the driver's result is an input.
- Short reads caused by `fread` errors are not modelled (the loop would end
  early and send the terminator). A file is read in full.
- The compiled-in page and icon (`http_pages.hpp`) are not part of this
  model. They are parameters of the handlers.
- The example application `examples/basic/main/main.cpp` is not part of
  this model.
- A null request in `try_serve_from_fs` is not modelled: requests are
  values. Only the empty-URI half of that check is modelled.
- `send_template` is modelled only as the whole-body send that `handle_root`
  makes.
- The `close_all_sessions` model returns the sockets asked to close. The
  engine's own close procedure is not modelled. Note that the source checks
  for an engine, not for RUNNING, so sessions are closed during STARTING as
  well.
- Lifecycle.WaitUntilRunning: `ESP_FAIL` is not modelled, because lock
  failures are out of scope.
- The interface comment on `stop` says it returns immediately when the
  module is not running. The code returns immediately only on STOPPED, and
  tears down a STARTING or STOPPING module. The model follows the code
  (`LifecycleFacts.StopTearsDownStarting`).

## Findings

| source | as written | input that shows it | evidently intended | confidence | as-written member | corrected member |
|---|---|---|---|---|---|---|
| components/http_server/http_server.cpp:840-846 | `start_worker_task` returns success on an existing task without clearing `s_task_exit`. A failed attempt's `stop_worker_task` set that flag and notified the worker. The worker can still be alive if it did not exit within the polling window, and the next attempt reuses it. | Attempt 0: the engine starts and the worker is created, but it neither commits within 500 ms nor exits when asked. Attempt 1: everything succeeds. `start` returns RUNNING with the exit flag set. The worker's pending notification then makes it exit: READY_BIT is cleared and no worker is left, while the state stays RUNNING. | A reused worker has its exit request withdrawn, so `start` ends in a valid RUNNING module whose worker stays | medium, not executed | LifecycleFacts.StaleExitFlagAsWritten | LifecycleFacts.StaleExitFlagCorrected |
| components/http_server/http_server.cpp:758-766 | The worker's entry check commits RUNNING whenever it finds STARTING, even when an exit has already been requested. A new worker that first runs only after the 500 ms wait has ended, when `stop_worker_task` has asked it to exit, commits RUNNING with READY_BIT and then exits at once, clearing READY_BIT and `s_task`. The failed attempt leaves the module RUNNING with no engine, worker or READY_BIT. The next attempt's worker finds RUNNING, not STARTING, and never commits, so every later attempt fails. | Attempt 0: the engine starts and the worker is created, but it runs its entry check only after the wait, and exits when asked. Attempts 1 to 4: everything succeeds. `start` still waits five times and ends STOPPED. Between attempt 0 and the end, `is_running` reports true with no engine. | A worker that finds an exit request pending does not commit, so the failed attempt stays STARTING and attempt 1 ends in a valid RUNNING module. This covers a worker that first runs once asked to exit; one that runs between the wait and the exit request is the next row | medium, not executed | LifecycleFacts.ExitedWorkerBlocksRetriesAsWritten | LifecycleFacts.ExitedWorkerRetriesCorrected |
| components/http_server/http_server.cpp:986-1003 | A failed attempt stops the worker and the engine but never puts the state back to STARTING. A new worker whose entry check runs after the wait has timed out, but before `stop_worker_task` sets `s_task_exit`, finds STARTING and no exit request. It commits RUNNING with READY_BIT, and that check passes even with the exit guard of the previous row. It then exits when asked, and `stop_server` removes the engine. The attempt leaves RUNNING with no engine, worker or READY_BIT, and every later attempt fails as in the previous row. | Attempt 0: the engine starts and the worker is created; it misses the 500 ms wait, runs its entry check before the exit request, and exits when asked. Attempts 1 to 4: everything succeeds. `start` waits five times and ends STOPPED. | A failed attempt that finds RUNNING once the worker and the engine are stopped puts back STARTING and clears READY_BIT under the lock, so attempt 1 ends in a valid RUNNING module | medium, not executed | LifecycleFacts.LateEntryBlocksRetriesAsWritten | LifecycleFacts.LateEntryRetriesCorrected |
