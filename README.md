# Directory watch-and-dispatch, modelled in Dafny

This project models the watch manager of `internal/monitor/WatchManager.go`:
the part of the music library service that watches directories for new or
rewritten files and hands each finished file to the ingest handler.

- **Directory registry.** A map from directory path to its fsnotify watcher.
  `AddDir` registers a path at most once, opening one watcher and starting one
  router for it. `AddDirRecursive` does this for every directory a
  `filepath.Walk` visits, in walk order, and stops at the first error.
- **Debouncer.** A map from path to the time its last event was accepted. An
  event is accepted when the path has no entry or the entry is at least one
  second old, and accepting it records the new time.
- **Router.** The per-event body of `watchLoop`. It debounces the event, sends
  it on the shared queue of capacity 2048 (racing the stop signal), and
  registers the subtree of a newly created directory.
- **Stability check.** `isFileStable` polls the file's stat a fixed number of
  times.
- **Worker.** The per-event body of the worker pool. It stats the path, checks
  stability, calls the file-ready handler, and notifies only on success.
- **Lifecycle.** `NewWatchManager`, `StartWorkerPool` and `Stop`.

Files: `events.dfy` (events, op flags, stat results, walk items, watch
answers), `stability.dfy`, `debouncer.dfy`, `registry.dfy`, `router.dfy`,
`worker.dfy`, and `watch_manager.dfy` (the class `Monitor.WatchManager`, whose
methods update its fields in place).

Inputs from outside are parameters. The clock is an integer time in
nanoseconds. `os.Stat` answers are `StatResult` values, and the stability
check's answers come as a sequence of samples. `filepath.Walk` is a sequence of
`WalkItem`s in walk order. `fsnotify.NewWatcher` and `watcher.Add` are one
`WatchOpen` per registration attempt. The file-ready handler is a success flag.
The notifier is the list `notifications` of the paths it was told about.

`Stop` closes the stop signal (line 126) before it closes the queue (line
130), and a router may still reach the send at lines 99-103 after both are
closed. Both cases of that select are then ready, and when Go's random pick
falls on the send, the send on the closed queue panics. `Router.Step` models
this as the outcome `Panicked`, and `Router.PanicOnlyAfterQueueClosed` shows
it can happen only once the queue is closed.

The comment on `isFileStable` (line 135) calls it a file-size stability
check, which suggests a file whose size changes between samples is not
stable. The code does not do that, and the model follows the code. In
`isFileStable` (lines 144-148), a changed size only takes the same
sleep-and-continue path as an unchanged one. So the check fails only when a
stat fails or the path is a directory.
`Stability.IsFileStable` states exactly that, and `Stability.GrowingFileIsStable`
shows a file that grows between the worker's two samples being reported as
stable.

## Model

| member | source | states |
|---|---|---|
| `Events.HasCreateMeansCreate` | internal/monitor/WatchManager.go:105 | the router's flag test `Op&Create == Create` holds exactly when the event has kind Create |
| `Events.KindsOfBit` | internal/monitor/WatchManager.go:105 | each fsnotify flag is a single bit of its own: the flag alone has exactly its own kind |
| `Events.KindsOfUnion` | internal/monitor/WatchManager.go:176 | the kinds of a combined flag value (such as Create or Write) are the union of the kinds of its parts |
| `Events.HasCreateOrWriteMeansCreateOrWrite` | internal/monitor/WatchManager.go:176 | the worker's flag test (Create or Write bit set) holds exactly when the event has kind Create or Write |
| `Monitor.WatchManager.constructor` | internal/monitor/WatchManager.go:29-37 | a new manager has an empty registry, debounce map and queue, an open stop signal and no running router or worker |
| `Registry.Register` | internal/monitor/WatchManager.go:53-72 | an already registered path gives success and changes nothing; otherwise a failed watcher creation or `watcher.Add` returns that error with the registry unchanged, and success adds exactly `dir` with the new handle, leaves every other entry as it was, and starts exactly one router; success holds iff `dir` is registered afterwards |
| `Registry.RegisterTwice` | internal/monitor/WatchManager.go:56-58 | registering a path a second time succeeds with no new handle and no new router |
| `Monitor.WatchManager.AddDir` | internal/monitor/WatchManager.go:53-72 | the manager's registry and router count change exactly as `Register` says, and the manager invariant (one router per registered directory) is kept |
| `Registry.Walk` | internal/monitor/WatchManager.go:40-50 | the walk callback applied to the walk's items in order: files skipped, `AddDir` for each directory, the first error ends it; its contract is carried by `WalkFacts`, `WalkAppend`, `WalkStopsAtFirstError` and `WalkCount` |
| `Registry.WalkFacts` | internal/monitor/WatchManager.go:40-50 | recursive registration keeps every existing entry; it adds exactly the directories it starts a router for, each once, all of them directories of the walk (files are skipped) and none registered before; without an error every directory of the walk is registered; a returned error is the one a walk item or its `AddDir` produced |
| `Registry.WalkAppend` | internal/monitor/WatchManager.go:40-50 | walking `a ++ b` is walking `a` and then, only if that had no error, walking `b` from the registry `a` left; an error ends the walk |
| `Registry.WalkStopsAtFirstError` | internal/monitor/WatchManager.go:41-46 | when item `k` is the first to fail, the walk returns that error, the items after `k` have no effect, and directories registered before `k` stay registered |
| `Registry.WalkCount` | internal/monitor/WatchManager.go:40-50 | a walk with no errors over `d` distinct, not yet registered directories adds exactly `d` watches and starts `d` routers |
| `Monitor.WatchManager.AddDirRecursive` | internal/monitor/WatchManager.go:40-50 | the loop over the walk calls `AddDir` on each directory in order and returns the first error; the resulting registry, error and router count are those of `Walk` |
| `Debouncer.Filter` | internal/monitor/WatchManager.go:75-85 | an event is refused exactly when its path has an entry less than one second old, and then the map is unchanged; otherwise it is accepted, the path's entry becomes `now`, and every other path's entry is unchanged |
| `Monitor.WatchManager.Debounce` | internal/monitor/WatchManager.go:75-85 | the manager's answer and debounce map are those of `Filter` |
| `Debouncer.FilterKeepsEntry` | internal/monitor/WatchManager.go:79-83 | a path's entry never disappears and never moves back in time |
| `Debouncer.AcceptedAfterEntry` | internal/monitor/WatchManager.go:79-83 | once a path has an entry, every later accepted event on it comes at least one second after that entry |
| `Debouncer.AcceptedSpacing` | internal/monitor/WatchManager.go:75-85 | any two accepted events for the same path are at least one second apart, for any sequence of times |
| `Debouncer.BurstAcceptedOnce` | internal/monitor/WatchManager.go:75-85 | a burst of events on one path, all within one second of the first, which is accepted, has exactly one event accepted: the first |
| `Router.Push` | internal/monitor/WatchManager.go:99-103 | the send succeeds only when the queue is open and has room; it panics exactly when the queue is closed and the send is picked (always picked when the stop signal is open); the router returns only when the stop signal is closed; it waits exactly when the queue is open and full and the stop signal open; with room and both open the send happens |
| `Router.Step` | internal/monitor/WatchManager.go:92-110 | an event is queued only if the debouncer accepted it, and then it is appended to the queue; the queue never exceeds 2048; recursive registration is asked for exactly when the event was queued, has the Create bit, and stats as a directory; when the stop signal wins the router returns with the queue unchanged and registers nothing; the router panics exactly when the debouncer accepted the event, the queue is closed and the send is picked; nothing is ever added to a closed queue |
| `Router.PanicOnlyAfterQueueClosed` | internal/monitor/WatchManager.go:99-103 | a router never panics while the queue is open; after `Stop` has closed the stop signal and the queue, an accepted event panics exactly when Go's pick falls on the send |
| `Router.Steps` | internal/monitor/WatchManager.go:90-119 | one router's loop over the events `evs` of its watcher, ending when it returns on the stop signal, blocks on a full queue or panics; its contract is carried by `QueueStaysBounded` |
| `Router.QueueStaysBounded` | internal/monitor/WatchManager.go:96-103 | over a run of one router's steps, the queue stays within capacity 2048, keeps what it held, and gains only events of the run, at most as many as the run has events; a closed queue gains nothing |
| `Monitor.WatchManager.RouteEvent` | internal/monitor/WatchManager.go:92-110 | the manager's router step debounces, queues and registers as `Step` says; the registry changes only for a queued new directory, and then as `Walk` of its subtree says |
| `Stability.IsFileStable` | internal/monitor/WatchManager.go:136-153 | the answer is false iff one of the first `checks` samples is a failed stat or a directory; it stops at the first such sample; with `checks <= 0` it takes no sample; it sleeps `interval` after every good sample |
| `Stability.NoChecksIsStable` | internal/monitor/WatchManager.go:138 | with `checks <= 0` the file is stable |
| `Stability.SizesDoNotMatter` | internal/monitor/WatchManager.go:143-150 | two sample sequences that agree on success and directory bit get the same answer, whatever the sizes |
| `Stability.GrowingFileIsStable` | internal/monitor/WatchManager.go:144-148 | a file whose size grows between the worker's two samples is reported stable |
| `Worker.Decide` | internal/monitor/WatchManager.go:171-187 | a failed stat drops the event; the handler is called iff the stat succeeded, the path is not a directory, the op has Create or Write, and the two-sample stability check holds; a notification is sent iff the handler was called and succeeded |
| `Worker.Notices` | internal/monitor/WatchManager.go:171-187 | the notifications sent while the workers take the events of a queue in order; its contract is carried by `NoticesAppend`, `NoticesOnePerIngestedEvent` and `IngestedAreNoticed` |
| `Worker.NoticesAppend` | internal/monitor/WatchManager.go:171 | draining a queue in two parts announces what the first part announces and then what the second does |
| `Worker.NoticesOnePerIngestedEvent` | internal/monitor/WatchManager.go:171-187 | draining a queue sends exactly as many notifications as there are dequeued events whose handler ran and succeeded, and each names such an event |
| `Worker.IngestedAreNoticed` | internal/monitor/WatchManager.go:179-183 | every dequeued event whose handler succeeds is announced |
| `Monitor.WatchManager.WorkerStep` | internal/monitor/WatchManager.go:171-187 | a worker takes the oldest queued event, decides as `Decide` says, and adds one notification exactly when the event was ingested |
| `Monitor.WatchManager.DrainQueue` | internal/monitor/WatchManager.go:171 | the workers empty the queue, and the notifications added are `Notices` of the old queue |
| `Monitor.WatchManager.StartWorkerPool` | internal/monitor/WatchManager.go:166-169 | `workerCount` workers are added to the running count (none when it is not positive) |
| `Monitor.WatchManager.Stop` | internal/monitor/WatchManager.go:123-133 | the stop signal and the queue are closed, every registered watcher is closed, the registry is empty, and no router or worker runs; running workers first drain the queue; it may be called only once, and no `AddDir` may follow |

## Left out

- Goroutines, `sync.Mutex`, `sync.WaitGroup` and blocking: every operation is one atomic step, and the wait group is the pair of counts `liveRouters` and `liveWorkers`.
- Several workers running at once: draining takes the queued events one at a time, oldest first. With real workers the order of notifications between different files can differ.
- Monitor.WatchManager.RouteEvent: requires that the stop signal is open and, for an event the debouncer accepts, that the queue has room, because a router runs only before `Stop` and a full queue blocks the send of an accepted event. An event the debouncer refuses is discarded whatever the queue holds. The stop-wins branch of the select is modelled only by `Router.Step`, with Go's random pick between two ready cases as the input `preferStop`.
- The possible deadlock in `Stop` (lines 124-132): it holds the registry lock while waiting for routers that may be blocked on that lock inside `AddDir`. This is a concurrency issue.
- Monitor.WatchManager.Stop: the running workers drain the queue before the signals are closed rather than during the wait. No worker reads anything else that `Stop` changes, so the final state is the same.
- Monitor.WatchManager.StartWorkerPool: requires that `Stop` has not run. The model does not capture workers started after a `Stop` that had no running worker: in the source they would still take every event left in the closed queue, stat it, check it, call the handler and notify, and only then return.
- The watcher's error channel (lines 111-115): errors are only logged, so the router's state does not change.
- A router's return when its watcher's event channel closes (lines 93-95): this happens only when `Stop` closes the watcher.
- The walk given to `RouteEvent` for a new directory is not tied to the event's path. `filepath.Walk`'s lexical order is whatever order the input sequence has.
- The watcher created by `fsnotify.NewWatcher` when `watcher.Add` then fails (lines 60-66): the source neither stores nor closes it, and the model does not track it.
- The real clock, `time.Now`'s monotonic reading and the saturation of `Time.Sub`: time is an unbounded integer number of nanoseconds. `time.Sleep` is only the total sleep time `slept` that `IsFileStable` returns.
- `HandleEvent`, `config.Config`, and `SendTelegram` with `bot.GetNotifier`: the handler is a success flag. A notification is recorded as the path it announces. The message text built with `filepath.Base` is not modelled, and neither is the warning logged when no notifier is configured.
- Logging through `utils.*` and the worker ids used only in log lines.
- `internal/bot/dispatch/music.go` and `internal/bot/baseHandler.go`: Telegram dialogue code (message editing, download and tidy processors, file sizes in floating point, wall-clock durations). It is not part of this model.
