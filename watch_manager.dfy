/**
 * The watch manager: the directory registry, the debounce map, the shared
 * bounded event queue, the stop signal, and the count of running routers
 * and workers. Every operation is one atomic step; goroutines, locks and
 * the wait group are not modelled, and a router or worker step is a method
 * the scheduler may call whenever the source's goroutine could run.
 */
module Monitor {
  import opened Events
  import opened Stability
  import Debouncer
  import opened Registry
  import Router
  import opened Worker

  class WatchManager {
    /** The watcher of every registered directory. */
    var watchers: map<string, Handle>
    /** When the last event accepted for each path was seen. */
    var eventMap: map<string, int>
    /** The shared event queue, oldest first. */
    var queue: seq<Event>
    var queueClosed: bool
    /** The stop signal has been closed. */
    var stopped: bool
    /** Watchers closed by Stop. */
    var closedHandles: set<Handle>
    /** Routers and workers still running (the wait group's count). */
    var liveRouters: nat
    var liveWorkers: nat
    /** The paths announced to the notifier, in order. */
    var notifications: seq<string>

    /**
     * The queue never holds more than its capacity; the queue is closed
     * exactly when the stop signal is; before Stop one router runs per
     * registered directory; after Stop the registry is empty and no router
     * or worker runs.
     */
    ghost predicate Valid()
      reads this
    {
      && |queue| <= Router.QueueCapacity
      && queueClosed == stopped
      && (stopped ==> watchers == map[] && liveRouters == 0 && liveWorkers == 0)
      && (!stopped ==> liveRouters == |watchers|)
    }

    /** NewWatchManager: an empty registry, debounce map and queue, and an open stop signal. */
    constructor ()
      ensures Valid()
      ensures watchers == map[] && eventMap == map[] && queue == [] && notifications == []
      ensures !stopped && closedHandles == {} && liveRouters == 0 && liveWorkers == 0
    {
      watchers := map[];
      eventMap := map[];
      queue := [];
      queueClosed := false;
      stopped := false;
      closedHandles := {};
      liveRouters := 0;
      liveWorkers := 0;
      notifications := [];
    }

    /**
     * AddDir: register `dir` unless it already is, opening a watcher with
     * answers `o` and starting its router. Writing to the registry after
     * Stop would panic, so it is not allowed then.
     */
    method AddDir(dir: string, o: WatchOpen) returns (err: Option<Error>)
      requires Valid() && !stopped
      modifies this`watchers, this`liveRouters
      ensures Valid()
      ensures var r := Register(old(watchers), dir, o);
              err == r.err && watchers == r.watchers && liveRouters == old(liveRouters) + |r.launched|
    {
      if dir in watchers {
        return None;
      }
      if o.create.Err? {
        return Some(o.create.error);
      }
      var watcher := o.create.value;
      if o.add.Some? {
        return o.add;
      }
      watchers := watchers[dir := watcher];
      liveRouters := liveRouters + 1;
      return None;
    }

    /**
     * AddDirRecursive: call AddDir for every directory the walk visits, in
     * walk order, skipping files, and return the first error, whether the
     * walk reports it or AddDir does.
     */
    method AddDirRecursive(walk: seq<WalkItem>, opens: seq<WatchOpen>) returns (err: Option<Error>)
      requires Valid() && !stopped && |opens| >= |walk|
      modifies this`watchers, this`liveRouters
      ensures Valid()
      ensures var r := Walk(old(watchers), walk, opens);
              err == r.err && watchers == r.watchers && liveRouters == old(liveRouters) + |r.launched|
    {
      ghost var launched: seq<string> := [];
      var i := 0;
      while i < |walk|
        invariant 0 <= i <= |walk|
        invariant Valid() && !stopped
        invariant var rest := Walk(watchers, walk[i..], opens[i..]);
                  Walk(old(watchers), walk, opens) == Registration(rest.err, rest.watchers, launched + rest.launched)
        invariant liveRouters == old(liveRouters) + |launched|
      {
        assert walk[i..][0] == walk[i] && opens[i..][0] == opens[i];
        assert walk[i..][1..] == walk[i + 1..] && opens[i..][1..] == opens[i + 1..];
        match walk[i] {
          case WalkErr(_, e) =>
            return Some(e);
          case Visit(path, isDir) =>
            if isDir {
              ghost var before := watchers;
              var added := AddDir(path, opens[i]);
              if added.Some? {
                return added;
              }
              ghost var r := Register(before, path, opens[i]);
              ghost var rest := Walk(watchers, walk[i + 1..], opens[i + 1..]);
              assert launched + (r.launched + rest.launched) == (launched + r.launched) + rest.launched;
              launched := launched + r.launched;
            }
        }
        i := i + 1;
      }
      return None;
    }

    /** debounce: accept the event on `path` seen at `now` unless one was accepted less than a second before. */
    method Debounce(path: string, now: int) returns (accepted: bool)
      modifies this`eventMap
      ensures var d := Debouncer.Filter(old(eventMap), path, now);
              accepted == d.accepted && eventMap == d.last
    {
      if path in eventMap && now - eventMap[path] < Debouncer.Window {
        return false;
      }
      eventMap := eventMap[path := now];
      return true;
    }

    /**
     * One event through a directory's router, seen at `now`. Routers only
     * run before Stop, and the send of an accepted event does not block, so
     * the queue has room for it; `stat` is the stat of the event's path, and
     * `walk` and `opens` the walk of that path's subtree and the watch
     * answers for it.
     */
    method RouteEvent(e: Event, now: int, stat: StatResult, walk: seq<WalkItem>, opens: seq<WatchOpen>)
      returns (action: Router.RouterAction)
      requires Valid() && !stopped && |opens| >= |walk|
      requires Debouncer.Filter(eventMap, e.name, now).accepted ==> |queue| < Router.QueueCapacity
      modifies this`eventMap, this`queue, this`watchers, this`liveRouters
      ensures Valid()
      ensures var r := Router.Step(old(eventMap), old(queue), false, false, false, e, now, stat);
              action == r.action && eventMap == r.last && queue == r.queue
      ensures var w := Walk(old(watchers), walk, opens);
              if action == Router.Forwarded(true)
              then watchers == w.watchers && liveRouters == old(liveRouters) + |w.launched|
              else watchers == old(watchers) && liveRouters == old(liveRouters)
    {
      var accepted := Debounce(e.name, now);
      if !accepted {
        return Router.Discarded;
      }
      queue := queue + [e];
      if Router.NewDirectory(e, stat) {
        var ignored := AddDirRecursive(walk, opens);
        return Router.Forwarded(true);
      }
      return Router.Forwarded(false);
    }

    /** StartWorkerPool: start `workerCount` workers. */
    method StartWorkerPool(workerCount: int)
      requires Valid() && !stopped
      modifies this`liveWorkers
      ensures Valid()
      ensures liveWorkers == old(liveWorkers) + (if workerCount > 0 then workerCount else 0)
    {
      var i := 0;
      while i < workerCount
        invariant (workerCount <= 0 ==> i == 0) && (0 < workerCount ==> 0 <= i <= workerCount)
        invariant liveWorkers == old(liveWorkers) + i
        invariant Valid()
      {
        liveWorkers := liveWorkers + 1;
        i := i + 1;
      }
    }

    /**
     * One pass of a worker's loop body: take the oldest event off the queue
     * and process it in environment `env`. A worker waits while the queue
     * is empty, so it is not empty here.
     */
    method WorkerStep(env: Env) returns (o: Outcome)
      requires Valid() && liveWorkers > 0 && queue != [] && Sampled(env)
      modifies this`queue, this`notifications
      ensures Valid()
      ensures o == Decide(old(queue)[0], env)
      ensures queue == old(queue)[1..]
      ensures notifications == old(notifications) + (if o == Ingested then [old(queue)[0].name] else [])
    {
      var e := queue[0];
      queue := queue[1..];
      if env.stat.StatErr? {
        return StatFailed;
      }
      if HasCreateOrWrite(e.op) && !env.stat.isDir {
        var stable, taken, slept := IsFileStable(env.samples, WorkerInterval, WorkerChecks);
        if !stable {
          return Unstable;
        }
        if !env.handlerOk {
          return HandlerFailed;
        }
        notifications := notifications + [e.name];
        return Ingested;
      }
      return Ignored;
    }

    /** The workers take every queued event, the k-th meeting environment `envs[k]`. */
    method DrainQueue(envs: seq<Env>)
      requires Valid() && liveWorkers > 0 && |envs| >= |queue| && AllSampled(envs)
      modifies this`queue, this`notifications
      ensures Valid() && queue == []
      ensures notifications == old(notifications) + Notices(old(queue), envs)
    {
      var i := 0;
      while queue != []
        invariant Valid() && 0 <= i <= |old(queue)|
        invariant queue == old(queue)[i..]
        invariant AllSampled(envs[i..])
        invariant notifications + Notices(queue, envs[i..]) == old(notifications) + Notices(old(queue), envs)
        decreases |queue|
      {
        assert envs[i..][0] == envs[i] && envs[i..][1..] == envs[i + 1..];
        var o := WorkerStep(envs[i]);
        i := i + 1;
      }
    }

    /**
     * Stop: close the stop signal, close every registered watcher, close
     * the queue, drop the registry, and wait for the routers and workers to
     * return. Running workers first drain what is left in the queue, each
     * event `k` meeting environment `envs[k]`; that is done first here,
     * since nothing else Stop changes is read by a worker. Closing the stop
     * signal twice would panic, so Stop is called once.
     */
    method Stop(envs: seq<Env>)
      requires Valid() && !stopped && |envs| >= |queue| && AllSampled(envs)
      modifies this`stopped, this`queueClosed, this`closedHandles, this`watchers,
               this`liveRouters, this`liveWorkers, this`queue, this`notifications
      ensures Valid() && stopped && queueClosed
      ensures closedHandles == old(closedHandles) + old(watchers).Values
      ensures watchers == map[] && liveRouters == 0 && liveWorkers == 0
      ensures old(liveWorkers) > 0 ==>
                queue == [] && notifications == old(notifications) + Notices(old(queue), envs)
      ensures old(liveWorkers) == 0 ==> queue == old(queue) && notifications == old(notifications)
    {
      if liveWorkers > 0 {
        DrainQueue(envs);
      }
      stopped := true;
      closedHandles := closedHandles + watchers.Values;
      queueClosed := true;
      watchers := map[];
      liveRouters := 0;
      liveWorkers := 0;
    }
  }
  /**
   * A directory created inside a watched one is picked up: its Create event
   * is queued and the new directory gets a watcher and a router of its own.
   */
  method RecursivePickup()
  {
    var m := new WatchManager();
    var err := m.AddDir("/music", WatchOpen(Ok(Handle(1)), None));
    assert err == None && "/music" in m.watchers;
    var action := m.RouteEvent(Event("/music/sub", CreateBit), 0, StatOk(true, 0),
                               [Visit("/music/sub", true)], [WatchOpen(Ok(Handle(2)), None)]);
    assert action == Router.Forwarded(true);
    assert m.queue == [Event("/music/sub", CreateBit)];
    assert "/music" in m.watchers && "/music/sub" in m.watchers && m.liveRouters == 2;
  }
}
