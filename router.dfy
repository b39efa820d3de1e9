/**
 * What a directory's router does with one event from its watcher: filter it
 * through the debouncer, hand it to the shared queue (or give up when the
 * stop signal comes first), and, for a newly created directory, register
 * that directory's subtree.
 */
module Router {
  import opened Events
  import Debouncer

  /** The capacity of the shared event queue. */
  const QueueCapacity: nat := 2048

  /** How the router's send on the queue, raced against the stop signal, ends. */
  datatype PushResult = Pushed | StopWon | Blocked | SendPanicked

  /**
   * The select between sending on the queue and receiving from the stop
   * signal. `room`: the queue has space; `stopClosed`: the stop signal is
   * closed; `queueClosed`: the queue is closed. A send on a closed queue is
   * always ready and panics when it is picked. When both cases are ready Go
   * picks one at random; `preferStop` is that pick. When neither is, the
   * router waits.
   */
  function Push(room: bool, stopClosed: bool, queueClosed: bool, preferStop: bool): (p: PushResult)
    ensures p == Pushed ==> room && !queueClosed
    ensures p == SendPanicked <==> queueClosed && (!stopClosed || !preferStop)
    ensures p == StopWon ==> stopClosed
    ensures p == Blocked <==> !room && !queueClosed && !stopClosed
    ensures room && !stopClosed && !queueClosed ==> p == Pushed
  {
    var sendReady := room || queueClosed;
    if sendReady && (!stopClosed || !preferStop) then
      if queueClosed then SendPanicked else Pushed
    else if stopClosed then StopWon
    else Blocked
  }

  /** What became of the event. */
  datatype RouterAction =
    | Discarded           // refused by the debouncer
    | Exited              // the stop signal won the race with the send: the router returns
    | Waiting             // accepted, but the queue is full and no stop yet: the send blocks
    | Panicked            // the send on the closed queue was picked: the program panics
    | Forwarded(recurse: bool)  // queued; `recurse` when its subtree is to be registered

  datatype RouterOutcome = RouterOutcome(action: RouterAction, last: map<string, int>, queue: seq<Event>)

  /** The router sees a Create event whose path stats as a directory. */
  predicate NewDirectory(e: Event, stat: StatResult)
  {
    HasCreate(e.op) && stat.StatOk? && stat.isDir
  }

  /**
   * One pass of the router's loop body for event `e`, seen at time `now`,
   * with debounce map `last` and shared queue `queue`; `stat` is what
   * os.Stat answers for the event's path if it is asked.
   */
  function Step(last: map<string, int>, queue: seq<Event>, stopClosed: bool, queueClosed: bool, preferStop: bool,
                e: Event, now: int, stat: StatResult): (r: RouterOutcome)
    requires |queue| <= QueueCapacity
    ensures |r.queue| <= QueueCapacity
    ensures r.last == Debouncer.Filter(last, e.name, now).last
    ensures r.action == Discarded <==> !Debouncer.Filter(last, e.name, now).accepted
    ensures r.action.Forwarded? ==> Debouncer.Filter(last, e.name, now).accepted && !queueClosed && r.queue == queue + [e]
    ensures !r.action.Forwarded? ==> r.queue == queue
    ensures r.action.Forwarded? ==> (r.action.recurse <==> NewDirectory(e, stat))
    ensures r.action == Exited ==> stopClosed
    ensures r.action == Waiting ==> |queue| == QueueCapacity && !stopClosed && !queueClosed
    ensures r.action == Panicked <==>
              Debouncer.Filter(last, e.name, now).accepted && queueClosed && (!stopClosed || !preferStop)
  {
    var d := Debouncer.Filter(last, e.name, now);
    if !d.accepted then RouterOutcome(Discarded, d.last, queue)
    else
      match Push(|queue| < QueueCapacity, stopClosed, queueClosed, preferStop)
      case Pushed => RouterOutcome(Forwarded(NewDirectory(e, stat)), d.last, queue + [e])
      case StopWon => RouterOutcome(Exited, d.last, queue)
      case Blocked => RouterOutcome(Waiting, d.last, queue)
      case SendPanicked => RouterOutcome(Panicked, d.last, queue)
  }

  /**
   * A router never panics while the queue is open, and once `Stop` has
   * closed both the stop signal and the queue, an event the debouncer
   * accepts panics exactly when Go's pick falls on the send.
   */
  lemma PanicOnlyAfterQueueClosed(last: map<string, int>, queue: seq<Event>, stopClosed: bool, queueClosed: bool,
                                  preferStop: bool, e: Event, now: int, stat: StatResult)
    requires |queue| <= QueueCapacity
    ensures !queueClosed ==> Step(last, queue, stopClosed, queueClosed, preferStop, e, now, stat).action != Panicked
    ensures stopClosed && queueClosed && Debouncer.Filter(last, e.name, now).accepted ==>
              (Step(last, queue, stopClosed, queueClosed, preferStop, e, now, stat).action == Panicked <==> !preferStop)
  {
  }

  /**
   * The queue after one router handles `evs`, one after the other, while no
   * worker takes events out. The run ends when the router returns because
   * the stop signal won, when its send blocks on a full queue, or when the
   * send panics on a closed queue.
   */
  function Steps(last: map<string, int>, queue: seq<Event>, stopClosed: bool, queueClosed: bool,
                 picks: seq<bool>, evs: seq<Event>, times: seq<int>, stats: seq<StatResult>): seq<Event>
    requires |queue| <= QueueCapacity
    requires |picks| == |evs| == |times| == |stats|
    decreases |evs|
  {
    if evs == [] then queue
    else
      var r := Step(last, queue, stopClosed, queueClosed, picks[0], evs[0], times[0], stats[0]);
      if !r.action.Forwarded? && r.action != Discarded then r.queue
      else Steps(r.last, r.queue, stopClosed, queueClosed, picks[1..], evs[1..], times[1..], stats[1..])
  }

  /**
   * Over any run of router steps the queue stays within its capacity, keeps
   * what it held, and gains only events of the run, at most `|evs|` in total;
   * nothing is added to a closed queue.
   */
  lemma {:induction false} QueueStaysBounded(last: map<string, int>, queue: seq<Event>, stopClosed: bool, queueClosed: bool,
                                             picks: seq<bool>, evs: seq<Event>, times: seq<int>, stats: seq<StatResult>)
    requires |queue| <= QueueCapacity
    requires |picks| == |evs| == |times| == |stats|
    ensures var q := Steps(last, queue, stopClosed, queueClosed, picks, evs, times, stats);
            && |q| <= QueueCapacity
            && |q| <= |queue| + |evs|
            && queue <= q
            && (forall j :: |queue| <= j < |q| ==> q[j] in evs)
            && (queueClosed ==> q == queue)
    decreases |evs|
  {
    if evs != [] {
      var r := Step(last, queue, stopClosed, queueClosed, picks[0], evs[0], times[0], stats[0]);
      if r.action.Forwarded? || r.action == Discarded {
        QueueStaysBounded(r.last, r.queue, stopClosed, queueClosed, picks[1..], evs[1..], times[1..], stats[1..]);
        var q := Steps(r.last, r.queue, stopClosed, queueClosed, picks[1..], evs[1..], times[1..], stats[1..]);
        forall j | |queue| <= j < |q|
          ensures q[j] in evs
        {
          if j >= |r.queue| {
            assert q[j] in evs[1..];
          } else {
            assert q[j] == r.queue[j] == evs[0];
          }
        }
      }
    }
  }
}
