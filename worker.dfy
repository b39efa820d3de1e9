/**
 * What a worker does with one event it takes off the shared queue: stat the
 * path (dropping the event if that fails), and for a Create or Write on
 * something that is not a directory run the stability check, call the
 * file-ready handler, and announce success to the notifier.
 */
module Worker {
  import opened Events
  import opened Stability

  /**
   * What the outside world answers while one event is processed: the stat
   * of the path, the samples the stability check would see, and whether the
   * file-ready handler would succeed.
   */
  datatype Env = Env(stat: StatResult, samples: seq<StatResult>, handlerOk: bool)

  /** The environment has a sample for each of the worker's stability checks. */
  predicate Sampled(env: Env)
  {
    WorkerChecks <= |env.samples|
  }

  /** How the processing of one event ends. */
  datatype Outcome =
    | StatFailed     // the stat failed: the event is dropped
    | Ignored        // neither Create nor Write, or a directory
    | Unstable       // the stability check said no
    | HandlerFailed  // the handler returned an error: no notification
    | Ingested       // the handler succeeded and the notifier was called

  predicate HandlerCalled(o: Outcome)
  {
    o == HandlerFailed || o == Ingested
  }

  /** The decision the worker's loop body makes for event `e`. */
  function Decide(e: Event, env: Env): (o: Outcome)
    requires Sampled(env)
    ensures o == StatFailed <==> env.stat.StatErr?
    ensures HandlerCalled(o) <==>
              env.stat.IsFile() && HasCreateOrWrite(e.op) && Stable(env.samples, WorkerChecks)
    ensures o == Ingested <==> HandlerCalled(o) && env.handlerOk
    ensures o == Unstable ==> !Stable(env.samples, WorkerChecks)
  {
    if env.stat.StatErr? then StatFailed
    else if HasCreateOrWrite(e.op) && !env.stat.isDir then
      if Stable(env.samples, WorkerChecks) then
        if env.handlerOk then Ingested else HandlerFailed
      else Unstable
    else Ignored
  }

  predicate AllSampled(envs: seq<Env>)
  {
    forall k :: 0 <= k < |envs| ==> Sampled(envs[k])
  }

  /**
   * The paths announced to the notifier when the events of `q` are taken off
   * the queue in order, event k meeting environment `envs[k]`.
   */
  function Notices(q: seq<Event>, envs: seq<Env>): seq<string>
    requires |envs| >= |q| && AllSampled(envs)
    decreases |q|
  {
    if q == [] then []
    else (if Decide(q[0], envs[0]) == Ingested then [q[0].name] else []) + Notices(q[1..], envs[1..])
  }

  /** The positions in `q` of the events whose handler runs and succeeds. */
  function IngestedAt(q: seq<Event>, envs: seq<Env>): set<nat>
    requires |envs| >= |q| && AllSampled(envs)
  {
    set k: nat | k < |q| && Decide(q[k], envs[k]) == Ingested
  }

  /**
   * Draining a queue in two parts announces what draining the first part
   * announces, then what draining the second does.
   */
  lemma {:induction false} NoticesAppend(a: seq<Event>, b: seq<Event>, envs: seq<Env>)
    requires |envs| >= |a| + |b| && AllSampled(envs)
    ensures AllSampled(envs[|a|..])
    ensures Notices(a + b, envs) == Notices(a, envs) + Notices(b, envs[|a|..])
    decreases |a|
  {
    assert AllSampled(envs[|a|..]) by {
      forall k | 0 <= k < |envs[|a|..]|
        ensures Sampled(envs[|a|..][k])
      {
        assert envs[|a|..][k] == envs[|a| + k];
      }
    }
    if a == [] {
      assert a + b == b && envs[|a|..] == envs;
    } else {
      assert AllSampled(envs[1..]) by {
        forall k | 0 <= k < |envs[1..]|
          ensures Sampled(envs[1..][k])
        {
          assert envs[1..][k] == envs[k + 1];
        }
      }
      NoticesAppend(a[1..], b, envs[1..]);
      assert (a + b)[0] == a[0] && (a + b)[1..] == a[1..] + b;
      assert envs[1..][|a[1..]|..] == envs[|a|..];
    }
  }

  /** Draining a queue announces what draining all but its last event does, then the last one. */
  lemma NoticesSnoc(q: seq<Event>, envs: seq<Env>)
    requires |envs| >= |q| && AllSampled(envs) && q != []
    ensures Notices(q, envs) ==
            Notices(q[..|q| - 1], envs) + (if Decide(q[|q| - 1], envs[|q| - 1]) == Ingested then [q[|q| - 1].name] else [])
  {
    var m := |q| - 1;
    assert q == q[..m] + [q[m]];
    NoticesAppend(q[..m], [q[m]], envs);
    assert envs[m..][0] == envs[m];
  }

  /** The ingested positions of a queue are those of all but its last event, plus the last if it is ingested. */
  lemma IngestedAtSnoc(q: seq<Event>, envs: seq<Env>)
    requires |envs| >= |q| && AllSampled(envs) && q != []
    ensures |IngestedAt(q, envs)| ==
            |IngestedAt(q[..|q| - 1], envs)| + (if Decide(q[|q| - 1], envs[|q| - 1]) == Ingested then 1 else 0)
  {
    var m := |q| - 1;
    assert IngestedAt(q, envs) ==
           IngestedAt(q[..m], envs) + (if Decide(q[m], envs[m]) == Ingested then {m} else {});
    assert m !in IngestedAt(q[..m], envs);
  }

  /** Draining the queue sends exactly one notification per event whose handler ran and succeeded. */
  lemma {:induction false} NoticesCount(q: seq<Event>, envs: seq<Env>)
    requires |envs| >= |q| && AllSampled(envs)
    ensures |Notices(q, envs)| == |IngestedAt(q, envs)|
    decreases |q|
  {
    if q != [] {
      NoticesSnoc(q, envs);
      IngestedAtSnoc(q, envs);
      NoticesCount(q[..|q| - 1], envs);
    }
  }

  /** Every notification sent while draining names an event whose handler ran and succeeded. */
  lemma {:induction false} NoticesNameIngested(q: seq<Event>, envs: seq<Env>)
    requires |envs| >= |q| && AllSampled(envs)
    ensures forall n :: n in Notices(q, envs) ==>
              exists k :: 0 <= k < |q| && q[k].name == n && Decide(q[k], envs[k]) == Ingested
    decreases |q|
  {
    if q != [] {
      NoticesNameIngested(q[1..], envs[1..]);
      var head := if Decide(q[0], envs[0]) == Ingested then [q[0].name] else [];
      var tail := Notices(q[1..], envs[1..]);
      assert Notices(q, envs) == head + tail;
      forall n | n in Notices(q, envs)
        ensures exists k :: 0 <= k < |q| && q[k].name == n && Decide(q[k], envs[k]) == Ingested
      {
        if n !in head {
          assert n in tail;
          var k :| 0 <= k < |q[1..]| && q[1..][k].name == n && Decide(q[1..][k], envs[1..][k]) == Ingested;
          assert q[k + 1] == q[1..][k] && envs[k + 1] == envs[1..][k];
        }
      }
    }
  }

  /**
   * Draining the queue sends exactly one notification per event whose
   * handler ran and succeeded, and each names such an event.
   */
  lemma NoticesOnePerIngestedEvent(q: seq<Event>, envs: seq<Env>)
    requires |envs| >= |q| && AllSampled(envs)
    ensures |Notices(q, envs)| == |IngestedAt(q, envs)|
    ensures forall n :: n in Notices(q, envs) ==>
              exists k :: 0 <= k < |q| && q[k].name == n && Decide(q[k], envs[k]) == Ingested
  {
    NoticesCount(q, envs);
    NoticesNameIngested(q, envs);
  }

  /** Each event whose handler runs and succeeds is announced: draining notifies every ingested file. */
  lemma {:induction false} IngestedAreNoticed(q: seq<Event>, envs: seq<Env>, k: nat)
    requires |envs| >= |q| && AllSampled(envs) && k < |q|
    requires Decide(q[k], envs[k]) == Ingested
    ensures q[k].name in Notices(q, envs)
    decreases |q|
  {
    if k > 0 {
      assert q[1..][k - 1] == q[k] && envs[1..][k - 1] == envs[k];
      IngestedAreNoticed(q[1..], envs[1..], k - 1);
    }
  }
}
