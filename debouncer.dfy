/**
 * The debounce filter: a map from path to the time (in nanoseconds) of the
 * last event accepted for it. An event is accepted when its path has no
 * entry or the entry is at least one second old; accepting records the
 * event's time. Entries are never removed.
 */
module Debouncer {

  /** time.Second, in nanoseconds. */
  const Window: int := 1_000_000_000

  /** The filter's answer and its map afterwards. */
  datatype Decision = Decision(accepted: bool, last: map<string, int>)

  /** One call of debounce for an event on `path` at time `now`. */
  function Filter(last: map<string, int>, path: string, now: int): (d: Decision)
    ensures d.accepted <==> path !in last || now - last[path] >= Window
    ensures !d.accepted ==> d.last == last
    ensures d.accepted ==> path in d.last && d.last[path] == now
    ensures forall q :: q != path ==> (q in d.last <==> q in last)
    ensures forall q :: q != path && q in last ==> d.last[q] == last[q]
  {
    if path in last && now - last[path] < Window then Decision(false, last)
    else Decision(true, last[path := now])
  }

  /** An event as the filter sees it: a path and the time it is looked at. */
  datatype Stamped = Stamped(path: string, time: int)

  /** The filter's answers for a sequence of events, starting from map `last`. */
  function Run(last: map<string, int>, evs: seq<Stamped>): (acc: seq<bool>)
    ensures |acc| == |evs|
    decreases |evs|
  {
    if evs == [] then []
    else
      var d := Filter(last, evs[0].path, evs[0].time);
      [d.accepted] + Run(d.last, evs[1..])
  }

  /** How many answers are `true`. */
  function CountAccepted(acc: seq<bool>): nat
  {
    if acc == [] then 0 else (if acc[0] then 1 else 0) + CountAccepted(acc[1..])
  }

  /** The entry of a path never moves backwards, and a path once entered stays. */
  lemma FilterKeepsEntry(last: map<string, int>, path: string, now: int, p: string)
    requires p in last
    ensures p in Filter(last, path, now).last
    ensures Filter(last, path, now).last[p] >= last[p]
  {
  }

  /**
   * When `p` already has an entry, every later event on `p` that the filter
   * accepts comes at least one window after that entry.
   */
  lemma {:induction false} AcceptedAfterEntry(last: map<string, int>, evs: seq<Stamped>, p: string)
    requires p in last
    ensures forall j :: 0 <= j < |evs| && Run(last, evs)[j] && evs[j].path == p ==>
              evs[j].time >= last[p] + Window
    decreases |evs|
  {
    if evs != [] {
      var d := Filter(last, evs[0].path, evs[0].time);
      var acc := Run(last, evs);
      var rest := Run(d.last, evs[1..]);
      assert acc == [d.accepted] + rest;
      FilterKeepsEntry(last, evs[0].path, evs[0].time, p);
      AcceptedAfterEntry(d.last, evs[1..], p);
      forall j | 0 < j < |evs| && acc[j] && evs[j].path == p
        ensures evs[j].time >= last[p] + Window
      {
        assert rest[j - 1] && evs[1..][j - 1] == evs[j];
      }
    }
  }

  /**
   * Two accepted events for the same path are at least one window apart.
   * This holds for any sequence of times, ordered or not.
   */
  lemma {:induction false} AcceptedSpacing(last: map<string, int>, evs: seq<Stamped>)
    ensures forall i, j ::
              (0 <= i < j < |evs| && Run(last, evs)[i] && Run(last, evs)[j] && evs[i].path == evs[j].path) ==>
              evs[j].time - evs[i].time >= Window
    decreases |evs|
  {
    if evs != [] {
      var d := Filter(last, evs[0].path, evs[0].time);
      var acc := Run(last, evs);
      var rest := Run(d.last, evs[1..]);
      assert acc == [d.accepted] + rest;
      AcceptedSpacing(d.last, evs[1..]);
      if d.accepted {
        AcceptedAfterEntry(d.last, evs[1..], evs[0].path);
      }
      forall i, j | 0 <= i < j < |evs| && acc[i] && acc[j] && evs[i].path == evs[j].path
        ensures evs[j].time - evs[i].time >= Window
      {
        assert rest[j - 1] && evs[1..][j - 1] == evs[j];
        if i > 0 {
          assert rest[i - 1] && evs[1..][i - 1] == evs[i];
        }
      }
    }
  }

  /** A sequence of refusals counts no acceptance. */
  lemma {:induction false} CountNone(acc: seq<bool>)
    requires forall k :: 0 <= k < |acc| ==> !acc[k]
    ensures CountAccepted(acc) == 0
  {
    if acc != [] {
      CountNone(acc[1..]);
    }
  }

  /**
   * A burst of events on one path, all earlier than one window after the
   * first of them, which the filter accepts: exactly the first is accepted.
   */
  lemma BurstAcceptedOnce(last: map<string, int>, evs: seq<Stamped>)
    requires |evs| > 0 && Filter(last, evs[0].path, evs[0].time).accepted
    requires forall k :: 0 <= k < |evs| ==> evs[k].path == evs[0].path
    requires forall k :: 0 <= k < |evs| ==> evs[k].time < evs[0].time + Window
    ensures Run(last, evs)[0]
    ensures forall k :: 0 < k < |evs| ==> !Run(last, evs)[k]
    ensures CountAccepted(Run(last, evs)) == 1
  {
    var d := Filter(last, evs[0].path, evs[0].time);
    var rest := Run(d.last, evs[1..]);
    assert Run(last, evs) == [true] + rest;
    AcceptedAfterEntry(d.last, evs[1..], evs[0].path);
    forall k | 0 <= k < |rest| ensures !rest[k] {
      assert evs[1..][k] == evs[k + 1];
    }
    CountNone(rest);
    assert ([true] + rest)[1..] == rest;
  }
}
