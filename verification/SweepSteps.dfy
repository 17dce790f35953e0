/**
  One pass over the sorted events of `tools/report_build_time_ninja.py`: what holds of the
  running totals before each event, and why each event keeps it.
 */
module SweepSteps {
  import opened BuildSweep
  import opened RealArith

  /** Task `i` has started, but not stopped, within the first `k` events. */
  ghost predicate Active(tasks: seq<Task>, events: seq<Event>, k: nat, i: nat)
    requires k <= |events| && i < |tasks|
  {
    StartOf(tasks, i) in events[..k] && StopOf(tasks, i) !in events[..k]
  }

  /** After `k` events and `m` stretches of time: the running tasks are the active ones, the
      time accumulated since a running task started is what it has been given so far, a stopped
      task holds its final amount, and a task yet to start has been given nothing. */
  ghost predicate Accounted(tasks: seq<Task>, events: seq<Event>, k: nat, m: nat,
                            running: map<nat, real>, accumulated: real, shares: seq<real>)
    requires m < |events| || m == 0
    requires k <= |events|
  {
    && |shares| == |tasks|
    && (forall i :: i in running ==> i < |tasks|)
    && (forall i :: 0 <= i < |tasks| ==> TaskAccounted(tasks, events, k, m, running, accumulated, shares[i], i))
  }

  ghost predicate TaskAccounted(tasks: seq<Task>, events: seq<Event>, k: nat, m: nat,
                                running: map<nat, real>, accumulated: real, share: real, i: nat)
    requires (m < |events| || m == 0) && k <= |events| && i < |tasks|
  {
    var given := Covered(tasks, Times(events), i, m);
    && (i in running <==> Active(tasks, events, k, i))
    && (i in running ==> accumulated - running[i] == given && share == 0.0)
    && (StartOf(tasks, i) !in events[..k] ==> given == 0.0)
    && (StopOf(tasks, i) in events[..k] ==> share == given && tasks[i].start <= tasks[i].end)
    && (StopOf(tasks, i) !in events[..k] ==> share == 0.0)
  }

  lemma {:induction false} EventAt(tasks: seq<Task>, events: seq<Event>, e: Event) returns (k: nat)
    requires SortedEvents(tasks, events) && Occurs(tasks, |tasks|, e)
    ensures k < |events| && events[k] == e
  {
    Membership(tasks, events, e);
    k :| k < |events| && events[k] == e;
  }

  lemma {:induction false} InPrefix(events: seq<Event>, k: nat, j: nat)
    requires j < |events| && k <= |events| && events[j] !in events[..j]
    ensures events[j] in events[..k] <==> j < k
  {
    if j < k {
      assert events[..k][j] == events[j];
    } else {
      assert events[..k] <= events[..j];
    }
  }

  /** Between two different event times the active tasks are those that run throughout. */
  lemma {:induction false} ActiveIsCovering(tasks: seq<Task>, events: seq<Event>, k: nat, i: nat)
    requires SortedEvents(tasks, events) && 0 < k < |events| && i < |tasks|
    requires events[k - 1].time < events[k].time
    ensures Active(tasks, events, k, i) <==> i in Covering(tasks, events[k - 1].time, events[k].time)
  {
    hide SortedEvents, Times;
    SortedTimes(tasks, events);
    var times := Times(events);
    var p := EventAt(tasks, events, StartOf(tasks, i));
    var q := EventAt(tasks, events, StopOf(tasks, i));
    NoRepeats(tasks, events, p);
    NoRepeats(tasks, events, q);
    InPrefix(events, k, p);
    InPrefix(events, k, q);
    assert times[p] == tasks[i].start && times[q] == tasks[i].end;
    assert times[k - 1] == events[k - 1].time && times[k] == events[k].time;
    if p < k { assert times[p] <= times[k - 1]; } else { assert times[k] <= times[p]; }
    if q < k { assert times[q] <= times[k - 1]; } else { assert times[k] <= times[q]; }
  }

  /** The accumulated time once the stretch up to event `k` is added. */
  function Advanced(events: seq<Event>, k: nat, running: map<nat, real>, accumulated: real): real
    requires k < |events|
  {
    var lastTime := if k == 0 then events[0].time else events[k - 1].time;
    if |running| > 0 then accumulated + (events[k].time - lastTime) / |running| as real else accumulated
  }

  lemma {:induction false} RunningIsCovering(
      tasks: seq<Task>, events: seq<Event>, k: nat, running: map<nat, real>, accumulated: real, shares: seq<real>)
    requires SortedEvents(tasks, events) && 0 < k < |events|
    requires Accounted(tasks, events, k, k - 1, running, accumulated, shares)
    requires events[k - 1].time < events[k].time
    ensures running.Keys == Covering(tasks, events[k - 1].time, events[k].time)
  {
    hide SortedEvents, Covered, Active;
    var c := Covering(tasks, events[k - 1].time, events[k].time);
    forall i | 0 <= i < |tasks| ensures i in running <==> i in c {
      assert TaskAccounted(tasks, events, k, k - 1, running, accumulated, shares[i], i);
      ActiveIsCovering(tasks, events, k, i);
    }
  }

  lemma {:induction false} AdvanceTask(
      tasks: seq<Task>, events: seq<Event>, k: nat, running: map<nat, real>, accumulated: real, share: real, i: nat)
    requires 0 < k < |events| && i < |tasks| && events[k - 1].time <= events[k].time
    requires events[k - 1].time < events[k].time ==>
               running.Keys == Covering(tasks, events[k - 1].time, events[k].time)
    requires TaskAccounted(tasks, events, k, k - 1, running, accumulated, share, i)
    ensures TaskAccounted(tasks, events, k, k, running, Advanced(events, k, running, accumulated), share, i)
  {
    var a, b := events[k - 1].time, events[k].time;
    assert Covered(tasks, Times(events), i, k)
        == Covered(tasks, Times(events), i, k - 1) + Contribution(tasks, a, b, i);
    hide Covered, Times;
    if a == b {
      ZeroPart(b - a, |running|);
    } else {
      var c := Covering(tasks, a, b);
      hide Covering;
      assert |running| == |running.Keys| == |c|;
      if i in running {
        assert |running.Keys| > 0;
        assert Contribution(tasks, a, b, i) == (b - a) / |running| as real;
      } else {
        assert Contribution(tasks, a, b, i) == 0.0;
      }
    }
  }

  lemma {:induction false} AdvanceKeepsAccount(
      tasks: seq<Task>, events: seq<Event>, k: nat, running: map<nat, real>, accumulated: real, shares: seq<real>)
    requires SortedEvents(tasks, events) && k < |events|
    requires Accounted(tasks, events, k, if k == 0 then 0 else k - 1, running, accumulated, shares)
    ensures Accounted(tasks, events, k, k, running, Advanced(events, k, running, accumulated), shares)
  {
    if k == 0 {
      ZeroPart(events[0].time - events[0].time, |running|);
      assert Advanced(events, k, running, accumulated) == accumulated;
    } else {
      assert KeyLeq(events[k - 1], events[k]);
      hide SortedEvents, TaskAccounted;
      if events[k - 1].time < events[k].time { RunningIsCovering(tasks, events, k, running, accumulated, shares); }
      forall i | 0 <= i < |tasks| {
        AdvanceTask(tasks, events, k, running, accumulated, shares[i], i);
      }
    }
  }

  lemma {:induction false} ZeroPart(length: real, count: nat)
    requires length == 0.0
    ensures count > 0 ==> length / count as real == 0.0
  {
  }

  /** Which events precede `k + 1`: those before `k`, and event `k`. */
  lemma {:induction false} NextPrefix(events: seq<Event>, k: nat, e: Event)
    requires k < |events|
    ensures e in events[..k + 1] <==> e in events[..k] || e == events[k]
  {
    assert events[..k + 1] == events[..k] + [events[k]];
  }

  lemma {:induction false} StartKeepsAccount(
      tasks: seq<Task>, events: seq<Event>, k: nat, running: map<nat, real>, accumulated: real, shares: seq<real>)
    requires SortedEvents(tasks, events) && k < |events| && events[k].action.Start?
    requires Accounted(tasks, events, k, k, running, accumulated, shares)
    ensures Accounted(tasks, events, k + 1, k, running[events[k].task := accumulated], accumulated, shares)
  {
    var t := events[k].task;
    Membership(tasks, events, events[k]);
    NoRepeats(tasks, events, k);
    StopNotBeforeStart(tasks, events, k, t, running, accumulated, shares);
    hide SortedEvents, Covered;
    forall i | 0 <= i < |tasks|
      ensures TaskAccounted(tasks, events, k + 1, k, running[t := accumulated], accumulated, shares[i], i)
    {
      assert TaskAccounted(tasks, events, k, k, running, accumulated, shares[i], i);
      NextPrefix(events, k, StartOf(tasks, i));
      NextPrefix(events, k, StopOf(tasks, i));
    }
  }

  /** Nothing has stopped that starts only now: a stop is reached only by an active task. */
  lemma {:induction false} StopNotBeforeStart(
      tasks: seq<Task>, events: seq<Event>, k: nat, t: nat, running: map<nat, real>, accumulated: real,
      shares: seq<real>)
    requires SortedEvents(tasks, events) && k < |events| && t < |tasks| && events[k] == StartOf(tasks, t)
    requires Accounted(tasks, events, k, k, running, accumulated, shares)
    ensures StopOf(tasks, t) !in events[..k]
  {
    assert TaskAccounted(tasks, events, k, k, running, accumulated, shares[t], t);
    forall j | 0 <= j < k ensures events[j] != StopOf(tasks, t) || tasks[t].end < tasks[t].start {
      assert KeyLeq(events[j], events[k]);
    }
  }

  lemma {:induction false} StopKeepsAccount(
      tasks: seq<Task>, events: seq<Event>, k: nat, running: map<nat, real>, accumulated: real, shares: seq<real>)
    requires SortedEvents(tasks, events) && k < |events| && events[k].action.Stop?
    requires Accounted(tasks, events, k, k, running, accumulated, shares)
    requires events[k].task in running
    ensures var t := events[k].task;
            && shares[t] == 0.0
            && Accounted(tasks, events, k + 1, k, running - {t}, accumulated,
                         shares[t := accumulated - running[t]])
  {
    var t := events[k].task;
    Membership(tasks, events, events[k]);
    NoRepeats(tasks, events, k);
    assert TaskAccounted(tasks, events, k, k, running, accumulated, shares[t], t);
    var j :| 0 <= j < k && events[..k][j] == StartOf(tasks, t);
    assert KeyLeq(events[j], events[k]);
    var shares' := shares[t := accumulated - running[t]];
    hide SortedEvents, Covered;
    forall i | 0 <= i < |tasks|
      ensures TaskAccounted(tasks, events, k + 1, k, running - {t}, accumulated, shares'[i], i)
    {
      assert TaskAccounted(tasks, events, k, k, running, accumulated, shares[i], i);
      NextPrefix(events, k, StartOf(tasks, i));
      NextPrefix(events, k, StopOf(tasks, i));
    }
  }

  /** A stop finds its task running exactly when the task does not end before it starts. */
  lemma {:induction false} StopFindsItsTask(
      tasks: seq<Task>, events: seq<Event>, k: nat, running: map<nat, real>, accumulated: real, shares: seq<real>)
    requires SortedEvents(tasks, events) && k < |events| && events[k].action.Stop?
    requires Accounted(tasks, events, k, k, running, accumulated, shares)
    ensures events[k].task < |tasks|
    ensures events[k].task in running <==> tasks[events[k].task].start <= tasks[events[k].task].end
  {
    var t := events[k].task;
    Membership(tasks, events, events[k]);
    NoRepeats(tasks, events, k);
    assert events[k] == StopOf(tasks, t);
    assert TaskAccounted(tasks, events, k, k, running, accumulated, shares[t], t);
    var p := EventAt(tasks, events, StartOf(tasks, t));
    NoRepeats(tasks, events, p);
    InPrefix(events, k, p);
    if p < k { assert KeyLeq(events[p], events[k]); } else { assert KeyLeq(events[k], events[p]); }
  }

  /** When every event is through, every task has its share. */
  lemma {:induction false} AllAccounted(
      tasks: seq<Task>, events: seq<Event>, running: map<nat, real>, accumulated: real, shares: seq<real>)
    requires SortedEvents(tasks, events) && events != []
    requires Accounted(tasks, events, |events|, |events| - 1, running, accumulated, shares)
    ensures running == map[]
    ensures forall i :: 0 <= i < |tasks| ==>
              shares[i] == Share(tasks, Times(events), i) && tasks[i].start <= tasks[i].end
    ensures Sum(shares) == Busy(tasks, Times(events), |events| - 1)
  {
    hide Covered, Busy, Sum, Covering, Contribution;
    var times := Times(events);
    SortedTimes(tasks, events);
    forall i | 0 <= i < |tasks|
      ensures i !in running && shares[i] == Share(tasks, times, i) && tasks[i].start <= tasks[i].end
    {
      assert TaskAccounted(tasks, events, |events|, |events| - 1, running, accumulated, shares[i], i);
      Membership(tasks, events, StopOf(tasks, i));
      assert events[..|events|] == events;
    }
    assert shares == CoveredAll(tasks, times, |events| - 1, |tasks|);
    SharesAreBusyTime(tasks, times, |events| - 1);
  }
}
