/**
  The build report of `tools/report_build_time_ninja.py`: targets read from a log, and the sweep
  that gives each of them its weighted duration.
 */
module BuildReport {
  import opened Common
  import opened BuildSweep
  import opened RealArith
  import opened SweepSteps

  /** One build step, with the outputs it produced. */
  class Target {
    const start: real
    const end: real
    var targets: seq<string>
    var weightedDuration: real

    constructor (start: real, end: real)
      ensures this.start == start && this.end == end
      ensures targets == [] && weightedDuration == 0.0
    {
      this.start, this.end := start, end;
      targets, weightedDuration := [], 0.0;
    }
  }

  function TasksOf(entries: seq<Target>): (tasks: seq<Task>)
    ensures |tasks| == |entries|
    ensures forall i :: 0 <= i < |entries| ==> tasks[i] == Task(entries[i].start, entries[i].end)
  {
    seq(|entries|, i requires 0 <= i < |entries| => Task(entries[i].start, entries[i].end))
  }

  ghost predicate Distinct(entries: seq<Target>) {
    forall i, j :: 0 <= i < j < |entries| ==> entries[i] != entries[j]
  }

  // ---------- The extent of the build ----------

  ghost predicate IsLeastStart(tasks: seq<Task>, x: real) {
    (exists i :: 0 <= i < |tasks| && tasks[i].start == x) && forall i :: 0 <= i < |tasks| ==> x <= tasks[i].start
  }

  ghost predicate IsGreatestEnd(tasks: seq<Task>, x: real) {
    (exists i :: 0 <= i < |tasks| && tasks[i].end == x) && forall i :: 0 <= i < |tasks| ==> tasks[i].end <= x
  }

  function TotalDuration(tasks: seq<Task>): real {
    if tasks == [] then 0.0
    else var n := |tasks| - 1; TotalDuration(tasks[..n]) + (tasks[n].end - tasks[n].start)
  }

  function Starts(tasks: seq<Task>): seq<real> { seq(|tasks|, i requires 0 <= i < |tasks| => tasks[i].start) }

  function Ends(tasks: seq<Task>): seq<real> { seq(|tasks|, i requires 0 <= i < |tasks| => tasks[i].end) }

  /** The total is what the ends add up to, less what the starts do. */
  lemma {:induction false} TotalIsEndsLessStarts(tasks: seq<Task>)
    ensures TotalDuration(tasks) == Sum(Ends(tasks)) - Sum(Starts(tasks))
  {
    if tasks == [] {
    } else {
      var n := |tasks| - 1;
      TotalIsEndsLessStarts(tasks[..n]);
      assert Ends(tasks)[..n] == Ends(tasks[..n]) && Starts(tasks)[..n] == Starts(tasks[..n]);
    }
  }

  /** `earliest` is some start, and the least one exactly when no start is negative or the last
      start is the least; a negative last start is taken in any case. `latest` is the greatest end
      exactly when some end is not negative, and 0 otherwise. */
  ghost predicate IsExtent(tasks: seq<Task>, earliest: real, latest: real) {
    && (tasks != [] ==> exists i :: 0 <= i < |tasks| && tasks[i].start == earliest)
    && (forall x :: IsLeastStart(tasks, x) ==> (earliest == x <==> x >= 0.0 || tasks[|tasks| - 1].start == x))
    && (forall x :: IsGreatestEnd(tasks, x) ==> (latest == x <==> x >= 0.0))
    && (tasks != [] && tasks[|tasks| - 1].start < 0.0 ==> earliest == tasks[|tasks| - 1].start)
    && ((forall i :: 0 <= i < |tasks| ==> tasks[i].end < 0.0) ==> latest == 0.0)
  }

  /** `earliest` begins at -1 and is replaced while negative; `latest` begins at 0. */
  method Extent(tasks: seq<Task>) returns (earliest: real, latest: real, cpuTime: real)
    ensures cpuTime == TotalDuration(tasks)
    ensures tasks == [] ==> earliest == -1.0
    ensures IsExtent(tasks, earliest, latest)
  {
    earliest, latest, cpuTime := -1.0, 0.0, 0.0;
    for n := 0 to |tasks|
      invariant cpuTime == TotalDuration(tasks[..n])
      invariant n == 0 ==> earliest == -1.0
      invariant n > 0 && earliest < 0.0 ==> tasks[n - 1].start == earliest
      invariant n > 0 && tasks[n - 1].start < 0.0 ==> earliest == tasks[n - 1].start
      invariant n > 0 ==> exists i :: 0 <= i < n && tasks[i].start == earliest
      invariant (forall i :: 0 <= i < n ==> tasks[i].start >= 0.0) ==>
                  forall i :: 0 <= i < n ==> earliest <= tasks[i].start
      invariant latest == 0.0 || exists i :: 0 <= i < n && tasks[i].end == latest
      invariant latest >= 0.0 && forall i :: 0 <= i < n ==> tasks[i].end <= latest
    {
      assert tasks[..n + 1][..n] == tasks[..n];
      var t := tasks[n];
      if earliest < 0.0 || t.start < earliest { earliest := t.start; }
      if t.end > latest { latest := t.end; }
      cpuTime := cpuTime + (t.end - t.start);
    }
    assert tasks[..|tasks|] == tasks;
  }

  // ---------- The sweep ----------

  /** What one event does to the running totals. A stop also yields the weighted duration of its
      target; `ok` is false when the stopped target was not running. */
  method ProcessEvent(ghost tasks: seq<Task>, events: seq<Event>, k: nat, lastTime: real,
                      running: map<nat, real>, accumulated: real, ghost shares: seq<real>)
    returns (ok: bool, running': map<nat, real>, accumulated': real, weighted: real, ghost shares': seq<real>)
    requires SortedEvents(tasks, events) && k < |events|
    requires Accounted(tasks, events, k, if k == 0 then 0 else k - 1, running, accumulated, shares)
    requires lastTime == if k == 0 then events[0].time else events[k - 1].time
    ensures events[k].task < |tasks| == |shares|
    ensures ok || !Ordered(tasks)
    ensures ok ==> Accounted(tasks, events, k + 1, k, running', accumulated', shares')
    ensures ok ==> Sum(shares') == Sum(shares) + if events[k].action.Stop? then weighted else 0.0
    ensures ok ==> shares' == if events[k].action.Stop? then shares[events[k].task := weighted] else shares
  {
    var Event(time, action, target) := events[k];
    Membership(tasks, events, events[k]);
    hide SortedEvents, Sum, TaskAccounted;
    ok, running', accumulated', weighted, shares' := true, running, accumulated, 0.0, shares;
    if |running| > 0 {
      accumulated' := accumulated + (time - lastTime) / |running| as real;
    }
    AdvanceKeepsAccount(tasks, events, k, running, accumulated, shares);
    assert accumulated' == Advanced(events, k, running, accumulated);
    hide Accounted;
    if action == Start {
      StartKeepsAccount(tasks, events, k, running, accumulated', shares);
      running' := running[target := accumulated'];
    }
    if action == Stop {
      StopFindsItsTask(tasks, events, k, running, accumulated', shares);
      if target !in running {
        assert !Ordered(tasks);
        return false, running', accumulated', weighted, shares';
      }
      StopKeepsAccount(tasks, events, k, running, accumulated', shares);
      weighted := accumulated' - running[target];
      SumUpdate(shares, target, weighted);
      shares', running' := shares[target := weighted], running - {target};
    }
  }

  /** Every target that has stopped by event `k` carries its share. */
  ghost predicate Recorded(entries: seq<Target>, events: seq<Event>, k: nat, shares: seq<real>)
    requires k <= |events| && |shares| == |entries|
    reads entries
  {
    forall j :: 0 <= j < k && events[j].action.Stop? ==>
      events[j].task < |entries| && entries[events[j].task].weightedDuration == shares[events[j].task]
  }

  /** Writes down the weighted duration of the target that event `k` stops, if it stops one. */
  method Record(entries: seq<Target>, events: seq<Event>, k: nat, weighted: real, ghost shares: seq<real>)
    requires Distinct(entries) && k < |events| && |shares| == |entries| && events[k].task < |entries|
    requires Recorded(entries, events, k, shares)
    modifies entries`weightedDuration
    ensures Recorded(entries, events, k + 1,
                     if events[k].action.Stop? then shares[events[k].task := weighted] else shares)
  {
    if events[k].action == Stop {
      entries[events[k].task].weightedDuration := weighted;
    }
  }

  lemma {:induction false} AllRecorded(tasks: seq<Task>, entries: seq<Target>, events: seq<Event>, shares: seq<real>)
    requires SortedEvents(tasks, events) && |tasks| == |shares| == |entries|
    requires Recorded(entries, events, |events|, shares)
    ensures forall i :: 0 <= i < |entries| ==> entries[i].weightedDuration == shares[i]
  {
    hide SortedEvents;
    forall i | 0 <= i < |entries| ensures entries[i].weightedDuration == shares[i] {
      var j := EventAt(tasks, events, StopOf(tasks, i));
    }
  }

  /** The sweep fails exactly when there is nothing to sweep or a step ends before it starts.
      Otherwise every target gets its share, whatever order the sort gave ties, and the total
      is the time during which something ran. */
  method Sweep(entries: seq<Target>, events: seq<Event>) returns (total: Option<real>)
    requires Distinct(entries)
    requires SortedEvents(TasksOf(entries), events)
    modifies entries`weightedDuration
    ensures total.Some? <==> entries != [] && Ordered(TasksOf(entries))
    ensures total.Some? ==>
              && total.value == Busy(TasksOf(entries), Times(events), |events| - 1)
              && forall i :: 0 <= i < |entries| ==>
                   entries[i].weightedDuration == Share(TasksOf(entries), Times(events), i)
  {
    hide *;
    ghost var tasks := TasksOf(entries);
    NothingToSweep(tasks, events);
    if events == [] { return None; }
    ghost var shares := seq(|tasks|, i => 0.0);
    var running: map<nat, real> := map[];
    var lastTime, accumulated, weightedTotal := events[0].time, 0.0, 0.0;
    NothingYet(tasks, events, shares);
    NothingRecorded(entries, events, shares);
    for k := 0 to |events|
      invariant |shares| == |entries|
      invariant Accounted(tasks, events, k, if k == 0 then 0 else k - 1, running, accumulated, shares)
      invariant lastTime == if k == 0 then events[0].time else events[k - 1].time
      invariant weightedTotal == Sum(shares)
      invariant Recorded(entries, events, k, shares)
    {
      ghost var before := shares;
      var ok, weighted;
      ok, running, accumulated, weighted, shares :=
        ProcessEvent(tasks, events, k, lastTime, running, accumulated, shares);
      if !ok {
        return None;
      }
      Record(entries, events, k, weighted, before);
      if events[k].action == Stop { weightedTotal := weightedTotal + weighted; }
      lastTime := events[k].time;
    }
    AllAccounted(tasks, events, running, accumulated, shares);
    AllOrdered(tasks, events, running, accumulated, shares);
    AllRecorded(tasks, entries, events, shares);
    assert |running| == 0;
    total := Some(weightedTotal);
  }

  lemma {:induction false} NothingRecorded(entries: seq<Target>, events: seq<Event>, shares: seq<real>)
    requires |shares| == |entries|
    ensures Recorded(entries, events, 0, shares)
  {
  }

  lemma {:induction false} NothingToSweep(tasks: seq<Task>, events: seq<Event>)
    requires SortedEvents(tasks, events)
    ensures events == [] <==> tasks == []
  {
    assert AllEvents(tasks, 0) == [];
    assert |events| == |multiset(events)| == |multiset(AllEvents(tasks, |tasks|))|;
    if tasks != [] { Membership(tasks, events, StartOf(tasks, 0)); }
  }

  lemma {:induction false} AllOrdered(
      tasks: seq<Task>, events: seq<Event>, running: map<nat, real>, accumulated: real, shares: seq<real>)
    requires SortedEvents(tasks, events) && events != []
    requires Accounted(tasks, events, |events|, |events| - 1, running, accumulated, shares)
    ensures Ordered(tasks)
  {
    AllAccounted(tasks, events, running, accumulated, shares);
  }

  lemma {:induction false} NothingYet(tasks: seq<Task>, events: seq<Event>, shares: seq<real>)
    requires events != [] && |shares| == |tasks| && forall i :: 0 <= i < |shares| ==> shares[i] == 0.0
    ensures Accounted(tasks, events, 0, 0, map[], 0.0, shares) && Sum(shares) == 0.0
  {
    SumOfZeros(shares);
  }

  // ---------- The weighted total against the length of the build ----------

  ghost predicate Ordered(tasks: seq<Task>) {
    forall i :: 0 <= i < |tasks| ==> tasks[i].start <= tasks[i].end
  }

  lemma {:induction false} EventsWhileRunning(tasks: seq<Task>, events: seq<Event>, j: nat)
    requires SortedEvents(tasks, events) && Ordered(tasks) && j < |events|
    ensures RunningAt(tasks, events[j].time)
  {
    Membership(tasks, events, events[j]);
    hide SortedEvents;
    var i := events[j].task;
    assert tasks[i].start <= events[j].time <= tasks[i].end;
  }

  lemma {:induction false} FirstIsLeast(tasks: seq<Task>, events: seq<Event>)
    requires SortedEvents(tasks, events) && Ordered(tasks) && events != []
    ensures IsLeastStart(tasks, events[0].time)
  {
    hide SortedEvents;
    Membership(tasks, events, events[0]);
    forall i | 0 <= i < |tasks| ensures events[0].time <= tasks[i].start { FirstIsEarlier(tasks, events, i); }
    var t := events[0].task;
    assert tasks[t].start == events[0].time;
  }

  lemma {:induction false} FirstIsEarlier(tasks: seq<Task>, events: seq<Event>, i: nat)
    requires SortedEvents(tasks, events) && events != [] && i < |tasks|
    ensures events[0].time <= tasks[i].start
  {
    var p := EventAt(tasks, events, StartOf(tasks, i));
    assert p > 0 ==> KeyLeq(events[0], events[p]);
  }

  lemma {:induction false} LastIsGreatest(tasks: seq<Task>, events: seq<Event>)
    requires SortedEvents(tasks, events) && Ordered(tasks) && events != []
    ensures IsGreatestEnd(tasks, events[|events| - 1].time)
  {
    hide SortedEvents;
    var last := events[|events| - 1];
    Membership(tasks, events, last);
    forall i | 0 <= i < |tasks| ensures tasks[i].end <= last.time { LastIsLater(tasks, events, i); }
    assert tasks[last.task].end == last.time;
  }

  lemma {:induction false} LastIsLater(tasks: seq<Task>, events: seq<Event>, i: nat)
    requires SortedEvents(tasks, events) && events != [] && i < |tasks|
    ensures tasks[i].end <= events[|events| - 1].time
  {
    var q := EventAt(tasks, events, StopOf(tasks, i));
    assert q < |events| - 1 ==> KeyLeq(events[q], events[|events| - 1]);
  }

  /** `weightedTotal` fits a build of this length: they agree exactly when nothing was ever idle. */
  ghost predicate Fits(tasks: seq<Task>, weightedTotal: real, length: real) {
    exists earliest, latest ::
      && IsLeastStart(tasks, earliest) && IsGreatestEnd(tasks, latest)
      && length == latest - earliest
      && weightedTotal <= length
      && (weightedTotal == length <==> NoGap(tasks, earliest, latest))
  }

  lemma {:induction false} BusyFits(tasks: seq<Task>, events: seq<Event>, length: real)
    requires SortedEvents(tasks, events) && Ordered(tasks) && events != []
    requires length == events[|events| - 1].time - events[0].time
    ensures Fits(tasks, Busy(tasks, Times(events), |events| - 1), length)
  {
    hide SortedEvents, IsLeastStart, IsGreatestEnd, NoGap, RunningAt, Busy;
    var times := Times(events);
    SortedTimes(tasks, events);
    FirstIsLeast(tasks, events);
    LastIsGreatest(tasks, events);
    forall j | 0 <= j < |times| ensures RunningAt(tasks, times[j]) { EventsWhileRunning(tasks, events, j); }
    BusyIsLengthExactly(tasks, times);
  }

  /** The length comes out as the time from the earliest start to the latest end. With an end that
      is not negative, that takes a least start that is not negative or comes last; with negative
      ends only, the last start must happen to lie as far below zero as the build is long. */
  ghost predicate LengthComesOut(tasks: seq<Task>, earliest: real, latest: real)
    requires tasks != []
  {
    var last := tasks[|tasks| - 1].start;
    if latest >= 0.0 then earliest >= 0.0 || last == earliest else last == earliest - latest
  }

  /** The weighted total fits the build, and the reported length exactly as far as it comes out. */
  ghost predicate Summarises(tasks: seq<Task>, length: real, weightedTotal: real)
    requires tasks != []
  {
    exists earliest, latest ::
      && IsLeastStart(tasks, earliest) && IsGreatestEnd(tasks, latest)
      && Fits(tasks, weightedTotal, latest - earliest)
      && (Fits(tasks, weightedTotal, length) <==> LengthComesOut(tasks, earliest, latest))
  }

  /** Two steps, the first of which starts before zero: its start is lost, and the build comes out short. */
  lemma {:induction false} NegativeStartIsLost(earliest: real, latest: real)
    ensures var tasks := [Task(-1.0, 0.0), Task(0.0, 1.0)];
            && Ordered(tasks) && IsLeastStart(tasks, -1.0) && IsGreatestEnd(tasks, 1.0)
            && (IsExtent(tasks, earliest, latest) ==> earliest == 0.0 && latest == 1.0)
  {
    var tasks := [Task(-1.0, 0.0), Task(0.0, 1.0)];
    assert tasks[0].start == -1.0 && tasks[1].end == 1.0;
    assert IsLeastStart(tasks, -1.0) && IsGreatestEnd(tasks, 1.0);
  }

  lemma {:induction false} FitsItsLength(tasks: seq<Task>, total: real, length: real, earliest: real, latest: real)
    requires Fits(tasks, total, latest - earliest)
    requires IsLeastStart(tasks, earliest) && IsGreatestEnd(tasks, latest)
    ensures Fits(tasks, total, length) <==> length == latest - earliest
  {
    hide NoGap;
  }

  /** The summary: how long the build took and the sum of the weighted durations. The sum never
      exceeds the time from the earliest start to the latest end, and equals it exactly when at
      every moment of the build something was running; the length is that time exactly as
      `LengthComesOut` says. */
  method SummarizeEntries(entries: seq<Target>, events: seq<Event>)
    returns (r: Option<(real, real)>)
    requires Distinct(entries) && SortedEvents(TasksOf(entries), events)
    modifies entries`weightedDuration
    ensures r.Some? <==> entries != [] && Ordered(TasksOf(entries))
    ensures r.Some? ==> forall i :: 0 <= i < |entries| ==>
              && entries[i].weightedDuration == Share(TasksOf(entries), Times(events), i)
              && 0.0 <= entries[i].weightedDuration <= entries[i].end - entries[i].start
    ensures r.Some? ==> Summarises(TasksOf(entries), r.value.0, r.value.1)
  {
    hide SortedEvents, Share, Busy, Distinct, IsExtent, Summarises, TasksOf, Times, Ordered, Ascending, TimesOf;
    var earliest, latest, _ := Extent(TasksOf(entries));
    var total := Sweep(entries, events);
    ghost var tasks, times := TasksOf(entries), Times(events);
    NothingToSweep(tasks, events);
    if total.None? { return None; }
    r := Some((latest - earliest, total.value));
    SortedTimes(tasks, events);
    AllWithinDuration(tasks, times);
    SummaryFits(tasks, events, earliest, latest);
  }

  lemma {:induction false} SummaryFits(tasks: seq<Task>, events: seq<Event>, earliest: real, latest: real)
    requires SortedEvents(tasks, events) && Ordered(tasks) && events != [] && tasks != []
    requires IsExtent(tasks, earliest, latest)
    ensures Summarises(tasks, latest - earliest, Busy(tasks, Times(events), |events| - 1))
  {
    hide SortedEvents, Busy, Fits;
    var first, last := events[0].time, events[|events| - 1].time;
    var total := Busy(tasks, Times(events), |events| - 1);
    FirstIsLeast(tasks, events);
    LastIsGreatest(tasks, events);
    BusyFits(tasks, events, last - first);
    FitsItsLength(tasks, total, latest - earliest, first, last);
    NegativeEnds(tasks, last);
    ExtentLength(tasks, earliest, latest, first, last);
  }

  lemma {:induction false} ExtentLength(
      tasks: seq<Task>, earliest: real, latest: real, first: real, last: real)
    requires tasks != [] && IsExtent(tasks, earliest, latest)
    requires IsLeastStart(tasks, first) && IsGreatestEnd(tasks, last)
    requires last < 0.0 ==> forall i :: 0 <= i < |tasks| ==> tasks[i].start < 0.0 && tasks[i].end < 0.0
    ensures latest - earliest == last - first <==> LengthComesOut(tasks, first, last)
  {
  }

  lemma {:induction false} AllWithinDuration(tasks: seq<Task>, times: seq<real>)
    requires Ascending(times) && Ordered(tasks)
    ensures forall i :: 0 <= i < |tasks| ==> 0.0 <= Share(tasks, times, i) <= tasks[i].end - tasks[i].start
  {
    hide Share;
    forall i | 0 <= i < |tasks| ensures 0.0 <= Share(tasks, times, i) <= tasks[i].end - tasks[i].start {
      ShareWithinDuration(tasks, times, i);
    }
  }

  lemma {:induction false} NegativeEnds(tasks: seq<Task>, latest: real)
    requires Ordered(tasks) && IsGreatestEnd(tasks, latest)
    ensures latest < 0.0 ==> forall i :: 0 <= i < |tasks| ==> tasks[i].start < 0.0 && tasks[i].end < 0.0
  {
  }
}
