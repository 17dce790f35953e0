/**
  How elapsed build time is shared among concurrent build steps in
  `tools/report_build_time_ninja.py`: the start and stop events in time order, the share each
  step gets of every stretch of time it runs in, and what the shares add up to.
 */
module BuildSweep {
  import opened RealArith

  datatype Task = Task(start: real, end: real)

  datatype Action = Start | Stop

  datatype Event = Event(time: real, action: Action, task: nat)

  function StartOf(tasks: seq<Task>, i: nat): Event
    requires i < |tasks|
  {
    Event(tasks[i].start, Start, i)
  }

  function StopOf(tasks: seq<Task>, i: nat): Event
    requires i < |tasks|
  {
    Event(tasks[i].end, Stop, i)
  }

  /** Every start and stop, in the order in which the report lists them before sorting. */
  function AllEvents(tasks: seq<Task>, n: nat): (events: seq<Event>)
    requires n <= |tasks|
  {
    if n == 0 then [] else AllEvents(tasks, n - 1) + [StartOf(tasks, n - 1), StopOf(tasks, n - 1)]
  }

  /** Sort key: the time, then the action's name, so that "start" comes before "stop". */
  predicate KeyLeq(a: Event, b: Event) {
    a.time < b.time || (a.time == b.time && (a.action.Start? || b.action.Stop?))
  }

  /** A possible outcome of sorting the events; ties may come in any order. */
  ghost predicate SortedEvents(tasks: seq<Task>, events: seq<Event>) {
    && multiset(events) == multiset(AllEvents(tasks, |tasks|))
    && (forall j, k :: 0 <= j < k < |events| ==> KeyLeq(events[j], events[k]))
  }

  function Times(events: seq<Event>): (times: seq<real>)
    ensures |times| == |events|
    ensures forall k :: 0 <= k < |events| ==> times[k] == events[k].time
  {
    seq(|events|, k requires 0 <= k < |events| => events[k].time)
  }

  ghost predicate Ascending(times: seq<real>) {
    forall j, k :: 0 <= j < k < |times| ==> times[j] <= times[k]
  }

  // ---------- Each event occurs once ----------

  lemma {:induction false} CountAfter(events: seq<Event>, s: Event, t: Event, e: Event)
    ensures multiset(events + [s, t])[e] ==
            multiset(events)[e] + (if e == s then 1 else 0) + (if e == t then 1 else 0)
  {
    assert events + [s, t] == (events + [s]) + [t];
  }

  /** `e` is the start or the stop of one of the first `n` tasks. */
  predicate Occurs(tasks: seq<Task>, n: nat, e: Event)
    requires n <= |tasks|
  {
    e.task < n && e.time == if e.action.Start? then tasks[e.task].start else tasks[e.task].end
  }

  lemma {:induction false} OccursNext(tasks: seq<Task>, n: nat, e: Event)
    requires 0 < n <= |tasks|
    ensures (if Occurs(tasks, n, e) then 1 else 0) ==
            (if Occurs(tasks, n - 1, e) then 1 else 0)
            + (if e == StartOf(tasks, n - 1) then 1 else 0) + (if e == StopOf(tasks, n - 1) then 1 else 0)
  {
  }

  lemma {:induction false} NoEvents(tasks: seq<Task>, e: Event)
    ensures multiset(AllEvents(tasks, 0))[e] == 0 && !Occurs(tasks, 0, e)
  {
  }

  lemma {:induction false} AllEventsNext(tasks: seq<Task>, n: nat)
    requires 0 < n <= |tasks|
    ensures AllEvents(tasks, n) == AllEvents(tasks, n - 1) + [StartOf(tasks, n - 1), StopOf(tasks, n - 1)]
  {
  }

  lemma {:induction false} ListedOnce(tasks: seq<Task>, n: nat, e: Event)
    requires n <= |tasks|
    ensures multiset(AllEvents(tasks, n))[e] == if Occurs(tasks, n, e) then 1 else 0
  {
    hide *;
    if n == 0 {
      NoEvents(tasks, e);
    } else {
      ListedOnce(tasks, n - 1, e);
      OccursNext(tasks, n, e);
      AllEventsNext(tasks, n);
      CountAfter(AllEvents(tasks, n - 1), StartOf(tasks, n - 1), StopOf(tasks, n - 1), e);
    }
  }

  lemma {:induction false} Membership(tasks: seq<Task>, events: seq<Event>, e: Event)
    requires SortedEvents(tasks, events)
    ensures e in events <==> Occurs(tasks, |tasks|, e)
  {
    ListedOnce(tasks, |tasks|, e);
    assert e in events <==> multiset(events)[e] > 0;
  }

  lemma {:induction false} NoRepeats(tasks: seq<Task>, events: seq<Event>, k: nat)
    requires SortedEvents(tasks, events) && k < |events|
    ensures events[k] !in events[..k]
  {
    var e := events[k];
    ListedOnce(tasks, |tasks|, e);
    assert events == events[..k] + [e] + events[k + 1..];
    assert multiset(events) == multiset(events[..k]) + multiset{e} + multiset(events[k + 1..]);
    assert multiset(events[..k])[e] == 0;
  }

  // ---------- Shares of time ----------

  /** The tasks that run throughout the stretch from `a` to `b`. */
  function Covering(tasks: seq<Task>, a: real, b: real): set<nat> {
    set i: nat | i < |tasks| && tasks[i].start <= a && b <= tasks[i].end
  }

  /** Task `i`'s part of the stretch from `a` to `b`: an equal split among the tasks running. */
  function Contribution(tasks: seq<Task>, a: real, b: real, i: nat): real {
    if a < b && i in Covering(tasks, a, b) then (b - a) / |Covering(tasks, a, b)| as real else 0.0
  }

  /** Task `i`'s parts of the first `k` stretches between consecutive event times. */
  function Covered(tasks: seq<Task>, times: seq<real>, i: nat, k: nat): real
    requires k < |times| || k == 0
  {
    if k == 0 then 0.0
    else Covered(tasks, times, i, k - 1) + Contribution(tasks, times[k - 1], times[k], i)
  }

  function Share(tasks: seq<Task>, times: seq<real>, i: nat): real {
    Covered(tasks, times, i, if times == [] then 0 else |times| - 1)
  }

  /** Time, among the first `k` stretches, during which at least one task runs. */
  function Busy(tasks: seq<Task>, times: seq<real>, k: nat): real
    requires k < |times| || k == 0
  {
    if k == 0 then 0.0
    else Busy(tasks, times, k - 1)
         + if Covering(tasks, times[k - 1], times[k]) != {} then times[k] - times[k - 1] else 0.0
  }

  lemma {:induction false} SumUpdate(s: seq<real>, i: nat, x: real)
    requires i < |s|
    ensures Sum(s[i := x]) == Sum(s) - s[i] + x
  {
    var n := |s| - 1;
    if i == n {
      assert s[i := x][..n] == s[..n];
    } else {
      assert s[i := x][..n] == s[..n][i := x];
      SumUpdate(s[..n], i, x);
    }
  }

  // ---------- Conservation ----------

  function CoveredAll(tasks: seq<Task>, times: seq<real>, k: nat, n: nat): (s: seq<real>)
    requires k < |times| || k == 0
    ensures |s| == n
  {
    seq(n, i requires 0 <= i < n => Covered(tasks, times, i, k))
  }

  /** Adding `x` for every member of `c` that is an index adds `x` once per such member. */
  lemma {:induction false} SumOverMembers(before: seq<real>, after: seq<real>, c: set<nat>, x: real)
    requires |before| == |after|
    requires forall i :: 0 <= i < |before| ==> after[i] == before[i] + if i in c then x else 0.0
    ensures var m := set i | i in c && i < |before|;
            Sum(after) == Sum(before) + Mul(|m| as real, x)
  {
    hide Mul, Sum;
    var n := |before| - 1;
    var m := set i | i in c && i < |before|;
    if before == [] {
      assert m == {};
      NoMembers(x);
    } else {
      SumLast(before);
      SumLast(after);
      var m' := set i | i in c && i < n;
      SumOverMembers(before[..n], after[..n], c, x);
      if n in c {
        assert m == m' + {n};
        OneMore(|m'|, x);
      } else {
        assert m == m';
      }
    }
  }

  lemma {:induction false} NoMembers(x: real)
    ensures Mul(0.0, x) == 0.0 && Sum([]) == 0.0
  {
  }

  lemma {:induction false} SumLast(s: seq<real>)
    requires s != []
    ensures Sum(s) == Sum(s[..|s| - 1]) + s[|s| - 1]
  {
  }

  lemma {:induction false} OneMore(count: nat, x: real)
    ensures Mul((count + 1) as real, x) == Mul(count as real, x) + x
  {
    MulDistributes(count as real, 1.0, x);
  }

  lemma {:induction false} SplitEvenly(length: real, count: nat)
    requires count > 0
    ensures Mul(count as real, length / count as real) == length
  {
  }

  lemma {:induction false} SharesAreBusyTime(tasks: seq<Task>, times: seq<real>, k: nat)
    requires Ascending(times) && (k < |times| || k == 0)
    ensures Sum(CoveredAll(tasks, times, k, |tasks|)) == Busy(tasks, times, k)
  {
    var n := |tasks|;
    if k == 0 {
      SumOfZeros(CoveredAll(tasks, times, 0, n));
    } else {
      hide Mul, Sum;
      SharesAreBusyTime(tasks, times, k - 1);
      var a, b := times[k - 1], times[k];
      assert a <= b;
      var c := Covering(tasks, a, b);
      assert (set i | i in c && i < n) == c;
      var x := if a < b && c != {} then (b - a) / |c| as real else 0.0;
      var before, after := CoveredAll(tasks, times, k - 1, n), CoveredAll(tasks, times, k, n);
      assert |before| == |after| == n;
      forall i | 0 <= i < n ensures after[i] == before[i] + if i in c then x else 0.0 {
        assert after[i] == before[i] + Contribution(tasks, a, b, i);
      }
      SumOverMembers(before, after, c, x);
      StretchIsSplit(a, b, |c|);
    }
  }

  lemma {:induction false} StretchIsSplit(a: real, b: real, count: nat)
    requires a <= b
    ensures var x := if a < b && count != 0 then (b - a) / count as real else 0.0;
            Mul(count as real, x) == if count != 0 then b - a else 0.0
  {
    if count != 0 { SplitEvenly(b - a, count); }
  }

  lemma {:induction false} SumOfZeros(s: seq<real>)
    requires forall i :: 0 <= i < |s| ==> s[i] == 0.0
    ensures Sum(s) == 0.0
  {
    if s == [] {
    } else {
      SumOfZeros(s[..|s| - 1]);
    }
  }

  // ---------- A share never exceeds the duration ----------

  /** How much of task `t` lies before `x`. */
  function Elapsed(t: Task, x: real): real {
    if x <= t.start then 0.0 else if x <= t.end then x - t.start else t.end - t.start
  }

  lemma {:induction false} PartIsSmaller(length: real, count: nat)
    requires count > 0 && length >= 0.0
    ensures 0.0 <= length / count as real <= length
  {
  }

  lemma {:induction false} CoveredWithinElapsed(tasks: seq<Task>, times: seq<real>, i: nat, k: nat)
    requires Ascending(times) && k < |times| && i < |tasks| && tasks[i].start <= tasks[i].end
    ensures 0.0 <= Covered(tasks, times, i, k) <= Elapsed(tasks[i], times[k])
  {
    if k == 0 {
    } else {
      CoveredWithinElapsed(tasks, times, i, k - 1);
      var a, b := times[k - 1], times[k];
      assert a <= b;
      var c := Covering(tasks, a, b);
      if a < b && i in c {
        PartIsSmaller(b - a, |c|);
      }
    }
  }

  lemma {:induction false} ShareWithinDuration(tasks: seq<Task>, times: seq<real>, i: nat)
    requires Ascending(times) && i < |tasks| && tasks[i].start <= tasks[i].end
    ensures 0.0 <= Share(tasks, times, i) <= tasks[i].end - tasks[i].start
  {
    if times != [] { CoveredWithinElapsed(tasks, times, i, |times| - 1); }
  }

  // ---------- Busy time against the length of the build ----------

  /** Something runs at time `t`. */
  ghost predicate RunningAt(tasks: seq<Task>, t: real) {
    exists i :: 0 <= i < |tasks| && tasks[i].start <= t <= tasks[i].end
  }

  /** Every moment from `a` to `b` has something running. */
  ghost predicate NoGap(tasks: seq<Task>, a: real, b: real) {
    forall t: real :: a <= t <= b ==> RunningAt(tasks, t)
  }

  /** All starts and ends are among the event times. */
  ghost predicate TimesOf(tasks: seq<Task>, times: seq<real>) {
    forall i :: 0 <= i < |tasks| ==> tasks[i].start in times && tasks[i].end in times
  }

  lemma {:induction false} EarlierIndex(times: seq<real>, j: nat, k: nat)
    requires Ascending(times) && j < |times| && k < |times| && times[j] < times[k]
    ensures j < k
  {
  }

  /** A stretch between consecutive event times is covered exactly when something runs inside it. */
  lemma {:induction false} CoveredExactlyWhenRunning(tasks: seq<Task>, times: seq<real>, k: nat, t: real)
    requires Ascending(times) && TimesOf(tasks, times) && 0 < k < |times|
    requires times[k - 1] < t < times[k]
    ensures Covering(tasks, times[k - 1], times[k]) != {} <==> RunningAt(tasks, t)
  {
    if RunningAt(tasks, t) {
      var i :| 0 <= i < |tasks| && tasks[i].start <= t <= tasks[i].end;
      var m :| 0 <= m < |times| && times[m] == tasks[i].start;
      EarlierIndex(times, m, k);
      assert times[m] <= times[k - 1];
      var m' :| 0 <= m' < |times| && times[m'] == tasks[i].end;
      EarlierIndex(times, k - 1, m');
      assert times[k] <= times[m'];
      assert i in Covering(tasks, times[k - 1], times[k]);
    }
    if Covering(tasks, times[k - 1], times[k]) != {} {
      var i :| i in Covering(tasks, times[k - 1], times[k]);
      assert tasks[i].start <= t <= tasks[i].end;
    }
  }

  // ---------- Equal shares ----------

  /** Exactly the tasks of `c` run while task `i` does, and they run all the while. */
  ghost predicate Company(tasks: seq<Task>, i: nat, c: set<nat>)
    requires i < |tasks|
  {
    && i in c
    && (forall j <- c :: j < |tasks| && tasks[j].start <= tasks[i].start && tasks[i].end <= tasks[j].end)
    && (forall j :: 0 <= j < |tasks| && j !in c ==>
          tasks[j].end <= tasks[i].start || tasks[i].end <= tasks[j].start)
  }

  lemma {:induction false} NoEventBetween(times: seq<real>, k: nat, x: real)
    requires Ascending(times) && 0 < k < |times| && x in times
    ensures x <= times[k - 1] || times[k] <= x
  {
    var m :| 0 <= m < |times| && times[m] == x;
    if m < k { assert m < k - 1 ==> times[m] <= times[k - 1]; } else { assert k < m ==> times[k] <= times[m]; }
  }

  lemma {:induction false} CompanyCovers(tasks: seq<Task>, i: nat, c: set<nat>, a: real, b: real)
    requires i < |tasks| && Company(tasks, i, c) && a < b && i in Covering(tasks, a, b)
    ensures Covering(tasks, a, b) == c
  {
  }

  lemma {:induction false} CompanyShares(tasks: seq<Task>, times: seq<real>, i: nat, c: set<nat>, k: nat)
    requires Ascending(times) && TimesOf(tasks, times) && k < |times| && i < |tasks|
    requires tasks[i].start <= tasks[i].end && Company(tasks, i, c)
    ensures Mul(|c| as real, Covered(tasks, times, i, k)) == Elapsed(tasks[i], times[k])
  {
    if k == 0 {
      var m :| 0 <= m < |times| && times[m] == tasks[i].start;
      assert m > 0 ==> times[0] <= times[m];
    } else {
      CompanyShares(tasks, times, i, c, k - 1);
      var a, b := times[k - 1], times[k];
      assert a <= b;
      NoEventBetween(times, k, tasks[i].start);
      NoEventBetween(times, k, tasks[i].end);
      CompanyStretch(tasks, i, c, a, b, Covered(tasks, times, i, k - 1));
    }
  }

  lemma {:induction false} CompanyStretch(tasks: seq<Task>, i: nat, c: set<nat>, a: real, b: real, before: real)
    requires i < |tasks| && tasks[i].start <= tasks[i].end && Company(tasks, i, c) && a <= b
    requires tasks[i].start <= a || b <= tasks[i].start
    requires tasks[i].end <= a || b <= tasks[i].end
    requires Mul(|c| as real, before) == Elapsed(tasks[i], a)
    ensures Mul(|c| as real, before + Contribution(tasks, a, b, i)) == Elapsed(tasks[i], b)
  {
    var x, n := Contribution(tasks, a, b, i), |c| as real;
    MulCommutes(n, before + x);
    MulDistributes(before, x, n);
    MulCommutes(before, n);
    MulCommutes(x, n);
    if a < b && i in Covering(tasks, a, b) {
      CompanyCovers(tasks, i, c, a, b);
      DivThenMul(b - a, n);
    }
  }

  /** When the same tasks run beside task `i` all the while, its share is its duration divided by how
      many they are. */
  lemma {:induction false} CompanySplitsDuration(tasks: seq<Task>, times: seq<real>, i: nat, c: set<nat>)
    requires Ascending(times) && TimesOf(tasks, times) && i < |tasks|
    requires tasks[i].start <= tasks[i].end && Company(tasks, i, c)
    ensures Mul(|c| as real, Share(tasks, times, i)) == tasks[i].end - tasks[i].start
  {
    var n := |times| - 1;
    CompanyShares(tasks, times, i, c, n);
    var m :| 0 <= m < |times| && times[m] == tasks[i].end;
    assert m < n ==> times[m] <= times[n];
  }

  // ---------- Busy time against elapsed time ----------

  lemma {:induction false} BusyAtMostElapsed(tasks: seq<Task>, times: seq<real>, k: nat)
    requires Ascending(times) && k < |times|
    ensures Busy(tasks, times, k) <= times[k] - times[0]
  {
    if k == 0 {
    } else {
      BusyAtMostElapsed(tasks, times, k - 1);
      assert times[k - 1] <= times[k];
    }
  }

  lemma {:induction false} BusyWithoutGap(tasks: seq<Task>, times: seq<real>, k: nat)
    requires Ascending(times) && TimesOf(tasks, times) && k < |times|
    requires NoGap(tasks, times[0], times[k])
    ensures Busy(tasks, times, k) == times[k] - times[0]
  {
    if k == 0 {
    } else {
      var a, b := times[k - 1], times[k];
      assert a <= b && times[0] <= a;
      BusyWithoutGap(tasks, times, k - 1);
      if a < b {
        var t := (a + b) / 2.0;
        assert RunningAt(tasks, t);
        CoveredExactlyWhenRunning(tasks, times, k, t);
      }
    }
  }

  lemma {:induction false} BusyWithGap(tasks: seq<Task>, times: seq<real>, k: nat, t: real)
    requires Ascending(times) && TimesOf(tasks, times) && k < |times|
    requires times[0] <= t <= times[k] && !RunningAt(tasks, t)
    requires forall j :: 0 <= j < |times| ==> times[j] != t
    ensures Busy(tasks, times, k) < times[k] - times[0]
  {
    var a, b := times[k - 1], times[k];
    assert a <= b;
    if t < a {
      BusyWithGap(tasks, times, k - 1, t);
    } else {
      assert times[k - 1] != t;
      CoveredExactlyWhenRunning(tasks, times, k, t);
      BusyAtMostElapsed(tasks, times, k - 1);
    }
  }

  /** Busy time equals the whole span exactly when the build has no idle moment. */
  lemma {:induction false} BusyIsLengthExactly(tasks: seq<Task>, times: seq<real>)
    requires Ascending(times) && TimesOf(tasks, times) && times != []
    requires forall j :: 0 <= j < |times| ==> RunningAt(tasks, times[j])
    ensures var k := |times| - 1;
            && Busy(tasks, times, k) <= times[k] - times[0]
            && (Busy(tasks, times, k) == times[k] - times[0] <==> NoGap(tasks, times[0], times[k]))
  {
    hide Busy, RunningAt;
    var k := |times| - 1;
    BusyAtMostElapsed(tasks, times, k);
    if NoGap(tasks, times[0], times[k]) {
      BusyWithoutGap(tasks, times, k);
    } else {
      var t: real :| times[0] <= t <= times[k] && !RunningAt(tasks, t);
      BusyWithGap(tasks, times, k, t);
    }
  }

  // ---------- Ties do not matter ----------

  function Without<T>(s: seq<T>, j: nat): seq<T>
    requires j < |s|
  {
    s[..j] + s[j + 1..]
  }

  lemma {:induction false} TakeOut<T>(s: seq<T>, j: nat)
    requires j < |s|
    ensures multiset(s) == multiset{s[j]} + multiset(Without(s, j))
  {
    assert s == s[..j] + [s[j]] + s[j + 1..];
  }

  lemma {:induction false} Cancel<T>(x: T, a: multiset<T>, b: multiset<T>)
    requires multiset{x} + a == multiset{x} + b
    ensures a == b
  {
    assert a == multiset{x} + a - multiset{x};
    assert b == multiset{x} + b - multiset{x};
  }

  lemma {:induction false} SameTimesAsMultiset(e: seq<Event>, f: seq<Event>)
    requires multiset(e) == multiset(f)
    ensures multiset(Times(e)) == multiset(Times(f))
    decreases |e|, 1
  {
    assert |e| == |multiset(e)| == |multiset(f)| == |f|;
    if e != [] {
      assert e[0] in multiset(f);
      var j :| 0 <= j < |f| && f[j] == e[0];
      TakeOut(e, 0);
      TakeOut(f, j);
      Cancel(e[0], multiset(Without(e, 0)), multiset(Without(f, j)));
      SameTimesWithout(e, 0, f, j);
    }
  }

  lemma {:induction false} SameTimesWithout(e: seq<Event>, i: nat, f: seq<Event>, j: nat)
    requires i < |e| && j < |f| && e[i] == f[j]
    requires multiset(Without(e, i)) == multiset(Without(f, j))
    ensures multiset(Times(e)) == multiset(Times(f))
    decreases |e|, 0
  {
    SameTimesAsMultiset(Without(e, i), Without(f, j));
    assert Times(Without(e, i)) == Without(Times(e), i);
    assert Times(Without(f, j)) == Without(Times(f), j);
    TakeOut(Times(e), i);
    TakeOut(Times(f), j);
  }

  lemma {:induction false} SameLength(s: seq<real>, t: seq<real>)
    requires multiset(s) == multiset(t)
    ensures |s| == |t|
  {
    assert |s| == |multiset(s)| == |multiset(t)| == |t|;
  }

  lemma {:induction false} SameTails(s: seq<real>, t: seq<real>)
    requires s != [] && t != [] && s[0] == t[0] && multiset(s) == multiset(t)
    ensures multiset(s[1..]) == multiset(t[1..])
  {
    TakeOut(s, 0);
    TakeOut(t, 0);
    Cancel(s[0], multiset(Without(s, 0)), multiset(Without(t, 0)));
    assert Without(s, 0) == s[1..] && Without(t, 0) == t[1..];
  }

  lemma {:induction false} AscendingIsUnique(s: seq<real>, t: seq<real>)
    requires Ascending(s) && Ascending(t) && multiset(s) == multiset(t)
    ensures s == t
  {
    SameLength(s, t);
    if s == [] {
    } else {
      SameLeast(s, t);
      SameTails(s, t);
      AscendingIsUnique(s[1..], t[1..]);
      assert s == [s[0]] + s[1..] && t == [t[0]] + t[1..];
    }
  }

  lemma {:induction false} SameLeast(s: seq<real>, t: seq<real>)
    requires Ascending(s) && Ascending(t) && multiset(s) == multiset(t) && s != [] && t != []
    ensures s[0] == t[0]
  {
    assert s[0] in multiset(t) && t[0] in multiset(s);
    var i :| 0 <= i < |t| && t[i] == s[0];
    var j :| 0 <= j < |s| && s[j] == t[0];
    assert t[0] <= t[i] && s[0] <= s[j];
  }

  lemma {:induction false} SortedTimes(tasks: seq<Task>, events: seq<Event>)
    requires SortedEvents(tasks, events)
    ensures Ascending(Times(events)) && TimesOf(tasks, Times(events))
  {
    var times := Times(events);
    forall i | 0 <= i < |tasks| ensures tasks[i].start in times && tasks[i].end in times {
      Membership(tasks, events, StartOf(tasks, i));
      Membership(tasks, events, StopOf(tasks, i));
      var j :| 0 <= j < |events| && events[j] == StartOf(tasks, i);
      var k :| 0 <= k < |events| && events[k] == StopOf(tasks, i);
      assert times[j] == tasks[i].start && times[k] == tasks[i].end;
    }
  }

  /** However the sort orders ties, the event times, and so every share, come out the same. */
  lemma {:induction false} TiesDoNotMatter(tasks: seq<Task>, e: seq<Event>, f: seq<Event>)
    requires SortedEvents(tasks, e) && SortedEvents(tasks, f)
    ensures Times(e) == Times(f)
  {
    SortedTimes(tasks, e);
    SortedTimes(tasks, f);
    SameTimesAsMultiset(e, f);
    AscendingIsUnique(Times(e), Times(f));
  }
}
