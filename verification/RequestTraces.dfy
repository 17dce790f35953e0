/**
  The request trace of `benchmarks/benchmark_taper_plus.py`: token counts and inter-token
  latencies, per branch and for the request as a whole, kept up to date as outputs stream in.
 */
module RequestTraces {
  import opened Common
  import opened RealArith

  datatype Completion = Completion(index: int, tokens: nat)

  /** One streamed output: the prompt's length if known, what each branch produced, and whether it is the last. */
  datatype Output = Output(promptLen: Option<nat>, completions: seq<Completion>, finished: bool)

  datatype Tick = Tick(output: Output, now: real)

  /** The fields of a trace. */
  datatype Trace = Trace(
    promptLen: Option<nat>,
    firstTokenTime: Option<real>,
    finishTime: Option<real>,
    outputTokens: nat,
    branchTokens: map<int, nat>,
    branchLast: map<int, real>,
    branchLatencies: seq<real>,
    logicalLatencies: seq<real>,
    logicalLast: Option<real>,
    finished: bool)

  const EMPTY := Trace(None, None, None, 0, map[], map[], [], [], None, false)

  function TotalTokens(cs: seq<Completion>): nat {
    if cs == [] then 0 else TotalTokens(cs[..|cs| - 1]) + cs[|cs| - 1].tokens
  }

  // ---------- One output ----------

  /** The request-level part of an update. */
  function Logical(t: Trace, total: nat, now: real): Trace {
    if total == 0 then t
    else
      t.(logicalLast := Some(now),
         logicalLatencies := t.logicalLatencies
           + if t.logicalLast.Some? then [(now - t.logicalLast.value) / total as real] else [])
  }

  /** One branch's part of an update. */
  function Branch(t: Trace, c: Completion, now: real): Trace {
    if c.tokens == 0 then t
    else
      t.(firstTokenTime := if t.firstTokenTime.None? then Some(now) else t.firstTokenTime,
         branchLatencies := t.branchLatencies
           + (if c.index in t.branchLast then [(now - t.branchLast[c.index]) / c.tokens as real] else []),
         branchLast := t.branchLast[c.index := now],
         branchTokens := t.branchTokens[c.index := Count(t, c.index) + c.tokens],
         outputTokens := t.outputTokens + c.tokens)
  }

  function Count(t: Trace, b: int): nat { if b in t.branchTokens then t.branchTokens[b] else 0 }

  function Branches(t: Trace, cs: seq<Completion>, now: real): Trace {
    if cs == [] then t else Branch(Branches(t, cs[..|cs| - 1], now), cs[|cs| - 1], now)
  }

  function Updated(t: Trace, o: Output, now: real): Trace {
    var p := if t.promptLen.None? && o.promptLen.Some? then t.(promptLen := o.promptLen) else t;
    var b := Branches(Logical(p, TotalTokens(o.completions), now), o.completions, now);
    if o.finished then b.(finished := true, finishTime := Some(now)) else b
  }

  class RequestTrace {
    var promptLen: Option<nat>
    var firstTokenTime: Option<real>
    var finishTime: Option<real>
    var outputTokens: nat
    var branchTokens: map<int, nat>
    var branchLast: map<int, real>
    var branchLatencies: seq<real>
    var logicalLatencies: seq<real>
    var logicalLast: Option<real>
    var finished: bool

    ghost function View(): Trace
      reads this
    {
      Trace(promptLen, firstTokenTime, finishTime, outputTokens, branchTokens, branchLast,
            branchLatencies, logicalLatencies, logicalLast, finished)
    }

    constructor ()
      ensures View() == EMPTY
    {
      promptLen, firstTokenTime, finishTime, logicalLast := None, None, None, None;
      outputTokens, branchTokens, branchLast := 0, map[], map[];
      branchLatencies, logicalLatencies, finished := [], [], false;
    }

    method AddBranch(c: Completion, now: real)
      modifies this
      ensures View() == Branch(old(View()), c, now)
    {
      if c.tokens == 0 { return; }
      if firstTokenTime.None? { firstTokenTime := Some(now); }
      if c.index in branchLast {
        branchLatencies := branchLatencies + [(now - branchLast[c.index]) / c.tokens as real];
      }
      branchLast := branchLast[c.index := now];
      var count := if c.index in branchTokens then branchTokens[c.index] else 0;
      branchTokens := branchTokens[c.index := count + c.tokens];
      outputTokens := outputTokens + c.tokens;
    }

    method AddLogical(completions: seq<Completion>, now: real)
      modifies this
      ensures View() == Logical(old(View()), TotalTokens(completions), now)
    {
      var total := 0;
      for i := 0 to |completions|
        invariant total == TotalTokens(completions[..i]) && View() == old(View())
      {
        assert completions[..i + 1][..i] == completions[..i];
        total := total + completions[i].tokens;
      }
      assert completions[..|completions|] == completions;
      if total > 0 {
        if logicalLast.Some? {
          logicalLatencies := logicalLatencies + [(now - logicalLast.value) / total as real];
        }
        logicalLast := Some(now);
      }
    }

    method UpdateFromOutput(o: Output, now: real)
      modifies this
      ensures View() == Updated(old(View()), o, now)
    {
      if promptLen.None? && o.promptLen.Some? { promptLen := o.promptLen; }
      AddLogical(o.completions, now);
      ghost var t := View();
      for i := 0 to |o.completions|
        invariant View() == Branches(t, o.completions[..i], now)
      {
        hide Branch;
        assert o.completions[..i + 1][..i] == o.completions[..i];
        AddBranch(o.completions[i], now);
      }
      assert o.completions[..|o.completions|] == o.completions;
      if o.finished { finished, finishTime := true, Some(now); }
    }
  }

  // ---------- Whole runs ----------

  function Run(ticks: seq<Tick>): Trace {
    if ticks == [] then EMPTY
    else var k := ticks[|ticks| - 1]; Updated(Run(ticks[..|ticks| - 1]), k.output, k.now)
  }

  ghost predicate Timely(ticks: seq<Tick>) {
    forall i, j :: 0 <= i < j < |ticks| ==> ticks[i].now <= ticks[j].now
  }

  // ---------- Token counts add up ----------

  ghost function Pick<T>(s: set<T>): (x: T)
    requires s != {}
    ensures x in s
  {
    var x :| x in s; x
  }

  /** The sum of a map's values over the keys `ks`. */
  ghost function SumOver(m: map<int, nat>, ks: set<int>): nat
    requires ks <= m.Keys
  {
    if ks == {} then 0
    else
      var k := Pick(ks);
      m[k] + SumOver(m, ks - {k})
  }

  lemma {:induction false} SumWithout(m: map<int, nat>, ks: set<int>, k: int)
    requires ks <= m.Keys && k in ks
    ensures SumOver(m, ks) == m[k] + SumOver(m, ks - {k})
    decreases |ks|
  {
    var j := Pick(ks);
    if j != k {
      SumWithout(m, ks - {j}, k);
      SumWithout(m, ks - {k}, j);
      assert ks - {j} - {k} == ks - {k} - {j};
    }
  }

  lemma {:induction false} SumAgrees(m: map<int, nat>, m': map<int, nat>, ks: set<int>)
    requires ks <= m.Keys && ks <= m'.Keys && forall k <- ks :: m[k] == m'[k]
    ensures SumOver(m, ks) == SumOver(m', ks)
    decreases |ks|
  {
    if ks == {} {
    } else {
      var k := Pick(ks);
      SumWithout(m, ks, k);
      SumWithout(m', ks, k);
      SumAgrees(m, m', ks - {k});
    }
  }

  lemma {:induction false} SumAfterUpdate(m: map<int, nat>, k: int, v: nat)
    ensures SumOver(m[k := v], m[k := v].Keys) == SumOver(m, m.Keys) - (if k in m then m[k] else 0) + v
  {
    var m' := m[k := v];
    SumWithout(m', m'.Keys, k);
    SumAgrees(m, m', m'.Keys - {k});
    if k in m {
      SumWithout(m, m.Keys, k);
      assert m'.Keys - {k} == m.Keys - {k};
    } else {
      assert m'.Keys - {k} == m.Keys;
    }
  }

  /** `outputTokens` is the sum of the branch counts, and branches with a count have a last time. */
  ghost predicate CountsAddUp(t: Trace) {
    && t.outputTokens == SumOver(t.branchTokens, t.branchTokens.Keys)
    && t.branchTokens.Keys == t.branchLast.Keys
  }

  lemma {:induction false} BranchesAddUp(t: Trace, cs: seq<Completion>, now: real)
    requires CountsAddUp(t)
    ensures CountsAddUp(Branches(t, cs, now))
    ensures Branches(t, cs, now).outputTokens == t.outputTokens + TotalTokens(cs)
  {
    if cs == [] {
    } else {
      var c := cs[|cs| - 1];
      BranchesAddUp(t, cs[..|cs| - 1], now);
      var b := Branches(t, cs[..|cs| - 1], now);
      assert Branches(t, cs, now) == Branch(b, c, now);
      hide Branches, SumOver;
      SumAfterUpdate(b.branchTokens, c.index, Count(b, c.index) + c.tokens);
    }
  }

  /** Over every run the tokens of the branches add up to the tokens of the request. */
  lemma {:induction false} RunAddsUp(ticks: seq<Tick>)
    ensures CountsAddUp(Run(ticks))
    ensures Run(ticks).outputTokens == TokensIn(ticks)
  {
    if ticks == [] {
    } else {
      var k := ticks[|ticks| - 1];
      RunAddsUp(ticks[..|ticks| - 1]);
      var t := Run(ticks[..|ticks| - 1]);
      var p := if t.promptLen.None? && k.output.promptLen.Some? then t.(promptLen := k.output.promptLen) else t;
      BranchesAddUp(Logical(p, TotalTokens(k.output.completions), k.now), k.output.completions, k.now);
    }
  }

  function TokensIn(ticks: seq<Tick>): nat {
    if ticks == [] then 0
    else TokensIn(ticks[..|ticks| - 1]) + TotalTokens(ticks[|ticks| - 1].output.completions)
  }

  // ---------- Latencies telescope ----------

  /** The token totals of the outputs that brought any. */
  function Totals(ticks: seq<Tick>): seq<nat> {
    if ticks == [] then []
    else
      var n := TotalTokens(ticks[|ticks| - 1].output.completions);
      Totals(ticks[..|ticks| - 1]) + if n > 0 then [n] else []
  }

  /** The time of the first output that brought any tokens. */
  function FirstTime(ticks: seq<Tick>): Option<real> {
    if ticks == [] then None
    else
      var before := FirstTime(ticks[..|ticks| - 1]);
      if before.None? && TotalTokens(ticks[|ticks| - 1].output.completions) > 0 then Some(ticks[|ticks| - 1].now)
      else before
  }

  /** Latencies times token totals, summed. */
  function Weighted(latencies: seq<real>, totals: seq<nat>): real
    requires |latencies| == |totals|
  {
    if latencies == [] then 0.0
    else
      var n := |latencies| - 1;
      Weighted(latencies[..n], totals[..n]) + Mul(latencies[n], totals[n] as real)
  }

  lemma {:induction false} BranchesKeepLogical(t: Trace, cs: seq<Completion>, now: real)
    ensures var b := Branches(t, cs, now);
            && b.logicalLast == t.logicalLast && b.logicalLatencies == t.logicalLatencies
            && b.firstTokenTime == if t.firstTokenTime.None? && TotalTokens(cs) > 0 then Some(now) else t.firstTokenTime
  {
    if cs == [] {
    } else {
      BranchesKeepLogical(t, cs[..|cs| - 1], now);
    }
  }

  lemma {:induction false} WeightedAppend(ls: seq<real>, ns: seq<nat>, l: real, n: nat)
    requires |ls| == |ns|
    ensures Weighted(ls + [l], ns + [n]) == Weighted(ls, ns) + Mul(l, n as real)
  {
    assert (ls + [l])[..|ls|] == ls && (ns + [n])[..|ns|] == ns;
  }

  lemma {:induction false} QuotientTimes(x: real, n: nat)
    requires n > 0
    ensures Mul(x / n as real, n as real) == x
  {
  }

  /** Each output after the first contributes one latency, and latencies times tokens add up to
      the time between the first and the last token. */
  ghost predicate Telescopes(t: Trace, ticks: seq<Tick>) {
    && t.firstTokenTime == FirstTime(ticks)
    && (t.logicalLast.Some? <==> Totals(ticks) != [])
    && (t.firstTokenTime.Some? <==> Totals(ticks) != [])
    && (Totals(ticks) == [] ==> t.logicalLatencies == [])
    && (Totals(ticks) != [] ==>
          && |t.logicalLatencies| == |Totals(ticks)| - 1
          && Weighted(t.logicalLatencies, Totals(ticks)[1..]) == t.logicalLast.value - t.firstTokenTime.value)
  }

  lemma {:induction false} RunTelescopes(ticks: seq<Tick>)
    ensures Telescopes(Run(ticks), ticks)
  {
    if ticks == [] {
    } else {
      var k := ticks[|ticks| - 1];
      var before := ticks[..|ticks| - 1];
      RunTelescopes(before);
      UpdateTelescopes(Run(before), before, k, ticks);
    }
  }

  lemma {:induction false} UpdateLogical(t: Trace, o: Output, now: real)
    ensures var u, l := Updated(t, o, now), Logical(t, TotalTokens(o.completions), now);
            && u.logicalLast == l.logicalLast && u.logicalLatencies == l.logicalLatencies
            && u.firstTokenTime ==
                 if t.firstTokenTime.None? && TotalTokens(o.completions) > 0 then Some(now) else t.firstTokenTime
  {
    var p := if t.promptLen.None? && o.promptLen.Some? then t.(promptLen := o.promptLen) else t;
    BranchesKeepLogical(Logical(p, TotalTokens(o.completions), now), o.completions, now);
  }

  lemma {:induction false} UpdateTelescopes(t: Trace, before: seq<Tick>, k: Tick, ticks: seq<Tick>)
    requires Telescopes(t, before) && ticks == before + [k]
    ensures Telescopes(Updated(t, k.output, k.now), ticks)
  {
    assert ticks[..|ticks| - 1] == before;
    var n := TotalTokens(k.output.completions);
    UpdateLogical(t, k.output, k.now);
    assert Totals(ticks) == Totals(before) + if n > 0 then [n] else [];
    assert FirstTime(ticks) == if FirstTime(before).None? && n > 0 then Some(k.now) else FirstTime(before);
    hide Updated, TotalTokens, Totals, FirstTime, Mul;
    if n > 0 {
      if Totals(before) != [] {
        var l := (k.now - t.logicalLast.value) / n as real;
        assert Totals(ticks)[1..] == Totals(before)[1..] + [n];
        WeightedAppend(t.logicalLatencies, Totals(before)[1..], l, n);
        QuotientTimes(k.now - t.logicalLast.value, n);
      } else {
        assert Totals(ticks)[1..] == [];
      }
    } else {
      assert Totals(ticks) == Totals(before);
    }
  }

  // ---------- Request-level latencies are the smaller ones ----------

  /** No branch has been heard of later than the request as a whole. */
  ghost predicate BranchesBehind(t: Trace) {
    forall b <- t.branchLast :: t.logicalLast.Some? && t.branchLast[b] <= t.logicalLast.value
  }

  /** No branch brings tokens twice in one output. */
  ghost predicate SpokenOnce(cs: seq<Completion>) {
    forall i, j :: 0 <= i < j < |cs| && cs[i].tokens > 0 && cs[j].tokens > 0 ==> cs[i].index != cs[j].index
  }

  /** Every latency beyond the first `n` is at least `l`. */
  ghost predicate NewLatenciesAtLeast(latencies: seq<real>, n: nat, l: real) {
    n <= |latencies| && forall i :: n <= i < |latencies| ==> l <= latencies[i]
  }

  lemma {:induction false} SlowerBranch(now: real, last: real, branchLast: real, total: nat, tokens: nat)
    requires branchLast <= last <= now && 0 < tokens <= total
    ensures (now - last) / total as real <= (now - branchLast) / tokens as real
  {
    QuotientOrder(now - last, total, tokens);
    var x, y, n := now - last, now - branchLast, tokens as real;
    assert x / n <= y / n;
  }

  lemma {:induction false} QuotientOrder(x: real, m: nat, n: nat)
    requires x >= 0.0 && 0 < n <= m
    ensures x / m as real <= x / n as real
  {
    var p, q := x / m as real, x / n as real;
    QuotientTimes(x, m);
    QuotientTimes(x, n);
    MulOrder(p, n as real, m as real);
    MulCommutes(p, n as real);
    MulCommutes(q, n as real);
    MulCancel(n as real, p, q);
  }

  lemma {:induction false} BranchesKeepTimes(t: Trace, cs: seq<Completion>, now: real, b: int)
    ensures var u := Branches(t, cs, now);
            && (b in u.branchLast ==>
                  (b in t.branchLast && u.branchLast[b] == t.branchLast[b]) || u.branchLast[b] == now)
            && ((forall i :: 0 <= i < |cs| && cs[i].tokens > 0 ==> cs[i].index != b) ==>
                  && (b in u.branchLast <==> b in t.branchLast)
                  && (b in t.branchLast ==> u.branchLast[b] == t.branchLast[b]))
  {
    if cs == [] {
    } else {
      BranchesKeepTimes(t, cs[..|cs| - 1], now, b);
    }
  }

  lemma {:induction false} TokensAtMostTotal(cs: seq<Completion>, i: nat)
    requires i < |cs|
    ensures cs[i].tokens <= TotalTokens(cs)
  {
    if i == |cs| - 1 {
    } else {
      TokensAtMostTotal(cs[..|cs| - 1], i);
    }
  }

  /** One completion keeps the latencies there are, and adds none below `(now - last) / total`
      unless its branch was heard of after `last`. */
  lemma {:induction false} BranchLatencyAtLeast(
      t: Trace, c: Completion, now: real, last: real, total: nat, n: nat)
    requires last <= now && c.tokens <= total && total > 0
    requires c.tokens > 0 && c.index in t.branchLast ==> t.branchLast[c.index] <= last
    requires NewLatenciesAtLeast(t.branchLatencies, n, (now - last) / total as real)
    ensures NewLatenciesAtLeast(Branch(t, c, now).branchLatencies, n, (now - last) / total as real)
    ensures t.branchLatencies <= Branch(t, c, now).branchLatencies
  {
    if c.tokens > 0 && c.index in t.branchLast {
      SlowerBranch(now, last, t.branchLast[c.index], total, c.tokens);
    }
  }

  lemma {:induction false} BranchesNext(t: Trace, cs: seq<Completion>, k: nat, now: real)
    requires 0 < k <= |cs|
    ensures Branches(t, cs[..k], now) == Branch(Branches(t, cs[..k - 1], now), cs[k - 1], now)
  {
    hide Branch;
    assert cs[..k][..k - 1] == cs[..k - 1];
  }

  lemma {:induction false} BranchAppends(t: Trace, c: Completion, now: real)
    ensures t.branchLatencies <= Branch(t, c, now).branchLatencies
  {
  }

  /** Each branch of one output takes at least the request's latency, when it brings tokens once
      or no time has passed. */
  lemma {:induction false} BranchLatenciesAtLeast(t: Trace, cs: seq<Completion>, k: nat, now: real, last: real)
    requires k <= |cs| && last <= now && (SpokenOnce(cs) || last == now)
    requires forall b <- t.branchLast :: t.branchLast[b] <= last
    requires TotalTokens(cs) > 0
    ensures NewLatenciesAtLeast(Branches(t, cs[..k], now).branchLatencies, |t.branchLatencies|,
                                (now - last) / TotalTokens(cs) as real)
    ensures Branches(t, cs[..k], now).branchLatencies[..|t.branchLatencies|] == t.branchLatencies
  {
    if k == 0 {
      assert cs[..0] == [];
    } else {
      var c, b := cs[k - 1], Branches(t, cs[..k - 1], now);
      BranchLatenciesAtLeast(t, cs, k - 1, now, last);
      BranchesNext(t, cs, k, now);
      BranchesKeepTimes(t, cs[..k - 1], now, c.index);
      TokensAtMostTotal(cs, k - 1);
      hide Branch, Branches, TotalTokens, NewLatenciesAtLeast;
      BranchLatencyAtLeast(b, c, now, last, TotalTokens(cs), |t.branchLatencies|);
    }
  }

  lemma {:induction false} NothingNew(t: Trace, cs: seq<Completion>, now: real)
    requires TotalTokens(cs) == 0
    ensures Branches(t, cs, now) == t
  {
    if cs == [] {
    } else {
      NothingNew(t, cs[..|cs| - 1], now);
    }
  }

  lemma {:induction false} NoLatencyAtFirst(t: Trace, cs: seq<Completion>, k: nat, now: real)
    requires k <= |cs| && t.branchLast == map[] && SpokenOnce(cs)
    ensures Branches(t, cs[..k], now).branchLatencies == t.branchLatencies
  {
    if k == 0 {
    } else {
      assert cs[..k][..k - 1] == cs[..k - 1];
      NoLatencyAtFirst(t, cs, k - 1, now);
      BranchesKeepTimes(t, cs[..k - 1], now, cs[k - 1].index);
    }
  }

  lemma {:induction false} BranchesStayBehind(t: Trace, cs: seq<Completion>, now: real)
    requires BranchesBehind(t) && (TotalTokens(cs) > 0 ==> t.logicalLast == Some(now))
    ensures BranchesBehind(Branches(t, cs, now))
  {
    BranchesKeepLogical(t, cs, now);
    if TotalTokens(cs) == 0 {
      NothingNew(t, cs, now);
    } else {
      hide Branches, TotalTokens;
      var u := Branches(t, cs, now);
      forall b | b in u.branchLast ensures u.branchLast[b] <= now { BranchesKeepTimes(t, cs, now, b); }
    }
  }

  lemma {:induction false} SpokenIsNow(t: Trace, cs: seq<Completion>, k: nat, now: real, i: nat)
    requires i < k <= |cs| && cs[i].tokens > 0
    ensures var b := Branches(t, cs[..k], now); cs[i].index in b.branchLast && b.branchLast[cs[i].index] == now
  {
    assert cs[..k][..k - 1] == cs[..k - 1];
    if i == k - 1 {
    } else {
      SpokenIsNow(t, cs, k - 1, now, i);
    }
  }

  /** Latencies are only ever appended. */
  lemma {:induction false} LatenciesGrow(t: Trace, cs: seq<Completion>, j: nat, k: nat, now: real)
    requires j <= k <= |cs|
    ensures Branches(t, cs[..j], now).branchLatencies <= Branches(t, cs[..k], now).branchLatencies
  {
    hide Branch, Branches;
    if j == k {
    } else {
      LatenciesGrow(t, cs, j, k - 1, now);
      BranchesNext(t, cs, k, now);
      BranchAppends(Branches(t, cs[..k - 1], now), cs[k - 1], now);
    }
  }

  /** The second time a branch brings tokens in one output, it records a latency of zero. */
  lemma {:induction false} RepeatIsFaster(t: Trace, cs: seq<Completion>, i: nat, j: nat, now: real, last: real)
    requires i < j < |cs| && cs[i].tokens > 0 && cs[j].tokens > 0 && cs[i].index == cs[j].index
    requires last < now && TotalTokens(cs) > 0
    ensures !NewLatenciesAtLeast(Branches(t, cs, now).branchLatencies, |t.branchLatencies|,
                                (now - last) / TotalTokens(cs) as real)
  {
    SpokenIsNow(t, cs, j, now, i);
    LatenciesGrow(t, cs, 0, j, now);
    LatenciesGrow(t, cs, j + 1, |cs|, now);
    assert cs[..|cs|] == cs && cs[..j + 1][..j] == cs[..j] && cs[..0] == [];
    var before, u := Branches(t, cs[..j], now), Branches(t, cs, now);
    assert Branches(t, cs[..j + 1], now) == Branch(before, cs[j], now);
    assert Branches(t, [], now) == t;
    hide Branches;
    var n := |before.branchLatencies|;
    ZeroQuotient(cs[j].tokens);
    assert u.branchLatencies[n] == 0.0;
    QuotientPositive(now - last, TotalTokens(cs));
  }

  lemma {:induction false} ZeroQuotient(n: nat)
    requires n > 0
    ensures 0.0 / n as real == 0.0
  {
  }

  lemma {:induction false} QuotientPositive(x: real, n: nat)
    requires x > 0.0 && n > 0
    ensures x / n as real > 0.0
  {
  }

  /** What one update does to the latencies: those recorded before stay, and when the request
      records a latency, every branch latency recorded with it is at least as large exactly
      when no branch brings tokens twice or no time has passed. */
  lemma {:induction false} RequestLatencyIsSmallest(t: Trace, o: Output, now: real)
    requires BranchesBehind(t)
    requires t.logicalLast.Some? ==> t.logicalLast.value <= now
    ensures var u, cs, n := Updated(t, o, now), o.completions, |t.logicalLatencies|;
            && BranchesBehind(u)
            && t.branchLatencies <= u.branchLatencies
            && (TotalTokens(cs) == 0 || (t.logicalLast.None? && SpokenOnce(cs)) ==>
                  u.branchLatencies == t.branchLatencies)
            && (t.logicalLast.Some? && TotalTokens(cs) > 0 ==>
                  && |u.logicalLatencies| == n + 1
                  && (NewLatenciesAtLeast(u.branchLatencies, |t.branchLatencies|, u.logicalLatencies[n]) <==>
                        SpokenOnce(cs) || t.logicalLast.value == now))
  {
    hide *;
    var cs, last := o.completions, t.logicalLast;
    var l := UpdateBranches(t, o, now);
    UpdateLogical(t, o, now);
    LogicalPart(t, TotalTokens(cs), now);
    if TotalTokens(cs) == 0 {
      NothingNew(l, cs, now);
      BehindSame(t, Updated(t, o, now));
    } else {
      LogicalStaysBehind(t, l, now);
      BranchesStayBehind(l, cs, now);
      BehindSame(Branches(l, cs, now), Updated(t, o, now));
      LatenciesAppend(l, cs, now);
      if last.Some? {
        LastTimes(t, last.value);
        LatenciesExactly(l, cs, now, last.value);
      } else if SpokenOnce(cs) {
        NothingHeard(t);
        NoLatencyAtFirst(l, cs, |cs|, now);
        assert cs[..|cs|] == cs;
      }
    }
  }

  /** The trace that an update hands to its branches, and what it takes from them. */
  lemma {:induction false} UpdateBranches(t: Trace, o: Output, now: real) returns (l: Trace)
    ensures l.branchLast == t.branchLast && l.branchLatencies == t.branchLatencies
    ensures l.logicalLast == Logical(t, TotalTokens(o.completions), now).logicalLast
    ensures var u, b := Updated(t, o, now), Branches(l, o.completions, now);
            u.branchLast == b.branchLast && u.branchLatencies == b.branchLatencies && u.logicalLast == b.logicalLast
  {
    hide Branches, TotalTokens;
    var p := if t.promptLen.None? && o.promptLen.Some? then t.(promptLen := o.promptLen) else t;
    l := Logical(p, TotalTokens(o.completions), now);
  }

  lemma {:induction false} LogicalPart(t: Trace, total: nat, now: real)
    ensures var l := Logical(t, total, now);
            && l.logicalLast == (if total == 0 then t.logicalLast else Some(now))
            && (t.logicalLast.Some? && total > 0 ==>
                  && |l.logicalLatencies| == |t.logicalLatencies| + 1
                  && l.logicalLatencies[|t.logicalLatencies|] == (now - t.logicalLast.value) / total as real)
  {
  }

  lemma {:induction false} BehindSame(t: Trace, u: Trace)
    requires BranchesBehind(t) && u.branchLast == t.branchLast && u.logicalLast == t.logicalLast
    ensures BranchesBehind(u)
  {
  }

  lemma {:induction false} LogicalStaysBehind(t: Trace, l: Trace, now: real)
    requires BranchesBehind(t) && (t.logicalLast.Some? ==> t.logicalLast.value <= now)
    requires l.branchLast == t.branchLast && l.logicalLast == Some(now)
    ensures BranchesBehind(l)
  {
  }

  lemma {:induction false} LastTimes(t: Trace, last: real)
    requires BranchesBehind(t) && t.logicalLast == Some(last)
    ensures forall b <- t.branchLast :: t.branchLast[b] <= last
  {
  }

  lemma {:induction false} NothingHeard(t: Trace)
    requires BranchesBehind(t) && t.logicalLast.None?
    ensures t.branchLast == map[]
  {
    assert forall b :: b !in t.branchLast;
  }

  lemma {:induction false} LatenciesAppend(t: Trace, cs: seq<Completion>, now: real)
    ensures t.branchLatencies <= Branches(t, cs, now).branchLatencies
  {
    assert cs[..|cs|] == cs && cs[..0] == [];
    LatenciesGrow(t, cs, 0, |cs|, now);
  }

  lemma {:induction false} LatenciesExactly(t: Trace, cs: seq<Completion>, now: real, last: real)
    requires last <= now && TotalTokens(cs) > 0
    requires forall b <- t.branchLast :: t.branchLast[b] <= last
    ensures NewLatenciesAtLeast(Branches(t, cs, now).branchLatencies, |t.branchLatencies|,
                                (now - last) / TotalTokens(cs) as real) <==>
              SpokenOnce(cs) || last == now
  {
    hide Branches, TotalTokens, NewLatenciesAtLeast;
    if SpokenOnce(cs) || last == now {
      assert cs[..|cs|] == cs;
      BranchLatenciesAtLeast(t, cs, |cs|, now, last);
    } else {
      var i, j :| 0 <= i < j < |cs| && cs[i].tokens > 0 && cs[j].tokens > 0 && cs[i].index == cs[j].index;
      RepeatIsFaster(t, cs, i, j, now, last);
    }
  }

  lemma {:induction false} RunStaysBehind(ticks: seq<Tick>)
    requires Timely(ticks)
    ensures BranchesBehind(Run(ticks))
    ensures Run(ticks).logicalLast.Some? ==> ticks != [] && Run(ticks).logicalLast.value <= ticks[|ticks| - 1].now
  {
    if ticks == [] {
    } else {
      var n := |ticks| - 1;
      var before, k := ticks[..n], ticks[n];
      RunStaysBehind(before);
      hide Updated, BranchesBehind, SpokenOnce;
      if before != [] { assert before[n - 1] == ticks[n - 1] && ticks[n - 1].now <= k.now; }
      UpdateLogical(Run(before), k.output, k.now);
      RequestLatencyIsSmallest(Run(before), k.output, k.now);
    }
  }

  /** At every step of every run in which time does not go back, the request's new latency is at
      most any branch latency recorded with it, exactly when no branch brings tokens twice in that
      output or it comes at the same time as the last one with tokens. */
  lemma {:induction false} RunLatencies(ticks: seq<Tick>, k: nat)
    requires Timely(ticks) && k < |ticks|
    ensures var t, u, cs := Run(ticks[..k]), Run(ticks[..k + 1]), ticks[k].output.completions;
            t.logicalLast.Some? && TotalTokens(cs) > 0 ==>
              && |u.logicalLatencies| == |t.logicalLatencies| + 1
              && (NewLatenciesAtLeast(u.branchLatencies, |t.branchLatencies|, u.logicalLatencies[|t.logicalLatencies|])
                  <==> SpokenOnce(cs) || t.logicalLast.value == ticks[k].now)
  {
    var before := ticks[..k];
    assert ticks[..k + 1][..k] == before;
    RunStaysBehind(before);
    hide Updated, BranchesBehind, SpokenOnce;
    if k > 0 { assert before[k - 1].now <= ticks[k].now; }
    RequestLatencyIsSmallest(Run(before), ticks[k].output, ticks[k].now);
  }

  /** A run in which the second output names its only branch twice: the request records half a
      second per token, the branch a whole one and then none. */
  lemma {:induction false} RepeatedBranchIsFaster()
    ensures var c := Completion(0, 1);
            var u := Run([Tick(Output(None, [c], false), 0.0), Tick(Output(None, [c, c], false), 1.0)]);
            u.logicalLatencies == [0.5] && u.branchLatencies == [1.0, 0.0]
  {
    var c := Completion(0, 1);
    var a, b := Tick(Output(None, [c], false), 0.0), Tick(Output(None, [c, c], false), 1.0);
    assert [a, b][..1] == [a] && [a][..0] == [];
    assert [c, c][..1] == [c] && [c][..0] == [];
    assert TotalTokens([c]) == 1 && TotalTokens([c, c]) == 2;
    var first := Logical(EMPTY, 1, 0.0);
    assert Branches(first, [c], 0.0) == Branch(first, c, 0.0);
    assert Run([a]) == Updated(Run([]), a.output, 0.0) == Branch(first, c, 0.0);
    var l := Logical(Run([a]), 2, 1.0);
    assert Branches(l, [c], 1.0) == Branch(l, c, 1.0);
    assert Branches(l, [c, c], 1.0) == Branch(Branch(l, c, 1.0), c, 1.0);
  }
}
