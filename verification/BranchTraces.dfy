/**
  What the request trace of `benchmarks/benchmark_taper_plus.py` holds for every single branch, and
  for the request's own milestones, after any run of outputs.
 */
module BranchTraces {
  import opened Common
  import opened RealArith
  import opened RequestTraces

  /** Tokens that a branch brought, and when. */
  datatype Word = Word(index: int, tokens: nat, now: real)

  function Words(cs: seq<Completion>, now: real): seq<Word> {
    if cs == [] then []
    else
      var c := cs[|cs| - 1];
      Words(cs[..|cs| - 1], now) + if c.tokens > 0 then [Word(c.index, c.tokens, now)] else []
  }

  /** Everything brought in a run, in order. */
  function Spoken(ticks: seq<Tick>): seq<Word> {
    if ticks == [] then []
    else
      var k := ticks[|ticks| - 1];
      Spoken(ticks[..|ticks| - 1]) + Words(k.output.completions, k.now)
  }

  predicate Heard(ws: seq<Word>, b: int) {
    exists i :: 0 <= i < |ws| && ws[i].index == b
  }

  /** The words whose branch had been heard of before: those that record a latency. */
  function Repeats(ws: seq<Word>): seq<Word> {
    if ws == [] then []
    else
      var front, w := ws[..|ws| - 1], ws[|ws| - 1];
      Repeats(front) + if Heard(front, w.index) then [w] else []
  }

  function FirstHeard(ws: seq<Word>, b: int): real
    requires Heard(ws, b)
  {
    var front := ws[..|ws| - 1];
    if Heard(front, b) then FirstHeard(front, b) else ws[|ws| - 1].now
  }

  function LastHeard(ws: seq<Word>, b: int): real
    requires Heard(ws, b)
  {
    if ws[|ws| - 1].index == b then ws[|ws| - 1].now else LastHeard(ws[..|ws| - 1], b)
  }

  function TokensOf(ws: seq<Word>, b: int): nat {
    if ws == [] then 0
    else TokensOf(ws[..|ws| - 1], b) + if ws[|ws| - 1].index == b then ws[|ws| - 1].tokens else 0
  }

  function CountOf(ws: seq<Word>, b: int): nat {
    if ws == [] then 0
    else CountOf(ws[..|ws| - 1], b) + if ws[|ws| - 1].index == b then 1 else 0
  }

  /** Latencies times tokens, over the words of branch `b`. */
  function WeightedOf(latencies: seq<real>, ws: seq<Word>, b: int): real
    requires |latencies| == |ws|
  {
    if ws == [] then 0.0
    else
      var n := |ws| - 1;
      WeightedOf(latencies[..n], ws[..n], b)
        + if ws[n].index == b then Mul(latencies[n], ws[n].tokens as real) else 0.0
  }

  /** What the trace holds for branch `b`: its last time and its tokens; one latency for every word
      but the first; and these, times the tokens that brought them, make up the time between. */
  ghost predicate HoldsBranch(t: Trace, ws: seq<Word>, b: int)
    requires |t.branchLatencies| == |Repeats(ws)|
  {
    && (b in t.branchLast <==> Heard(ws, b))
    && (b in t.branchTokens <==> Heard(ws, b))
    && if Heard(ws, b) then
         && t.branchLast[b] == LastHeard(ws, b)
         && t.branchTokens[b] == TokensOf(ws, b)
         && CountOf(Repeats(ws), b) + 1 == CountOf(ws, b)
         && WeightedOf(t.branchLatencies, Repeats(ws), b) == LastHeard(ws, b) - FirstHeard(ws, b)
       else
         CountOf(Repeats(ws), b) == 0 && WeightedOf(t.branchLatencies, Repeats(ws), b) == 0.0
         && TokensOf(ws, b) == 0 && CountOf(ws, b) == 0
  }

  ghost predicate HoldsBranches(t: Trace, ws: seq<Word>) {
    |t.branchLatencies| == |Repeats(ws)| && forall b :: HoldsBranch(t, ws, b)
  }

  // ---------- One more word ----------

  lemma {:induction false} HeardNext(ws: seq<Word>, w: Word, b: int)
    ensures Heard(ws + [w], b) <==> Heard(ws, b) || w.index == b
  {
    var all := ws + [w];
    assert all[|ws|] == w;
    if Heard(ws, b) {
      var i :| 0 <= i < |ws| && ws[i].index == b;
      assert all[i] == ws[i];
    }
  }

  lemma {:induction false} TimesNext(ws: seq<Word>, w: Word, b: int)
    ensures Repeats(ws + [w]) == Repeats(ws) + if Heard(ws, w.index) then [w] else []
    ensures TokensOf(ws + [w], b) == TokensOf(ws, b) + if w.index == b then w.tokens else 0
    ensures CountOf(ws + [w], b) == CountOf(ws, b) + if w.index == b then 1 else 0
    ensures Heard(ws + [w], b) <==> Heard(ws, b) || w.index == b
    ensures Heard(ws + [w], b) ==>
              && FirstHeard(ws + [w], b) == (if Heard(ws, b) then FirstHeard(ws, b) else w.now)
              && LastHeard(ws + [w], b) == (if w.index == b then w.now else LastHeard(ws, b))
  {
    HeardNext(ws, w, b);
    assert (ws + [w])[..|ws|] == ws;
  }

  lemma {:induction false} WeightedNext(latencies: seq<real>, ws: seq<Word>, l: real, w: Word, b: int)
    requires |latencies| == |ws|
    ensures WeightedOf(latencies + [l], ws + [w], b) ==
              WeightedOf(latencies, ws, b) + if w.index == b then Mul(l, w.tokens as real) else 0.0
    ensures CountOf(ws + [w], b) == CountOf(ws, b) + if w.index == b then 1 else 0
  {
    assert (ws + [w])[..|ws|] == ws && (latencies + [l])[..|ws|] == latencies;
  }

  lemma {:induction false} LatencyTimesTokens(x: real, n: nat)
    requires n > 0
    ensures Mul(x / n as real, n as real) == x
  {
    DivThenMul(x, n as real);
    MulCommutes(x / n as real, n as real);
  }

  lemma {:induction false} BranchAdds(t: Trace, c: Completion, now: real)
    requires c.tokens > 0
    ensures var u := Branch(t, c, now);
            && u.branchLast == t.branchLast[c.index := now]
            && u.branchTokens == t.branchTokens[c.index := Count(t, c.index) + c.tokens]
            && if c.index in t.branchLast then
                 u.branchLatencies == t.branchLatencies + [(now - t.branchLast[c.index]) / c.tokens as real]
               else
                 u.branchLatencies == t.branchLatencies
  {
    assert t.branchLatencies + [] == t.branchLatencies;
  }

  lemma {:induction false} BranchHolds(t: Trace, ws: seq<Word>, c: Completion, now: real, b: int)
    requires HoldsBranches(t, ws) && c.tokens > 0
    ensures var u, w := Branch(t, c, now), Word(c.index, c.tokens, now);
            |u.branchLatencies| == |Repeats(ws + [w])| && HoldsBranch(u, ws + [w], b)
  {
    hide Branch, Repeats, Heard, FirstHeard, LastHeard, TokensOf, CountOf, WeightedOf, Mul;
    var u, w := Branch(t, c, now), Word(c.index, c.tokens, now);
    BranchAdds(t, c, now);
    TimesNext(ws, w, b);
    assert HoldsBranch(t, ws, b) && HoldsBranch(t, ws, c.index);
    if Heard(ws, c.index) {
      var x := now - t.branchLast[c.index];
      WeightedNext(t.branchLatencies, Repeats(ws), x / c.tokens as real, w, b);
      LatencyTimesTokens(x, c.tokens);
    } else {
      assert Repeats(ws) + [] == Repeats(ws);
    }
  }

  lemma {:induction false} BranchesHold(t: Trace, ws: seq<Word>, cs: seq<Completion>, now: real)
    requires HoldsBranches(t, ws)
    ensures HoldsBranches(Branches(t, cs, now), ws + Words(cs, now))
  {
    if cs == [] {
      assert ws + [] == ws;
    } else {
      var front, c := cs[..|cs| - 1], cs[|cs| - 1];
      var before, sofar := Branches(t, front, now), ws + Words(front, now);
      BranchesHold(t, ws, front, now);
      assert Branches(t, cs, now) == Branch(before, c, now);
      if c.tokens == 0 {
        assert Words(cs, now) == Words(front, now);
      } else {
        var w := Word(c.index, c.tokens, now);
        assert ws + Words(cs, now) == sofar + [w];
        hide HoldsBranch, Branch, Branches, Words, Repeats;
        BranchHolds(before, sofar, c, now, 0);
        forall b ensures HoldsBranch(Branch(before, c, now), sofar + [w], b) { BranchHolds(before, sofar, c, now, b); }
      }
    }
  }

  lemma {:induction false} SameBranches(t: Trace, u: Trace, ws: seq<Word>)
    requires HoldsBranches(t, ws)
    requires u.branchLast == t.branchLast && u.branchTokens == t.branchTokens && u.branchLatencies == t.branchLatencies
    ensures HoldsBranches(u, ws)
  {
    hide Repeats, Heard, FirstHeard, LastHeard, TokensOf, CountOf, WeightedOf;
    forall b ensures HoldsBranch(u, ws, b) { assert HoldsBranch(t, ws, b); }
  }

  lemma {:induction false} UpdateHolds(t: Trace, ws: seq<Word>, o: Output, now: real)
    requires HoldsBranches(t, ws)
    ensures HoldsBranches(Updated(t, o, now), ws + Words(o.completions, now))
  {
    hide HoldsBranches, Branches, Words, TotalTokens;
    var p := if t.promptLen.None? && o.promptLen.Some? then t.(promptLen := o.promptLen) else t;
    var l := Logical(p, TotalTokens(o.completions), now);
    SameBranches(t, l, ws);
    BranchesHold(l, ws, o.completions, now);
    SameBranches(Branches(l, o.completions, now), Updated(t, o, now), ws + Words(o.completions, now));
  }

  /** Over every run and for every branch, the latencies recorded for it times the tokens that brought
      them add up to the time from its first tokens to its last. */
  lemma {:induction false} RunHoldsBranches(ticks: seq<Tick>)
    ensures HoldsBranches(Run(ticks), Spoken(ticks))
  {
    if ticks == [] {
      NothingSpoken();
    } else {
      var front, k := ticks[..|ticks| - 1], ticks[|ticks| - 1];
      RunHoldsBranches(front);
      hide HoldsBranches, Updated, Words;
      UpdateHolds(Run(front), Spoken(front), k.output, k.now);
    }
  }

  lemma {:induction false} NothingSpoken()
    ensures HoldsBranches(EMPTY, [])
  {
  }

  // ---------- Milestones of the request ----------

  /** The prompt length is the first one reported. */
  ghost predicate FirstPrompt(ticks: seq<Tick>, p: Option<nat>) {
    if p.None? then forall i :: 0 <= i < |ticks| ==> ticks[i].output.promptLen.None?
    else exists i :: 0 <= i < |ticks| && ticks[i].output.promptLen == p
                     && forall j :: 0 <= j < i ==> ticks[j].output.promptLen.None?
  }

  /** The finish time is that of the last output marked as final. */
  ghost predicate LastFinish(ticks: seq<Tick>, f: Option<real>) {
    if f.None? then forall i :: 0 <= i < |ticks| ==> !ticks[i].output.finished
    else exists i :: 0 <= i < |ticks| && ticks[i].output.finished && ticks[i].now == f.value
                     && forall j :: i < j < |ticks| ==> !ticks[j].output.finished
  }

  /** The last time is that of the last output with tokens. */
  ghost predicate LastTokens(ticks: seq<Tick>, l: Option<real>) {
    if l.None? then forall i :: 0 <= i < |ticks| ==> TotalTokens(ticks[i].output.completions) == 0
    else exists i :: 0 <= i < |ticks| && TotalTokens(ticks[i].output.completions) > 0 && ticks[i].now == l.value
                     && forall j :: i < j < |ticks| ==> TotalTokens(ticks[j].output.completions) == 0
  }

  lemma {:induction false} BranchesKeepMilestones(t: Trace, cs: seq<Completion>, now: real)
    ensures var u := Branches(t, cs, now);
            && u.promptLen == t.promptLen && u.finishTime == t.finishTime && u.finished == t.finished
            && u.logicalLast == t.logicalLast
  {
    if cs == [] {
    } else {
      BranchesKeepMilestones(t, cs[..|cs| - 1], now);
    }
  }

  lemma {:induction false} UpdateMilestones(t: Trace, o: Output, now: real)
    ensures var u := Updated(t, o, now);
            && u.promptLen == (if t.promptLen.None? then o.promptLen else t.promptLen)
            && u.finishTime == (if o.finished then Some(now) else t.finishTime)
            && u.finished == (t.finished || o.finished)
            && u.logicalLast == (if TotalTokens(o.completions) > 0 then Some(now) else t.logicalLast)
  {
    hide Branches, TotalTokens;
    var p := if t.promptLen.None? && o.promptLen.Some? then t.(promptLen := o.promptLen) else t;
    BranchesKeepMilestones(Logical(p, TotalTokens(o.completions), now), o.completions, now);
  }

  lemma {:induction false} RunMilestones(ticks: seq<Tick>)
    ensures FirstPrompt(ticks, Run(ticks).promptLen)
    ensures LastFinish(ticks, Run(ticks).finishTime)
    ensures Run(ticks).finished <==> Run(ticks).finishTime.Some?
    ensures LastTokens(ticks, Run(ticks).logicalLast)
  {
    if ticks == [] {
    } else {
      var n := |ticks| - 1;
      var front, k := ticks[..n], ticks[n];
      RunMilestones(front);
      UpdateMilestones(Run(front), k.output, k.now);
      hide Updated, TotalTokens;
      PromptNext(front, k, Run(front).promptLen);
      FinishNext(front, k, Run(front).finishTime);
      TokensNext(front, k, Run(front).logicalLast);
      assert front + [k] == ticks;
    }
  }

  lemma {:induction false} PromptNext(front: seq<Tick>, k: Tick, p: Option<nat>)
    requires FirstPrompt(front, p)
    ensures FirstPrompt(front + [k], if p.None? then k.output.promptLen else p)
  {
    var ticks := front + [k];
    assert ticks[|front|] == k;
    if p.Some? {
      var i :| 0 <= i < |front| && front[i].output.promptLen == p
               && forall j :: 0 <= j < i ==> front[j].output.promptLen.None?;
      assert ticks[i] == front[i];
    }
  }

  lemma {:induction false} FinishNext(front: seq<Tick>, k: Tick, f: Option<real>)
    requires LastFinish(front, f)
    ensures LastFinish(front + [k], if k.output.finished then Some(k.now) else f)
  {
    var ticks := front + [k];
    assert ticks[|front|] == k;
    if !k.output.finished && f.Some? {
      var i :| 0 <= i < |front| && front[i].output.finished && front[i].now == f.value
               && forall j :: i < j < |front| ==> !front[j].output.finished;
      assert ticks[i] == front[i];
    }
  }

  lemma {:induction false} TokensNext(front: seq<Tick>, k: Tick, l: Option<real>)
    requires LastTokens(front, l)
    ensures LastTokens(front + [k], if TotalTokens(k.output.completions) > 0 then Some(k.now) else l)
  {
    hide TotalTokens;
    var ticks := front + [k];
    assert ticks[|front|] == k;
    if TotalTokens(k.output.completions) == 0 && l.Some? {
      var i :| 0 <= i < |front| && TotalTokens(front[i].output.completions) > 0 && front[i].now == l.value
               && forall j :: i < j < |front| ==> TotalTokens(front[j].output.completions) == 0;
      assert ticks[i] == front[i];
    }
  }
}
