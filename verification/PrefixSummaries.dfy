/**
  Prefix signals of best-of-n branches. The generator,
  `benchmarks/bon_output_length_prediction.py`, stores summaries of chosen prefixes computed from
  full-precision token values and rounded to six digits. The replay,
  `benchmarks/bon_taper_feature_replay.py`, uses a stored summary when there is one and otherwise
  recomputes the features from the stored, already rounded, token values.
 */
module PrefixSummaries {
  import opened Common
  import opened RealArith
  import opened Rounding

  // ---------- Means ----------

  /** `None` for an empty list: the replay returns it outright, the generator's not-a-number is turned into it. */
  function Mean(s: seq<real>): Option<real> {
    if s == [] then None else Some(Sum(s) / |s| as real)
  }

  function RoundAll(s: seq<real>): (r: seq<real>)
    ensures |r| == |s|
    ensures forall i :: 0 <= i < |s| ==> r[i] == Round6(s[i])
  {
    seq(|s|, i requires 0 <= i < |s| => Round6(s[i]))
  }

  function RoundOptional(x: Option<real>): Option<real> { if x.None? then None else Some(Round6(x.value)) }

  function Minus(a: Option<real>, b: Option<real>): Option<real> {
    if a.Some? && b.Some? then Some(a.value - b.value) else None
  }

  // ---------- Windows ----------

  function Clip(n: int, length: nat): nat { if n < 0 then 0 else if n > length then length else n }

  /** Python's `s[-w:]` and `s[:w]`, for any integer `w`. */
  function LastSlice(s: seq<real>, w: int): seq<real> {
    if w > 0 then s[|s| - Clip(w, |s|)..] else s[Clip(-w, |s|)..]
  }

  function FirstSlice<T>(s: seq<T>, w: int): seq<T> {
    if w >= 0 then s[..Clip(w, |s|)] else s[..|s| - Clip(-w, |s|)]
  }

  /** The generator's `window_mean` on a list that is not empty; `None` when averaging raises. */
  function WindowMean(s: seq<real>, w: int, fromEnd: bool): Option<real> {
    Mean(if fromEnd then LastSlice(s, w) else FirstSlice(s, w))
  }

  /** The replay's `window_mean`. */
  function ReplayWindow(s: seq<real>, w: int, fromEnd: bool): seq<real> {
    if w <= 0 || |s| <= w then s else if fromEnd then s[|s| - w..] else s[..w]
  }

  function ReplayWindowMean(s: seq<real>, w: int, fromEnd: bool): Option<real> { Mean(ReplayWindow(s, w, fromEnd)) }

  lemma {:induction false} WindowsAgree(s: seq<real>, w: int, fromEnd: bool)
    requires w >= 1
    ensures ReplayWindow(s, w, fromEnd) == if fromEnd then LastSlice(s, w) else FirstSlice(s, w)
  {
  }

  /** The two programs cut the same windows from every prefix exactly for windows of at least one. */
  lemma {:induction false} WindowsAgreeExactly(w: int)
    ensures w >= 1 <==> forall s: seq<real> :: s != [] ==>
              && WindowMean(s, w, false) == ReplayWindowMean(s, w, false)
              && WindowMean(s, w, true) == ReplayWindowMean(s, w, true)
  {
    if w >= 1 {
      forall s: seq<real> | s != []
        ensures WindowMean(s, w, false) == ReplayWindowMean(s, w, false)
             && WindowMean(s, w, true) == ReplayWindowMean(s, w, true)
      {
        WindowsAgree(s, w, false);
        WindowsAgree(s, w, true);
      }
    } else {
      var s := [1.0];
      assert FirstSlice(s, w) == [];
      assert WindowMean(s, w, false) != ReplayWindowMean(s, w, false);
    }
  }

  // ---------- Rounding before or after averaging ----------

  /** Both present and within `eps`, or both absent. */
  ghost predicate Close(a: Option<real>, b: Option<real>, eps: real) {
    && (a.Some? <==> b.Some?)
    && (a.Some? ==> Abs(a.value - b.value) <= eps)
  }

  lemma {:induction false} SumsClose(s: seq<real>)
    ensures Abs(Sum(RoundAll(s)) - Sum(s)) <= 0.0000005 * |s| as real
  {
    if s == [] {
    } else {
      var n := |s| - 1;
      SumsClose(s[..n]);
      Round6Near(s[n]);
      assert RoundAll(s)[..n] == RoundAll(s[..n]);
    }
  }

  lemma {:induction false} QuotientWithin(x: real, n: nat, eps: real)
    requires n > 0 && Abs(x) <= eps * n as real
    ensures Abs(x / n as real) <= eps
  {
    var d := n as real;
    DivThenMul(x, d);
    MulCommutes(eps, d);
    MulNegate(eps, d);
    MulCommutes(-eps, d);
    MulCancel(d, x / d, eps);
    MulCancel(d, -eps, x / d);
  }

  lemma {:induction false} DifferenceOfQuotients(x: real, y: real, n: nat)
    requires n > 0
    ensures (x - y) / n as real == x / n as real - y / n as real
  {
  }

  lemma {:induction false} MeansClose(s: seq<real>)
    ensures Close(Mean(RoundAll(s)), Mean(s), 0.0000005)
  {
    if s != [] {
      SumsClose(s);
      QuotientWithin(Sum(RoundAll(s)) - Sum(s), |s|, 0.0000005);
      DifferenceOfQuotients(Sum(RoundAll(s)), Sum(s), |s|);
    }
  }

  lemma {:induction false} StoredMeanClose(s: seq<real>)
    ensures Close(RoundOptional(Mean(s)), Mean(RoundAll(s)), 0.000001)
  {
    MeansClose(s);
    if s != [] { Round6Near(Mean(s).value); }
  }

  lemma {:induction false} StoredDeltaClose(recent: seq<real>, first: seq<real>)
    ensures Close(RoundOptional(Minus(Mean(recent), Mean(first))),
                  Minus(Mean(RoundAll(recent)), Mean(RoundAll(first))), 0.0000015)
  {
    MeansClose(recent);
    MeansClose(first);
    if recent != [] && first != [] { Round6Near(Mean(recent).value - Mean(first).value); }
  }

  // ---------- Repeated four-grams ----------

  function Grams(ids: seq<int>): (g: seq<seq<int>>)
    requires |ids| >= 4
    ensures |g| == |ids| - 3
  {
    seq(|ids| - 3, i requires 0 <= i < |ids| - 3 => ids[i..i + 4])
  }

  function Distinct(g: seq<seq<int>>): nat { |set x | x in g| }

  /** The generator divides by at least one; the replay checks for an empty list instead. */
  function RepeatRate(ids: seq<int>): Option<real> {
    if |ids| < 4 then None
    else Some(1.0 - Distinct(Grams(ids)) as real / (if |Grams(ids)| > 1 then |Grams(ids)| else 1) as real)
  }

  function ReplayRepeatRate(ids: seq<int>): Option<real> {
    if |ids| < 4 then None
    else if Grams(ids) == [] then None
    else Some(1.0 - Distinct(Grams(ids)) as real / |Grams(ids)| as real)
  }

  lemma {:induction false} RepeatRatesAgree(ids: seq<int>)
    ensures RepeatRate(ids) == ReplayRepeatRate(ids)
  {
  }

  // ---------- Stored and recomputed features ----------

  /** What a branch produced. A list that was not recorded is empty. */
  datatype Tokens = Tokens(logprobs: seq<real>, entropies: seq<real>, eosLogprobs: seq<real>, ids: seq<int>)

  /** Features of one signal over a prefix: average, first window, recent window, and their difference. */
  datatype Signal = Signal(avg: Option<real>, first: Option<real>, recent: Option<real>, delta: Option<real>)

  datatype Features = Features(
    prefixLen: int,
    logprob: Signal,
    entropy: Signal,
    recentEos: Option<real>,
    recentEosProb: Option<real>,
    repeatRate: Option<real>)

  /** A stored branch: rounded token values, and summaries from before rounding. */
  datatype Record = Record(tokens: Tokens, summaries: seq<Features>)

  function StoredSignal(s: seq<real>, w: int): Signal {
    var first := if s == [] then None else WindowMean(s, w, false);
    var recent := if s == [] then None else WindowMean(s, w, true);
    Signal(RoundOptional(Mean(s)), RoundOptional(first), RoundOptional(recent), RoundOptional(Minus(recent, first)))
  }

  function ReplaySignal(s: seq<real>, w: int): Signal {
    var first, recent := ReplayWindowMean(s, w, false), ReplayWindowMean(s, w, true);
    Signal(Mean(s), first, recent, Minus(recent, first))
  }

  function Apply(exp: real -> real, x: Option<real>): Option<real> {
    if x.None? then None else Some(exp(x.value))
  }

  /** `exp` stands for the exponential function. */
  function StoredFeatures(t: Tokens, n: int, w: int, exp: real -> real): Features {
    var eos := FirstSlice(t.eosLogprobs, n);
    var recentEos := if eos == [] then None else WindowMean(eos, w, true);
    Features(n, StoredSignal(FirstSlice(t.logprobs, n), w), StoredSignal(FirstSlice(t.entropies, n), w),
             RoundOptional(recentEos), RoundOptional(Apply(exp, recentEos)),
             RoundOptional(RepeatRate(FirstSlice(t.ids, n))))
  }

  function Recomputed(t: Tokens, n: int, w: int, exp: real -> real): Features {
    var recentEos := ReplayWindowMean(FirstSlice(t.eosLogprobs, n), w, true);
    Features(n, ReplaySignal(FirstSlice(t.logprobs, n), w), ReplaySignal(FirstSlice(t.entropies, n), w),
             recentEos, Apply(exp, recentEos),
             ReplayRepeatRate(FirstSlice(t.ids, n)))
  }

  function RoundTokens(t: Tokens): Tokens {
    Tokens(RoundAll(t.logprobs), RoundAll(t.entropies), RoundAll(t.eosLogprobs), t.ids)
  }

  /** The checkpoints that get a summary: inside the output, and not at its end. */
  predicate Applies(checkpoint: int, outputLen: nat) { 0 < checkpoint < outputLen }

  function SummariesFor(
      t: Tokens, outputLen: nat, checkpoints: seq<int>, w: int, exp: real -> real): seq<Features>
  {
    if checkpoints == [] then []
    else
      var c := checkpoints[|checkpoints| - 1];
      SummariesFor(t, outputLen, checkpoints[..|checkpoints| - 1], w, exp)
        + if Applies(c, outputLen) then [StoredFeatures(t, c, w, exp)] else []
  }

  method PrefixSignalSummary(
      t: Tokens, outputLen: nat, checkpoints: seq<int>, w: int, exp: real -> real)
    returns (summaries: seq<Features>)
    ensures summaries == SummariesFor(t, outputLen, checkpoints, w, exp)
    ensures forall n :: Summarised(summaries, n) <==> n in checkpoints && Applies(n, outputLen)
  {
    summaries := [];
    for i := 0 to |checkpoints|
      invariant summaries == SummariesFor(t, outputLen, checkpoints[..i], w, exp)
    {
      assert checkpoints[..i + 1][..i] == checkpoints[..i];
      if checkpoints[i] <= 0 || outputLen <= checkpoints[i] { continue; }
      summaries := summaries + [StoredFeatures(t, checkpoints[i], w, exp)];
    }
    assert checkpoints[..|checkpoints|] == checkpoints;
    forall n ensures Summarised(summaries, n) <==> n in checkpoints && Applies(n, outputLen) {
      SummarisedExactly(t, outputLen, checkpoints, w, exp, n);
    }
  }

  /** The first stored summary of this prefix, or else the recomputed features. */
  function Find(summaries: seq<Features>, n: int, otherwise: Features): Features {
    if summaries == [] then otherwise
    else if summaries[0].prefixLen == n then summaries[0]
    else Find(summaries[1..], n, otherwise)
  }

  method LivePrefixFeatures(r: Record, n: int, w: int, exp: real -> real) returns (f: Features)
    ensures f == Find(r.summaries, n, Recomputed(r.tokens, n, w, exp))
  {
    for i := 0 to |r.summaries|
      invariant Find(r.summaries, n, Recomputed(r.tokens, n, w, exp))
             == Find(r.summaries[i..], n, Recomputed(r.tokens, n, w, exp))
    {
      if r.summaries[i].prefixLen == n { return r.summaries[i]; }
      assert r.summaries[i..][1..] == r.summaries[i + 1..];
    }
    f := Recomputed(r.tokens, n, w, exp);
  }

  // ---------- They agree ----------

  ghost predicate SignalsClose(a: Signal, b: Signal) {
    && Close(a.avg, b.avg, 0.000001) && Close(a.first, b.first, 0.000001) && Close(a.recent, b.recent, 0.000001)
    && Close(a.delta, b.delta, 0.0000015)
  }

  ghost predicate FeaturesClose(a: Features, b: Features) {
    && a.prefixLen == b.prefixLen
    && SignalsClose(a.logprob, b.logprob) && SignalsClose(a.entropy, b.entropy)
    && Close(a.recentEos, b.recentEos, 0.000001)
    && Close(a.repeatRate, b.repeatRate, 0.0000005)
  }

  lemma {:induction false} RoundWindow(s: seq<real>, w: int, fromEnd: bool)
    ensures ReplayWindow(RoundAll(s), w, fromEnd) == RoundAll(ReplayWindow(s, w, fromEnd))
  {
  }

  lemma {:induction false} WindowClose(s: seq<real>, w: int, fromEnd: bool)
    requires w >= 1
    ensures Close(RoundOptional(if s == [] then None else WindowMean(s, w, fromEnd)),
                  ReplayWindowMean(RoundAll(s), w, fromEnd), 0.000001)
  {
    WindowsAgree(s, w, fromEnd);
    RoundWindow(s, w, fromEnd);
    StoredMeanClose(ReplayWindow(s, w, fromEnd));
  }

  lemma {:induction false} SignalClose(s: seq<real>, w: int)
    requires w >= 1
    ensures SignalsClose(StoredSignal(s, w), ReplaySignal(RoundAll(s), w))
  {
    StoredMeanClose(s);
    WindowClose(s, w, false);
    WindowClose(s, w, true);
    WindowsAgree(s, w, false);
    WindowsAgree(s, w, true);
    RoundWindow(s, w, false);
    RoundWindow(s, w, true);
    StoredDeltaClose(ReplayWindow(s, w, true), ReplayWindow(s, w, false));
  }

  lemma {:induction false} RoundTake(s: seq<real>, n: int)
    ensures FirstSlice(RoundAll(s), n) == RoundAll(FirstSlice(s, n))
  {
  }

  /** A stored summary and a recomputation from the stored tokens differ by rounding only. */
  lemma {:induction false} SummaryClose(t: Tokens, n: int, w: int, exp: real -> real)
    requires w >= 1
    ensures FeaturesClose(StoredFeatures(t, n, w, exp), Recomputed(RoundTokens(t), n, w, exp))
  {
    RoundTake(t.logprobs, n);
    RoundTake(t.entropies, n);
    RoundTake(t.eosLogprobs, n);
    SignalClose(FirstSlice(t.logprobs, n), w);
    SignalClose(FirstSlice(t.entropies, n), w);
    WindowClose(FirstSlice(t.eosLogprobs, n), w, true);
    RepeatRatesAgree(FirstSlice(t.ids, n));
    if |FirstSlice(t.ids, n)| >= 4 { Round6Near(RepeatRate(FirstSlice(t.ids, n)).value); }
  }

  // ---------- Probabilities from logarithms ----------

  /** Below zero the exponential moves no further than its argument does. */
  ghost predicate Gentle(exp: real -> real) {
    forall a, b :: a <= 0.0 && b <= 0.0 ==> Abs(exp(a) - exp(b)) <= Abs(a - b)
  }

  /** Logarithms of probabilities. */
  ghost predicate Logprobs(s: seq<real>) {
    forall i :: 0 <= i < |s| ==> s[i] <= 0.0
  }

  lemma {:induction false} MeanNotPositive(s: seq<real>)
    requires Logprobs(s)
    ensures Mean(s).Some? ==> Mean(s).value <= 0.0
  {
    SumNotPositive(s);
    if s != [] { QuotientNonNegative(-Sum(s), |s| as real); }
  }

  lemma {:induction false} SumNotPositive(s: seq<real>)
    requires Logprobs(s)
    ensures Sum(s) <= 0.0
  {
    if s == [] {
    } else {
      assert s[|s| - 1] <= 0.0;
      SumNotPositive(s[..|s| - 1]);
    }
  }

  lemma {:induction false} RoundedLogprobs(s: seq<real>)
    requires Logprobs(s)
    ensures Logprobs(RoundAll(s))
  {
    forall i | 0 <= i < |s| ensures Round6(s[i]) <= 0.0 {
      RoundMonotone(1000000.0 * s[i], 0.0);
      RoundInteger(0);
    }
  }

  lemma {:induction false} StoredProbClose(s: seq<real>, exp: real -> real)
    requires Gentle(exp) && Logprobs(s)
    ensures Close(RoundOptional(Apply(exp, Mean(s))), Apply(exp, Mean(RoundAll(s))), 0.000001)
  {
    MeansClose(s);
    RoundedLogprobs(s);
    MeanNotPositive(s);
    MeanNotPositive(RoundAll(s));
    if s != [] { Round6Near(exp(Mean(s).value)); }
  }

  /** So the probabilities agree too, for logarithms that are not positive. */
  lemma {:induction false} ProbClose(t: Tokens, n: int, w: int, exp: real -> real)
    requires w >= 1 && Gentle(exp) && Logprobs(t.eosLogprobs)
    ensures Close(StoredFeatures(t, n, w, exp).recentEosProb, Recomputed(RoundTokens(t), n, w, exp).recentEosProb,
                  0.000001)
  {
    hide *;
    StoredProb(t, n, w, exp);
    RecomputedProb(t, n, w, exp);
    var window := ReplayWindow(FirstSlice(t.eosLogprobs, n), w, true);
    LogprobsWindow(t.eosLogprobs, n, w);
    StoredProbClose(window, exp);
  }

  lemma {:induction false} StoredProb(t: Tokens, n: int, w: int, exp: real -> real)
    requires w >= 1
    ensures var window := ReplayWindow(FirstSlice(t.eosLogprobs, n), w, true);
            StoredFeatures(t, n, w, exp).recentEosProb == RoundOptional(Apply(exp, Mean(window)))
  {
    hide StoredSignal, RepeatRate, Apply, RoundOptional;
    WindowsAgree(FirstSlice(t.eosLogprobs, n), w, true);
  }

  lemma {:induction false} RecomputedProb(t: Tokens, n: int, w: int, exp: real -> real)
    ensures var window := ReplayWindow(FirstSlice(t.eosLogprobs, n), w, true);
            Recomputed(RoundTokens(t), n, w, exp).recentEosProb == Apply(exp, Mean(RoundAll(window)))
  {
    hide ReplaySignal, ReplayRepeatRate, Apply, RoundAll, ReplayWindow, FirstSlice;
    RoundTake(t.eosLogprobs, n);
    RoundWindow(FirstSlice(t.eosLogprobs, n), w, true);
  }

  lemma {:induction false} LogprobsWindow(s: seq<real>, n: int, w: int)
    requires Logprobs(s)
    ensures Logprobs(ReplayWindow(FirstSlice(s, n), w, true))
  {
  }

  // ---------- Which prefixes have a summary ----------

  ghost predicate Summarised(summaries: seq<Features>, n: int) {
    exists i :: 0 <= i < |summaries| && summaries[i].prefixLen == n
  }

  /** A prefix has a summary exactly when it is a checkpoint inside the output. */
  lemma {:induction false} SummarisedExactly(
      t: Tokens, outputLen: nat, checkpoints: seq<int>, w: int, exp: real -> real, n: int)
    ensures Summarised(SummariesFor(t, outputLen, checkpoints, w, exp), n) <==>
              n in checkpoints && Applies(n, outputLen)
  {
    if checkpoints == [] {
    } else {
      var m := |checkpoints| - 1;
      var before, c := checkpoints[..m], checkpoints[m];
      SummarisedExactly(t, outputLen, before, w, exp, n);
      assert checkpoints == before + [c];
      var ss, all := SummariesFor(t, outputLen, before, w, exp), SummariesFor(t, outputLen, checkpoints, w, exp);
      hide StoredSignal, SummariesFor;
      if Summarised(ss, n) {
        var i :| 0 <= i < |ss| && ss[i].prefixLen == n;
        assert all[i] == ss[i];
      }
      if c == n && Applies(n, outputLen) { assert all[|ss|].prefixLen == n; }
    }
  }

  /** A summary is what the generator stores for the prefix it names. */
  ghost predicate IsStored(f: Features, t: Tokens, w: int, exp: real -> real) {
    f == StoredFeatures(t, f.prefixLen, w, exp)
  }

  lemma {:induction false} FoundIsStored(
      summaries: seq<Features>, t: Tokens, n: int, w: int, exp: real -> real, otherwise: Features)
    requires forall i :: 0 <= i < |summaries| ==> IsStored(summaries[i], t, w, exp)
    ensures Find(summaries, n, otherwise) ==
              if Summarised(summaries, n) then StoredFeatures(t, n, w, exp) else otherwise
  {
    if summaries == [] {
    } else if summaries[0].prefixLen == n {
      assert IsStored(summaries[0], t, w, exp);
    } else {
      var rest := summaries[1..];
      FoundIsStored(rest, t, n, w, exp, otherwise);
      if Summarised(summaries, n) {
        var i :| 0 <= i < |summaries| && summaries[i].prefixLen == n;
        assert rest[i - 1] == summaries[i];
      }
    }
  }

  lemma {:induction false} SummaryIsStored(
      t: Tokens, outputLen: nat, checkpoints: seq<int>, w: int, exp: real -> real, i: nat)
    requires i < |SummariesFor(t, outputLen, checkpoints, w, exp)|
    ensures IsStored(SummariesFor(t, outputLen, checkpoints, w, exp)[i], t, w, exp)
  {
    var before, c := checkpoints[..|checkpoints| - 1], checkpoints[|checkpoints| - 1];
    var ss := SummariesFor(t, outputLen, before, w, exp);
    if i < |ss| {
      SummaryIsStored(t, outputLen, before, w, exp, i);
    } else {
      assert IsStored(StoredFeatures(t, c, w, exp), t, w, exp);
    }
  }

  /** The replay reads the stored summary exactly for checkpoints inside the output. */
  lemma {:induction false} FoundExactly(
      t: Tokens, outputLen: nat, checkpoints: seq<int>, w: int, exp: real -> real, n: int, otherwise: Features)
    ensures Find(SummariesFor(t, outputLen, checkpoints, w, exp), n, otherwise) ==
              if n in checkpoints && Applies(n, outputLen) then StoredFeatures(t, n, w, exp) else otherwise
  {
    var ss := SummariesFor(t, outputLen, checkpoints, w, exp);
    forall i | 0 <= i < |ss| ensures IsStored(ss[i], t, w, exp) {
      SummaryIsStored(t, outputLen, checkpoints, w, exp, i);
    }
    FoundIsStored(ss, t, n, w, exp, otherwise);
    SummarisedExactly(t, outputLen, checkpoints, w, exp, n);
  }

  /** For every branch, every set of checkpoints and every prefix, what the replay reads off a
      record with summaries is close to what it would compute from the same record without them. */
  lemma {:induction false} ReplayAgrees(
      t: Tokens, outputLen: nat, checkpoints: seq<int>, n: int, w: int, exp: real -> real)
    requires w >= 1
    ensures var recomputed := Recomputed(RoundTokens(t), n, w, exp);
            var found := Find(SummariesFor(t, outputLen, checkpoints, w, exp), n, recomputed);
            && FeaturesClose(found, recomputed)
            && (Gentle(exp) && Logprobs(t.eosLogprobs) ==>
                  Close(found.recentEosProb, recomputed.recentEosProb, 0.000001))
  {
    hide StoredFeatures, Recomputed, Gentle;
    FoundExactly(t, outputLen, checkpoints, w, exp, n, Recomputed(RoundTokens(t), n, w, exp));
    SummaryClose(t, n, w, exp);
    if Gentle(exp) && Logprobs(t.eosLogprobs) { ProbClose(t, n, w, exp); }
  }
}
