/**
  What the prefix features of `benchmarks/bon_output_length_prediction.py` and
  `benchmarks/bon_taper_feature_replay.py` say about the tokens they come from, without reference to
  how they are computed: averages are where values balance, and the repeat rate counts positions.
 */
module SummaryMeanings {
  import opened Common
  import opened RealArith
  import opened Rounding
  import opened PrefixSummaries

  /** The first `n` elements, or all of them. */
  function Opening<T>(s: seq<T>, n: nat): seq<T> { s[..if n < |s| then n else |s|] }

  /** The last `n` elements, or all of them. */
  function Closing<T>(s: seq<T>, n: nat): seq<T> { s[|s| - (if n < |s| then n else |s|)..] }

  // ---------- What features tell ----------

  /** `x` is where the values of `s` balance, up to `eps` for each of them. */
  ghost predicate Averages(x: Option<real>, s: seq<real>, eps: real) {
    && (x.None? <==> s == [])
    && (x.Some? ==> Abs(Deviations(s, x.value)) <= Mul(|s| as real, eps))
  }

  ghost predicate SignalTells(f: Signal, s: seq<real>, w: nat, eps: real) {
    && Averages(f.avg, s, eps)
    && Averages(f.first, Opening(s, w), eps)
    && Averages(f.recent, Closing(s, w), eps)
    && (f.delta.None? <==> s == [])
    && (s != [] && w > 0 ==> f.delta.Some? && f.recent.Some? && f.first.Some?
                             && Abs(f.delta.value - (f.recent.value - f.first.value)) <= 3.0 * eps)
  }

  /** The tokens at `i` and at `j` start the same run of four. */
  predicate SameFour(ids: seq<int>, i: nat, j: nat)
    requires i + 4 <= |ids| && j + 4 <= |ids|
  {
    ids[i] == ids[j] && ids[i + 1] == ids[j + 1] && ids[i + 2] == ids[j + 2] && ids[i + 3] == ids[j + 3]
  }

  predicate SeenBefore(ids: seq<int>, i: nat)
    requires i + 4 <= |ids|
  {
    exists j :: 0 <= j < i && SameFour(ids, j, i)
  }

  /** How many of the first `n` positions start four tokens that an earlier position starts too. */
  function SeenAgain(ids: seq<int>, n: nat): nat
    requires n > 0 ==> n + 3 <= |ids|
  {
    if n == 0 then 0 else SeenAgain(ids, n - 1) + if SeenBefore(ids, n - 1) then 1 else 0
  }

  ghost predicate RateTells(x: Option<real>, ids: seq<int>, eps: real) {
    && (x.None? <==> |ids| < 4)
    && (x.Some? ==>
          Abs(Mul((|ids| - 3) as real, x.value) - SeenAgain(ids, |ids| - 3) as real) <= Mul((|ids| - 3) as real, eps))
  }

  /** `x` is the exponential of the average of `s`. */
  ghost predicate ExponentialTells(x: Option<real>, s: seq<real>, exp: real -> real, eps: real) {
    && (x.None? <==> s == [])
    && (x.Some? ==> forall m :: Deviations(s, m) == 0.0 ==> Abs(x.value - exp(m)) <= eps)
  }

  /** Every field of the features, against the first `n` tokens and windows of `w`. */
  ghost predicate Tells(f: Features, t: Tokens, n: nat, w: nat, exp: real -> real, eps: real) {
    && f.prefixLen == n
    && SignalTells(f.logprob, Opening(t.logprobs, n), w, eps)
    && SignalTells(f.entropy, Opening(t.entropies, n), w, eps)
    && Averages(f.recentEos, Closing(Opening(t.eosLogprobs, n), w), eps)
    && ExponentialTells(f.recentEosProb, Closing(Opening(t.eosLogprobs, n), w), exp, eps)
    && RateTells(f.repeatRate, Opening(t.ids, n), eps)
  }

  // ---------- Averages ----------

  lemma {:induction false} DeviationsShift(s: seq<real>, a: real, b: real)
    ensures Deviations(s, b) == Deviations(s, a) + Mul(|s| as real, a - b)
  {
    DeviationsAre(s, a);
    DeviationsAre(s, b);
    MulCommutes(|s| as real, a - b);
    MulDistributes(a, b, |s| as real);
    MulCommutes(a, |s| as real);
    MulCommutes(b, |s| as real);
  }

  lemma {:induction false} MeanAverages(s: seq<real>)
    ensures Averages(Mean(s), s, 0.0)
  {
    if s != [] { AverageBalances(s); }
  }

  lemma {:induction false} NearAverages(s: seq<real>, a: real, b: real, eps: real)
    requires s != [] && Deviations(s, a) == 0.0 && Abs(a - b) <= eps
    ensures Averages(Some(b), s, eps)
  {
    DeviationsShift(s, a, b);
    var n := |s| as real;
    hide Mul;
    MulOrder(n, a - b, eps);
    MulOrder(n, -eps, a - b);
    MulCommutes(n, -eps);
    MulNegate(eps, n);
    MulCommutes(eps, n);
  }

  lemma {:induction false} RoundedMeanAverages(s: seq<real>)
    ensures Averages(RoundOptional(Mean(s)), s, 0.0000005)
  {
    if s == [] {
    } else {
      AverageBalances(s);
      Round6Near(Mean(s).value);
      NearAverages(s, Mean(s).value, Round6(Mean(s).value), 0.0000005);
    }
  }

  lemma {:induction false} BalanceIsMean(s: seq<real>, m: real)
    requires s != [] && Deviations(s, m) == 0.0
    ensures m == Mean(s).value
  {
    var a, n := Mean(s).value, |s| as real;
    AverageBalances(s);
    DeviationsShift(s, m, a);
    if m < a {
      MulPositive(n, a - m);
      MulCommutes(n, a - m);
      MulNegate(a - m, n);
      MulCommutes(m - a, n);
    } else if a < m {
      MulPositive(n, m - a);
    }
  }

  // ---------- Signals ----------

  lemma {:induction false} WindowsAre(s: seq<real>, w: nat)
    requires w >= 1
    ensures ReplayWindow(s, w, false) == Opening(s, w) && ReplayWindow(s, w, true) == Closing(s, w)
    ensures FirstSlice(s, w) == Opening(s, w) && LastSlice(s, w) == Closing(s, w)
  {
  }

  lemma {:induction false} ReplaySignalTells(s: seq<real>, w: nat)
    requires w >= 1
    ensures SignalTells(ReplaySignal(s, w), s, w, 0.0)
  {
    WindowsAre(s, w);
    MeanAverages(s);
    MeanAverages(Opening(s, w));
    MeanAverages(Closing(s, w));
    hide Mean, Averages;
    MeansThere(s, w);
  }

  lemma {:induction false} MeansThere(s: seq<real>, w: nat)
    requires w >= 1
    ensures s == [] ==> Opening(s, w) == [] && Closing(s, w) == []
    ensures s == [] <==> Mean(Opening(s, w)).None?
    ensures s == [] <==> Mean(Closing(s, w)).None?
    ensures s == [] <==> Mean(s).None?
  {
  }

  lemma {:induction false} StoredSignalTells(s: seq<real>, w: nat)
    requires w >= 1
    ensures SignalTells(StoredSignal(s, w), s, w, 0.0000005)
  {
    WindowsAre(s, w);
    MeansThere(s, w);
    RoundedMeanAverages(s);
    RoundedMeanAverages(Opening(s, w));
    RoundedMeanAverages(Closing(s, w));
    hide Mean, Averages, Round6;
    if s != [] {
      var first, recent := Mean(Opening(s, w)).value, Mean(Closing(s, w)).value;
      Round6Near(first);
      Round6Near(recent);
      Round6Near(recent - first);
    }
  }

  // ---------- Repeated runs of four ----------

  lemma {:induction false} GramsSame(ids: seq<int>, i: nat, j: nat)
    requires i + 4 <= |ids| && j + 4 <= |ids|
    ensures Grams(ids)[i] == Grams(ids)[j] <==> SameFour(ids, i, j)
  {
    var a, b := ids[i..i + 4], ids[j..j + 4];
    assert a == [ids[i], ids[i + 1], ids[i + 2], ids[i + 3]];
    assert b == [ids[j], ids[j + 1], ids[j + 2], ids[j + 3]];
    if SameFour(ids, i, j) { assert a == b; }
    if a == b { assert a[0] == b[0] && a[1] == b[1] && a[2] == b[2] && a[3] == b[3]; }
  }

  lemma {:induction false} SeenBeforeIsMember(ids: seq<int>, n: nat)
    requires |ids| >= 4 && n + 4 <= |ids|
    ensures SeenBefore(ids, n) <==> Grams(ids)[n] in Grams(ids)[..n]
  {
    var g := Grams(ids);
    if SeenBefore(ids, n) {
      var j :| 0 <= j < n && SameFour(ids, j, n);
      GramsSame(ids, j, n);
      assert g[..n][j] == g[n];
    }
    if g[n] in g[..n] {
      var j :| 0 <= j < n && g[..n][j] == g[n];
      GramsSame(ids, j, n);
    }
  }

  lemma {:induction false} DistinctNext(g: seq<seq<int>>, x: seq<int>)
    ensures Distinct(g + [x]) == Distinct(g) + if x in g then 0 else 1
  {
    var before, after := set y | y in g, set y | y in g + [x];
    assert after == before + {x};
    if x in g { assert after == before; } else { assert x !in before; }
  }

  /** Distinct runs and positions that repeat one make up all positions. */
  lemma {:induction false} DistinctAndRepeated(ids: seq<int>, n: nat)
    requires |ids| >= 4 && n + 3 <= |ids|
    ensures Distinct(Grams(ids)[..n]) + SeenAgain(ids, n) == n
  {
    var g := Grams(ids);
    if n == 0 {
      NoneDistinct();
      assert g[..0] == [];
    } else {
      hide Distinct, Grams, SeenBefore;
      DistinctAndRepeated(ids, n - 1);
      SeenBeforeIsMember(ids, n - 1);
      DistinctNext(g[..n - 1], g[n - 1]);
      assert g[..n] == g[..n - 1] + [g[n - 1]];
    }
  }

  lemma {:induction false} NoneDistinct()
    ensures Distinct([]) == 0
  {
    var none: seq<seq<int>> := [];
    assert (set x | x in none) == {};
  }

  lemma {:induction false} RateTimesPositions(n: nat, distinct: nat, again: nat)
    requires n > 0 && distinct + again == n
    ensures Mul(n as real, 1.0 - distinct as real / n as real) == again as real
  {
    var d := n as real;
    DivThenMul(distinct as real, d);
    MulCommutes(d, 1.0 - distinct as real / d);
    MulDistributes(1.0, distinct as real / d, d);
    MulCommutes(distinct as real / d, d);
  }

  lemma {:induction false} RepeatRateTells(ids: seq<int>)
    ensures RateTells(RepeatRate(ids), ids, 0.0)
    ensures RateTells(RoundOptional(RepeatRate(ids)), ids, 0.0000005)
  {
    if |ids| >= 4 {
      var n := |ids| - 3;
      DistinctAndRepeated(ids, n);
      assert Grams(ids)[..n] == Grams(ids);
      RateTimesPositions(n, Distinct(Grams(ids)), SeenAgain(ids, n));
      var r := RepeatRate(ids).value;
      Round6Near(r);
      RoundedRate(n as real, r, Round6(r));
    }
  }

  lemma {:induction false} RoundedRate(n: real, r: real, q: real)
    requires n > 0.0 && Abs(q - r) <= 0.0000005
    ensures Abs(Mul(n, q) - Mul(n, r)) <= Mul(n, 0.0000005)
  {
    MulOrder(n, q - r, 0.0000005);
    MulOrder(n, r - q, 0.0000005);
    assert Mul(n, q - r) == Mul(n, q) - Mul(n, r);
    assert Mul(n, r - q) == Mul(n, r) - Mul(n, q);
  }

  /** The repeat rate is zero exactly when no two positions start the same four tokens. */
  lemma {:induction false} RateZeroExactly(ids: seq<int>)
    requires |ids| >= 4
    ensures RepeatRate(ids) == Some(0.0) <==>
              forall i, j :: 0 <= i < j <= |ids| - 4 ==> !SameFour(ids, i, j)
  {
    var n := |ids| - 3;
    RepeatRateTells(ids);
    SeenAgainZero(ids, n);
    var r := RepeatRate(ids).value;
    assert Mul(n as real, r) == SeenAgain(ids, n) as real;
    hide RepeatRate, SeenAgain;
    if r > 0.0 {
      MulPositive(n as real, r);
    } else if r < 0.0 {
      MulPositive(n as real, -r);
    }
  }

  lemma {:induction false} SeenAgainZero(ids: seq<int>, n: nat)
    requires |ids| >= 4 && n + 3 <= |ids|
    ensures SeenAgain(ids, n) == 0 <==> forall i, j :: 0 <= i < j < n ==> !SameFour(ids, i, j)
  {
    if n == 0 {
    } else {
      SeenAgainZero(ids, n - 1);
    }
  }

  // ---------- The features of both programs ----------

  lemma {:induction false} PrefixesAre<T>(s: seq<T>, n: nat)
    ensures FirstSlice(s, n) == Opening(s, n)
  {
  }

  lemma {:induction false} EosTells(s: seq<real>, w: nat, exp: real -> real)
    requires w >= 1
    ensures var x, window := ReplayWindowMean(s, w, true), Closing(s, w);
            && Averages(x, window, 0.0) && ExponentialTells(Apply(exp, x), window, exp, 0.0)
    ensures var x, window := if s == [] then None else WindowMean(s, w, true), Closing(s, w);
            && Averages(RoundOptional(x), window, 0.0000005)
            && ExponentialTells(RoundOptional(Apply(exp, x)), window, exp, 0.0000005)
  {
    var window := Closing(s, w);
    WindowsAre(s, w);
    MeansThere(s, w);
    MeanAverages(window);
    RoundedMeanAverages(window);
    forall m | window != [] && Deviations(window, m) == 0.0 ensures m == Mean(window).value {
      BalanceIsMean(window, m);
    }
    hide Mean, Round6, Averages, Deviations;
    if s != [] { Round6Near(exp(Mean(window).value)); }
  }

  /** What the replay recomputes tells exactly about the tokens it is given. */
  lemma {:induction false} RecomputedTells(t: Tokens, n: nat, w: nat, exp: real -> real)
    requires w >= 1
    ensures Tells(Recomputed(t, n, w, exp), t, n, w, exp, 0.0)
  {
    PrefixesAre(t.logprobs, n);
    PrefixesAre(t.entropies, n);
    PrefixesAre(t.eosLogprobs, n);
    PrefixesAre(t.ids, n);
    var ids := Opening(t.ids, n);
    ReplaySignalTells(Opening(t.logprobs, n), w);
    ReplaySignalTells(Opening(t.entropies, n), w);
    EosTells(Opening(t.eosLogprobs, n), w, exp);
    RepeatRateTells(ids);
    RepeatRatesAgree(ids);
    hide ReplaySignal, SignalTells, RateTells, ExponentialTells, Averages, RepeatRate, ReplayRepeatRate, Apply,
         FirstSlice, Opening, Closing, ReplayWindowMean;
  }

  /** What the generator stores tells about the tokens up to half a unit in the sixth digit. */
  lemma {:induction false} StoredTells(t: Tokens, n: nat, w: nat, exp: real -> real)
    requires w >= 1
    ensures Tells(StoredFeatures(t, n, w, exp), t, n, w, exp, 0.0000005)
  {
    PrefixesAre(t.logprobs, n);
    PrefixesAre(t.entropies, n);
    PrefixesAre(t.eosLogprobs, n);
    PrefixesAre(t.ids, n);
    var ids := Opening(t.ids, n);
    StoredSignalTells(Opening(t.logprobs, n), w);
    StoredSignalTells(Opening(t.entropies, n), w);
    EosTells(Opening(t.eosLogprobs, n), w, exp);
    RepeatRateTells(ids);
    hide StoredSignal, SignalTells, RateTells, ExponentialTells, Averages, RepeatRate, Apply, RoundOptional,
         FirstSlice, Opening, Closing, WindowMean;
  }

  /** Every summary that the generator stores tells about the prefix it names. */
  lemma {:induction false} SummariesTell(
      t: Tokens, outputLen: nat, checkpoints: seq<int>, w: nat, exp: real -> real, i: nat)
    requires w >= 1 && i < |SummariesFor(t, outputLen, checkpoints, w, exp)|
    ensures var f := SummariesFor(t, outputLen, checkpoints, w, exp)[i];
            0 < f.prefixLen < outputLen && Tells(f, t, f.prefixLen, w, exp, 0.0000005)
  {
    var ss := SummariesFor(t, outputLen, checkpoints, w, exp);
    hide SummariesFor, StoredFeatures, Tells;
    SummaryIsStored(t, outputLen, checkpoints, w, exp, i);
    SummarisedExactly(t, outputLen, checkpoints, w, exp, ss[i].prefixLen);
    assert Summarised(ss, ss[i].prefixLen);
    StoredTells(t, ss[i].prefixLen, w, exp);
  }

  /** What the replay reads off a generated record: at a checkpoint inside the output it tells about the
      original tokens, and elsewhere exactly about the stored ones. */
  lemma {:induction false} LiveFeaturesTell(
      t: Tokens, outputLen: nat, checkpoints: seq<int>, n: nat, w: nat, exp: real -> real)
    requires w >= 1
    ensures var f := Find(SummariesFor(t, outputLen, checkpoints, w, exp), n, Recomputed(RoundTokens(t), n, w, exp));
            if n in checkpoints && 0 < n < outputLen then Tells(f, t, n, w, exp, 0.0000005)
            else Tells(f, RoundTokens(t), n, w, exp, 0.0)
  {
    hide SummariesFor, StoredFeatures, Recomputed, Tells, Find;
    FoundExactly(t, outputLen, checkpoints, w, exp, n, Recomputed(RoundTokens(t), n, w, exp));
    StoredTells(t, n, w, exp);
    RecomputedTells(RoundTokens(t), n, w, exp);
  }

  // ---------- What is stored has six digits ----------

  ghost predicate SixDigits(x: Option<real>) {
    x.Some? ==> exists n: int :: IsMillionths(x.value, n)
  }

  ghost predicate SignalHasSixDigits(f: Signal) {
    SixDigits(f.avg) && SixDigits(f.first) && SixDigits(f.recent) && SixDigits(f.delta)
  }

  lemma {:induction false} RoundedHasSixDigits(x: Option<real>)
    ensures SixDigits(RoundOptional(x))
  {
    if x.Some? { Round6IsMillionths(x.value); }
  }

  lemma {:induction false} StoredSignalHasSixDigits(s: seq<real>, w: int)
    ensures SignalHasSixDigits(StoredSignal(s, w))
  {
    hide RoundOptional, SixDigits;
    var first := if s == [] then None else WindowMean(s, w, false);
    var recent := if s == [] then None else WindowMean(s, w, true);
    RoundedHasSixDigits(Mean(s));
    RoundedHasSixDigits(first);
    RoundedHasSixDigits(recent);
    RoundedHasSixDigits(Minus(recent, first));
  }

  /** Every number in a stored summary is a whole number of millionths. */
  lemma {:induction false} StoredHasSixDigits(t: Tokens, n: int, w: int, exp: real -> real)
    ensures var f := StoredFeatures(t, n, w, exp);
            && SignalHasSixDigits(f.logprob) && SignalHasSixDigits(f.entropy)
            && SixDigits(f.recentEos) && SixDigits(f.recentEosProb) && SixDigits(f.repeatRate)
  {
    hide RoundOptional, SixDigits, SignalHasSixDigits, StoredSignal, RepeatRate, Apply, WindowMean;
    var eos := FirstSlice(t.eosLogprobs, n);
    var recentEos := if eos == [] then None else WindowMean(eos, w, true);
    StoredSignalHasSixDigits(FirstSlice(t.logprobs, n), w);
    StoredSignalHasSixDigits(FirstSlice(t.entropies, n), w);
    RoundedHasSixDigits(recentEos);
    RoundedHasSixDigits(Apply(exp, recentEos));
    RoundedHasSixDigits(RepeatRate(FirstSlice(t.ids, n)));
  }

  ghost predicate RoundsTo(x: real, y: real) {
    Abs(y - x) <= 0.0000005 && exists n: int :: IsMillionths(y, n)
  }

  ghost predicate AllRound(s: seq<real>, r: seq<real>) {
    |r| == |s| && forall i :: 0 <= i < |s| ==> RoundsTo(s[i], r[i])
  }

  /** The stored token values are the original ones, each to the nearest millionth; ids are kept. */
  lemma {:induction false} StoredTokensAreRounded(t: Tokens)
    ensures var r := RoundTokens(t);
            && AllRound(t.logprobs, r.logprobs) && AllRound(t.entropies, r.entropies)
            && AllRound(t.eosLogprobs, r.eosLogprobs) && r.ids == t.ids
  {
    ValuesAreRounded(t.logprobs);
    ValuesAreRounded(t.entropies);
    ValuesAreRounded(t.eosLogprobs);
  }

  lemma {:induction false} ValuesAreRounded(s: seq<real>)
    ensures AllRound(s, RoundAll(s))
  {
    hide Round6;
    forall i | 0 <= i < |s| ensures RoundsTo(s[i], RoundAll(s)[i]) {
      Round6Near(s[i]);
      Round6IsMillionths(s[i]);
    }
  }
}
