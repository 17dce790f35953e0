/**
  The calibration table of `benchmarks/bon_output_length_prediction.py`: normalised lengths
  grouped at four levels of detail, summarised, and looked up from the finest level down.
 */
module Calibration {
  import opened RealArith
  import opened OrderStatistics

  datatype Sample = Sample(bonN: int, kFinished: int, binIndex: int, actualNorm: real)

  /** A level of detail and the samples it groups. */
  datatype Key = Exact(n: int, k: int, bin: int) | NK(n: int, k: int) | N(n: int) | Global

  datatype Stats = Stats(count: real, mean: real, median: real, p75: real, p90: real)

  const DEFAULT_STATS := Stats(0.0, 1.0, 1.0, 1.0, 1.0)

  predicate Matches(key: Key, s: Sample) {
    match key
    case Exact(n, k, bin) => s.bonN == n && s.kFinished == k && s.binIndex == bin
    case NK(n, k) => s.bonN == n && s.kFinished == k
    case N(n) => s.bonN == n
    case Global => true
  }

  /** The naive view: filter the samples. */
  function ValuesAt(samples: seq<Sample>, key: Key): seq<real> {
    if samples == [] then []
    else
      var s := samples[|samples| - 1];
      ValuesAt(samples[..|samples| - 1], key) + if Matches(key, s) then [s.actualNorm] else []
  }

  function StatsOf(values: seq<real>): Stats
    requires values != []
  {
    Stats(|values| as real, Sum(values) / |values| as real, Percentile(values, 0.5).value,
          Percentile(values, 0.75).value, Percentile(values, 0.9).value)
  }

  /** A level enters the table when it has samples; the finest one only when it has enough. */
  predicate Tabulated(samples: seq<Sample>, minBin: int, key: Key) {
    ValuesAt(samples, key) != [] && (key.Exact? ==> |ValuesAt(samples, key)| >= minBin)
  }

  // ---------- Building the table ----------

  type Groups = map<Key, seq<real>>

  function Get(g: Groups, key: Key): seq<real> { if key in g then g[key] else [] }

  function Add(g: Groups, key: Key, value: real): Groups { g[key := Get(g, key) + [value]] }

  /** The groups hold exactly what filtering gives. */
  ghost predicate IsGrouping(g: Groups, samples: seq<Sample>) {
    forall key :: GroupedAt(g, samples, key)
  }

  ghost predicate GroupedAt(g: Groups, samples: seq<Sample>, key: Key) {
    Get(g, key) == ValuesAt(samples, key) && (key in g <==> ValuesAt(samples, key) != [])
  }

  /** Each of the four keys gets the value once, and only they do. */
  function AddLevels(g: Groups, s: Sample): Groups {
    var g1 := Add(g, Exact(s.bonN, s.kFinished, s.binIndex), s.actualNorm);
    var g2 := Add(g1, NK(s.bonN, s.kFinished), s.actualNorm);
    var g3 := Add(g2, N(s.bonN), s.actualNorm);
    Add(g3, Global, s.actualNorm)
  }

  lemma {:induction false} AddLevelsAt(g: Groups, s: Sample, key: Key)
    ensures Get(AddLevels(g, s), key) == Get(g, key) + if Matches(key, s) then [s.actualNorm] else []
    ensures key in AddLevels(g, s) <==> key in g || Matches(key, s)
  {
  }

  lemma {:induction false} AddLevelsGroups(g: Groups, s: Sample, samples: seq<Sample>)
    requires IsGrouping(g, samples)
    ensures IsGrouping(AddLevels(g, s), samples + [s])
  {
    assert (samples + [s])[..|samples|] == samples;
    hide AddLevels, Get, Matches;
    forall key: Key ensures GroupedAt(AddLevels(g, s), samples + [s], key) {
      assert GroupedAt(g, samples, key);
      AddLevelsAt(g, s, key);
    }
  }

  /** The table has exactly the levels with enough samples, each summarised from those samples. */
  method FitOrderCalibration(samples: seq<Sample>, minBin: int) returns (table: map<Key, Stats>)
    ensures IsTable(table, samples, minBin)
  {
    var grouped: Groups := map[];
    for i := 0 to |samples|
      invariant IsGrouping(grouped, samples[..i])
    {
      assert samples[..i + 1] == samples[..i] + [samples[i]];
      var s := samples[i];
      AddLevelsGroups(grouped, s, samples[..i]);
      grouped := Add(grouped, Exact(s.bonN, s.kFinished, s.binIndex), s.actualNorm);
      grouped := Add(grouped, NK(s.bonN, s.kFinished), s.actualNorm);
      grouped := Add(grouped, N(s.bonN), s.actualNorm);
      grouped := Add(grouped, Global, s.actualNorm);
    }
    assert samples[..|samples|] == samples;
    forall key | Tabulated(samples, minBin, key) ensures key in grouped { assert GroupedAt(grouped, samples, key); }
    table := map[];
    var todo := grouped.Keys;
    while todo != {}
      invariant todo <= grouped.Keys
      invariant forall key :: key in table <==> key in grouped.Keys - todo && Tabulated(samples, minBin, key)
      invariant forall key <- table :: ValuesAt(samples, key) != [] && table[key] == StatsOf(ValuesAt(samples, key))
      decreases |todo|
    {
      hide StatsOf, ValuesAt;
      var key :| key in todo;
      todo := todo - {key};
      var values := grouped[key];
      assert GroupedAt(grouped, samples, key);
      if !key.Exact? || |values| >= minBin {
        table := table[key := StatsOf(values)];
      }
    }
  }

  // ---------- Looking up ----------

  method LookupCalibration(table: map<Key, Stats>, bonN: int, kFinished: int, binIndex: int) returns (stats: Stats)
    ensures stats == Lookup(table, Levels(Sample(bonN, kFinished, binIndex, 0.0)))
  {
    var keys := [Exact(bonN, kFinished, binIndex), NK(bonN, kFinished), N(bonN), Global];
    for i := 0 to |keys|
      invariant Lookup(table, keys) == Lookup(table, keys[i..])
    {
      if keys[i] in table { return table[keys[i]]; }
      assert keys[i..][1..] == keys[i + 1..];
    }
    return DEFAULT_STATS;
  }

  /** The first key of the list that the table has. */
  function Lookup(table: map<Key, Stats>, keys: seq<Key>): Stats {
    if keys == [] then DEFAULT_STATS
    else if keys[0] in table then table[keys[0]]
    else Lookup(table, keys[1..])
  }

  function Levels(s: Sample): seq<Key> {
    [Exact(s.bonN, s.kFinished, s.binIndex), NK(s.bonN, s.kFinished), N(s.bonN), Global]
  }

  ghost predicate IsTable(table: map<Key, Stats>, samples: seq<Sample>, minBin: int) {
    && (forall key :: key in table <==> Tabulated(samples, minBin, key))
    && (forall key <- table :: ValuesAt(samples, key) != [] && table[key] == StatsOf(ValuesAt(samples, key)))
  }

  /** What a lookup in a fitted table returns: the summary of the samples at the finest level that
      made it into the table, and the default only if there were no samples at all. */
  lemma {:induction false} LookupIsFinest(table: map<Key, Stats>, samples: seq<Sample>, minBin: int, s: Sample)
    requires IsTable(table, samples, minBin)
    ensures samples == [] ==> Lookup(table, Levels(s)) == DEFAULT_STATS
    ensures samples != [] ==>
              exists i :: 0 <= i < 4 && Tabulated(samples, minBin, Levels(s)[i])
                && (forall j :: 0 <= j < i ==> !Tabulated(samples, minBin, Levels(s)[j]))
                && Lookup(table, Levels(s)) == StatsOf(ValuesAt(samples, Levels(s)[i]))
  {
    var keys := Levels(s);
    FirstPresent(table, keys);
    var i := First(table, keys);
    hide StatsOf;
    if samples != [] {
      GlobalHasAll(samples);
      assert Tabulated(samples, minBin, keys[3]);
      assert keys[i] in table;
    } else {
      assert forall key :: key !in table;
    }
  }

  function First(table: map<Key, Stats>, keys: seq<Key>): (i: nat)
    ensures i <= |keys| && (i < |keys| ==> keys[i] in table) && forall j :: 0 <= j < i ==> keys[j] !in table
  {
    if keys == [] || keys[0] in table then 0 else 1 + First(table, keys[1..])
  }

  lemma {:induction false} FirstPresent(table: map<Key, Stats>, keys: seq<Key>)
    ensures var i := First(table, keys); Lookup(table, keys) == if i < |keys| then table[keys[i]] else DEFAULT_STATS
  {
    if keys != [] && keys[0] !in table { FirstPresent(table, keys[1..]); }
  }

  lemma {:induction false} GlobalHasAll(samples: seq<Sample>)
    ensures |ValuesAt(samples, Global)| == |samples|
  {
    if samples == [] {
    } else {
      GlobalHasAll(samples[..|samples| - 1]);
    }
  }

  /** Which samples a level groups. */
  function PositionsAt(samples: seq<Sample>, key: Key): set<int> {
    set i | 0 <= i < |samples| && Matches(key, samples[i])
  }

  function CountAt(samples: seq<Sample>, key: Key): nat { |PositionsAt(samples, key)| }

  lemma {:induction false} CountNext(front: seq<Sample>, s: Sample, key: Key)
    ensures CountAt(front + [s], key) == CountAt(front, key) + if Matches(key, s) then 1 else 0
  {
    hide Matches;
    var all, n := front + [s], |front|;
    assert all[n] == s;
    forall i: int ensures i in PositionsAt(all, key) <==> i in PositionsAt(front, key) || (i == n && Matches(key, s)) {
      if 0 <= i < n { assert all[i] == front[i]; }
    }
    assert n !in PositionsAt(front, key);
    hide PositionsAt;
    assert PositionsAt(all, key) == PositionsAt(front, key) + if Matches(key, s) then {n} else {};
  }

  lemma {:induction false} NoneCounted(key: Key)
    ensures CountAt([], key) == 0
  {
    assert PositionsAt([], key) == {};
  }

  lemma {:induction false} ValuesAreCounted(samples: seq<Sample>, key: Key)
    ensures |ValuesAt(samples, key)| == CountAt(samples, key)
  {
    hide Matches, CountAt;
    if samples == [] {
      NoneCounted(key);
    } else {
      var n := |samples| - 1;
      ValuesAreCounted(samples[..n], key);
      CountNext(samples[..n], samples[n], key);
      assert samples == samples[..n] + [samples[n]];
    }
  }

  /** A level is tabulated exactly when it groups a sample, and the finest one when it groups enough. */
  lemma {:induction false} TabulatedExactly(samples: seq<Sample>, minBin: int, key: Key)
    ensures Tabulated(samples, minBin, key) <==>
              CountAt(samples, key) >= 1 && (key.Exact? ==> CountAt(samples, key) >= minBin)
  {
    ValuesAreCounted(samples, key);
  }

  /** The levels of a sample group the samples that agree with it in all three fields, in two, in one
      and in none, in this order. */
  lemma {:induction false} LevelsWiden(s: Sample, x: Sample)
    ensures |Levels(s)| == 4
    ensures Matches(Levels(s)[0], x) <==> x.bonN == s.bonN && x.kFinished == s.kFinished && x.binIndex == s.binIndex
    ensures Matches(Levels(s)[1], x) <==> x.bonN == s.bonN && x.kFinished == s.kFinished
    ensures Matches(Levels(s)[2], x) <==> x.bonN == s.bonN
    ensures Matches(Levels(s)[3], x)
  {
  }

  // ---------- Calibrated predictions ----------

  datatype Calibrated = Calibrated(mean: real, median: real, p75: real, p90: real)

  function CalibratedPredictions(stats: Stats, prior: real, kthFinishedLen: real): Calibrated {
    var lower := kthFinishedLen + 1.0;
    Calibrated(Max(lower, Mul(stats.mean, prior)), Max(lower, Mul(stats.median, prior)),
               Max(lower, Mul(stats.p75, prior)), Max(lower, Mul(stats.p90, prior)))
  }

  lemma {:induction false} StatsAscend(values: seq<real>)
    requires values != []
    ensures StatsOf(values).median <= StatsOf(values).p75 <= StatsOf(values).p90
  {
    PercentileMonotone(values, 0.5, 0.75);
    PercentileMonotone(values, 0.75, 0.9);
  }

  /** What a summary says about its values: how many there are, where they balance, and which lie half,
      three quarters and nine tenths of the way up. */
  ghost predicate Summarises(stats: Stats, values: seq<real>) {
    var top := (|values| - 1) as real;
    && stats.count == |values| as real
    && Deviations(values, stats.mean) == 0.0
    && IsAtRank(stats.median, Sorted(values), Mul(top, 0.5))
    && IsAtRank(stats.p75, Sorted(values), Mul(top, 0.75))
    && IsAtRank(stats.p90, Sorted(values), Mul(top, 0.9))
  }

  lemma {:induction false} StatsSummarise(values: seq<real>)
    requires values != []
    ensures Summarises(StatsOf(values), values)
  {
    hide IsAtRank, Percentile, Deviations, Mul, Sorted, Sum;
    AverageBalances(values);
    PercentileIsAtRank(values, 0.5);
    PercentileIsAtRank(values, 0.75);
    PercentileIsAtRank(values, 0.9);
  }

  /** What a prediction says: each statistic times the prior, raised to one more than the bound. */
  ghost predicate Predicts(c: Calibrated, stats: Stats, prior: real, kthFinishedLen: real) {
    && Raised(c.mean, kthFinishedLen + 1.0, Mul(prior, stats.mean))
    && Raised(c.median, kthFinishedLen + 1.0, Mul(prior, stats.median))
    && Raised(c.p75, kthFinishedLen + 1.0, Mul(prior, stats.p75))
    && Raised(c.p90, kthFinishedLen + 1.0, Mul(prior, stats.p90))
  }

  /** A calibrated prediction scales the summary of the samples at the finest level tabulated; without
      any samples it is the prior, raised to one more than the bound. */
  lemma {:induction false} CalibratedTells(
      table: map<Key, Stats>, samples: seq<Sample>, minBin: int, s: Sample, prior: real, kthFinishedLen: real)
    requires IsTable(table, samples, minBin)
    ensures var stats := Lookup(table, Levels(s));
            var c := CalibratedPredictions(stats, prior, kthFinishedLen);
            && Predicts(c, stats, prior, kthFinishedLen)
            && if samples == [] then IsPrior(c, prior, kthFinishedLen)
               else exists i :: 0 <= i < 4 && FinestAt(samples, minBin, s, i)
                                && Summarises(stats, ValuesAt(samples, Levels(s)[i]))
  {
    hide *;
    var stats := Lookup(table, Levels(s));
    ScalesStats(stats, prior, kthFinishedLen);
    if samples == [] {
      LookupIsFinest(table, samples, minBin, s);
      DefaultIsPrior(prior, kthFinishedLen);
    } else {
      var i := LookupSummarises(table, samples, minBin, s);
    }
  }

  /** All four predictions are the prior, raised to one more than the bound. */
  ghost predicate IsPrior(c: Calibrated, prior: real, kthFinishedLen: real) {
    && Raised(c.mean, kthFinishedLen + 1.0, prior) && Raised(c.median, kthFinishedLen + 1.0, prior)
    && Raised(c.p75, kthFinishedLen + 1.0, prior) && Raised(c.p90, kthFinishedLen + 1.0, prior)
  }

  /** Level `i` of the sample is the first that is tabulated. */
  ghost predicate FinestAt(samples: seq<Sample>, minBin: int, s: Sample, i: nat)
    requires i < 4
  {
    Tabulated(samples, minBin, Levels(s)[i]) && forall j :: 0 <= j < i ==> !Tabulated(samples, minBin, Levels(s)[j])
  }

  lemma {:induction false} ScalesStats(stats: Stats, prior: real, kthFinishedLen: real)
    ensures Predicts(CalibratedPredictions(stats, prior, kthFinishedLen), stats, prior, kthFinishedLen)
  {
    MulCommutes(prior, stats.mean);
    MulCommutes(prior, stats.median);
    MulCommutes(prior, stats.p75);
    MulCommutes(prior, stats.p90);
    hide Mul;
  }

  lemma {:induction false} DefaultIsPrior(prior: real, kthFinishedLen: real)
    ensures IsPrior(CalibratedPredictions(DEFAULT_STATS, prior, kthFinishedLen), prior, kthFinishedLen)
  {
  }

  lemma {:induction false} LookupSummarises(
      table: map<Key, Stats>, samples: seq<Sample>, minBin: int, s: Sample) returns (i: nat)
    requires IsTable(table, samples, minBin) && samples != []
    ensures i < 4 && FinestAt(samples, minBin, s, i)
    ensures Summarises(Lookup(table, Levels(s)), ValuesAt(samples, Levels(s)[i]))
  {
    hide StatsOf, Lookup, ValuesAt, IsTable, Summarises;
    LookupIsFinest(table, samples, minBin, s);
    i :| 0 <= i < 4 && Tabulated(samples, minBin, Levels(s)[i])
         && (forall j :: 0 <= j < i ==> !Tabulated(samples, minBin, Levels(s)[j]))
         && Lookup(table, Levels(s)) == StatsOf(ValuesAt(samples, Levels(s)[i]));
    StatsSummarise(ValuesAt(samples, Levels(s)[i]));
  }

  /** Whatever the training samples, the predictions for a sample come in order above its bound. */
  lemma {:induction false} CalibratedInOrder(
      table: map<Key, Stats>, samples: seq<Sample>, minBin: int, s: Sample, prior: real, kthFinishedLen: real)
    requires IsTable(table, samples, minBin) && prior >= 0.0
    ensures var c := CalibratedPredictions(Lookup(table, Levels(s)), prior, kthFinishedLen);
            kthFinishedLen + 1.0 <= c.median <= c.p75 <= c.p90 && kthFinishedLen + 1.0 <= c.mean
  {
    var stats := Lookup(table, Levels(s));
    LookupIsFinest(table, samples, minBin, s);
    hide StatsOf, Lookup, ValuesAt, IsTable;
    if samples != [] {
      var i :| 0 <= i < 4 && Tabulated(samples, minBin, Levels(s)[i])
               && stats == StatsOf(ValuesAt(samples, Levels(s)[i]));
      StatsAscend(ValuesAt(samples, Levels(s)[i]));
    }
    MulOrder(prior, stats.median, stats.p75);
    MulOrder(prior, stats.p75, stats.p90);
  }
}
