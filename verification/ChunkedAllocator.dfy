/**
  Creating, mapping and giving back the chunks of an allocation, as the ROCm paths of
  `create_and_map` and `unmap_and_release` in `csrc/cumem_allocator.cpp` do, over a model of the
  driver: the handles that are live and the address ranges that are mapped.
 */
module ChunkedAllocator {
  import ChunkTiling

  type Handle = nat

  datatype Mapping = Mapping(size: nat, handle: Handle)

  const INVALID_VALUE := 1

  // ---------- Chunks laid end to end ----------

  /** Where chunk `i` begins, counted from the base address. */
  function Offset(sizes: seq<nat>, i: nat): nat
    requires i <= |sizes|
  {
    if i == 0 then 0 else Offset(sizes, i - 1) + sizes[i - 1]
  }

  /** The mappings of the first `n` chunks at base address `d`. */
  function ChunkMap(d: nat, sizes: seq<nat>, hs: seq<Handle>, n: nat): map<nat, Mapping>
    requires n <= |sizes| && n <= |hs|
  {
    if n == 0 then map[]
    else ChunkMap(d, sizes, hs, n - 1)[d + Offset(sizes, n - 1) := Mapping(sizes[n - 1], hs[n - 1])]
  }

  function HandleSet(hs: seq<Handle>, n: nat): set<Handle>
    requires n <= |hs|
  {
    set k | 0 <= k < n :: hs[k]
  }

  lemma {:induction false} HandleSetNext(hs: seq<Handle>, i: nat, h: Handle)
    requires i < |hs|
    ensures HandleSet(hs[i := h], i + 1) == HandleSet(hs, i) + {h}
  {
    var hs' := hs[i := h];
    assert forall k :: 0 <= k < i ==> hs'[k] == hs[k];
    assert hs'[i] == h;
    forall x | x in HandleSet(hs, i) ensures x in HandleSet(hs', i + 1) {
      var k :| 0 <= k < i && hs[k] == x;
      assert hs'[k] == x;
    }
  }

  /** Every address of the range belongs to one chunk and no other: no gap and no overlap. */
  lemma {:induction false} ChunksCover(sizes: seq<nat>, x: nat) returns (i: nat)
    requires x < Offset(sizes, |sizes|)
    ensures i < |sizes| && Offset(sizes, i) <= x < Offset(sizes, i + 1)
    ensures forall j :: 0 <= j < |sizes| && Offset(sizes, j) <= x < Offset(sizes, j + 1) ==> j == i
  {
    i := 0;
    while Offset(sizes, i + 1) <= x
      invariant i < |sizes| && Offset(sizes, i) <= x
      decreases |sizes| - i
    {
      i := i + 1;
      if i == |sizes| { assert false; }
    }
    forall j | 0 <= j < |sizes| && Offset(sizes, j) <= x < Offset(sizes, j + 1) ensures j == i {
      if j < i { OffsetsGrow(sizes, j + 1, i); }
      if i < j { OffsetsGrow(sizes, i + 1, j); }
    }
  }

  lemma {:induction false} OffsetsGrow(sizes: seq<nat>, i: nat, j: nat)
    requires i <= j <= |sizes|
    ensures Offset(sizes, i) <= Offset(sizes, j)
  {
    if i == j {
    } else {
      OffsetsGrow(sizes, i, j - 1);
    }
  }

  lemma {:induction false} OffsetIsSum(sizes: seq<nat>, n: nat)
    requires n <= |sizes|
    ensures Offset(sizes, n) == ChunkTiling.Total(sizes[..n])
  {
    if n == 0 {
    } else {
      OffsetIsSum(sizes, n - 1);
      assert sizes[..n][..n - 1] == sizes[..n - 1];
    }
  }

  /** The chunk sizes computed for a request lay the mappings over exactly the aligned range. */
  lemma {:induction false} AlignedRangeTiled(aligned: nat, chunk: nat, g: nat, x: nat) returns (i: nat)
    requires 0 < aligned < ChunkTiling.U64 && 0 < chunk && g > 0 && aligned % g == 0 && chunk % g == 0
    requires aligned + chunk - 1 < ChunkTiling.U64
    requires x < aligned
    ensures var sizes := ChunkTiling.ChunkSizes(aligned, chunk, ChunkTiling.NumChunks(aligned, chunk));
            && Offset(sizes, |sizes|) == aligned
            && i < |sizes| && Offset(sizes, i) <= x < Offset(sizes, i + 1)
            && forall j :: 0 <= j < |sizes| && Offset(sizes, j) <= x < Offset(sizes, j + 1) ==> j == i
  {
    var sizes := ChunkTiling.ChunkSizes(aligned, chunk, ChunkTiling.NumChunks(aligned, chunk));
    ChunkTiling.ChunksTile(aligned, chunk, g);
    OffsetIsSum(sizes, |sizes|);
    assert sizes[..|sizes|] == sizes;
    i := ChunksCover(sizes, x);
  }

  // ---------- Undoing, on values ----------

  function UnmapOne(m: map<nat, Mapping>, a: nat, size: nat): map<nat, Mapping> {
    if a in m && m[a].size == size then m - {a} else m
  }

  function UnmapFirst(m: map<nat, Mapping>, d: nat, sizes: seq<nat>, n: nat): map<nat, Mapping>
    requires n <= |sizes|
  {
    if n == 0 then m else UnmapOne(UnmapFirst(m, d, sizes, n - 1), d + Offset(sizes, n - 1), sizes[n - 1])
  }

  /** Chunk `i` is mapped, as itself, in `m`. */
  predicate ChunkMapped(m: map<nat, Mapping>, d: nat, sizes: seq<nat>, i: nat)
    requires i < |sizes|
  {
    d + Offset(sizes, i) in m && m[d + Offset(sizes, i)].size == sizes[i]
  }

  /** Each of the first `n` chunks is still mapped when its turn to be unmapped comes. */
  ghost predicate AllMapped(m: map<nat, Mapping>, d: nat, sizes: seq<nat>, n: nat)
    requires n <= |sizes|
  {
    forall i :: 0 <= i < n ==> ChunkMapped(UnmapFirst(m, d, sizes, i), d, sizes, i)
  }

  /** Each of the first `n` handles is still live when its turn to be released comes. */
  ghost predicate AllHeld(live: set<Handle>, hs: seq<Handle>, n: nat)
    requires n <= |hs|
  {
    forall i :: 0 <= i < n ==> hs[i] in live && forall k :: 0 <= k < i ==> hs[k] != hs[i]
  }

  /** The first `n` chunks are not empty, so their addresses differ. */
  predicate Solid(sizes: seq<nat>, n: nat)
    requires n <= |sizes|
  {
    forall i :: 0 <= i < n ==> sizes[i] > 0
  }

  lemma {:induction false} OffsetsDiffer(sizes: seq<nat>, i: nat, j: nat)
    requires i < j <= |sizes| && Solid(sizes, j)
    ensures Offset(sizes, i) < Offset(sizes, j)
  {
    if i == j - 1 {
    } else {
      OffsetsDiffer(sizes, i, j - 1);
    }
  }

  lemma {:induction false} ChunkMapKeys(d: nat, sizes: seq<nat>, hs: seq<Handle>, n: nat, a: nat)
    requires n <= |sizes| && n <= |hs| && Solid(sizes, n)
    ensures a in ChunkMap(d, sizes, hs, n) ==> d <= a < d + Offset(sizes, n)
  {
    if n == 0 {
    } else {
      ChunkMapKeys(d, sizes, hs, n - 1, a);
    }
  }

  lemma {:induction false} ChunkMapAt(d: nat, sizes: seq<nat>, hs: seq<Handle>, n: nat, i: nat)
    requires i < n <= |sizes| && n <= |hs| && Solid(sizes, n)
    ensures var m := ChunkMap(d, sizes, hs, n); var a := d + Offset(sizes, i);
            a in m && m[a] == Mapping(sizes[i], hs[i])
  {
    if i == n - 1 {
    } else {
      ChunkMapAt(d, sizes, hs, n - 1, i);
      OffsetsDiffer(sizes, i, n - 1);
    }
  }

  /** Unmapping the first `k` of `n` mapped chunks leaves the rest and everything else. */
  lemma {:induction false} UnmapLeavesRest(
      m0: map<nat, Mapping>, d: nat, sizes: seq<nat>, hs: seq<Handle>, n: nat, k: nat)
    requires k <= n <= |sizes| && n <= |hs| && Solid(sizes, n)
    requires m0.Keys !! ChunkMap(d, sizes, hs, n).Keys
    ensures var c := ChunkMap(d, sizes, hs, n);
            UnmapFirst(m0 + c, d, sizes, k) == m0 + (c - ChunkMap(d, sizes, hs, k).Keys)
  {
    hide ChunkMap, Offset, UnmapOne, UnmapFirst;
    var c := ChunkMap(d, sizes, hs, n);
    if k == 0 {
      NothingUnmapped(m0 + c, d, sizes, hs);
      assert c - {} == c;
    } else {
      UnmapLeavesRest(m0, d, sizes, hs, n, k - 1);
      var a := d + Offset(sizes, k - 1);
      ChunkMapAt(d, sizes, hs, n, k - 1);
      ChunkMapKeys(d, sizes, hs, k - 1, a);
      UnmapNext(m0 + c, d, sizes, hs, k);
      UnmapStep(m0, c, ChunkMap(d, sizes, hs, k - 1).Keys, a);
    }
  }

  lemma {:induction false} NothingUnmapped(m: map<nat, Mapping>, d: nat, sizes: seq<nat>, hs: seq<Handle>)
    ensures UnmapFirst(m, d, sizes, 0) == m && ChunkMap(d, sizes, hs, 0).Keys == {}
  {
  }

  lemma {:induction false} UnmapNext(m: map<nat, Mapping>, d: nat, sizes: seq<nat>, hs: seq<Handle>, k: nat)
    requires 0 < k <= |sizes| && k <= |hs|
    ensures var a := d + Offset(sizes, k - 1);
            && UnmapFirst(m, d, sizes, k) == UnmapOne(UnmapFirst(m, d, sizes, k - 1), a, sizes[k - 1])
            && ChunkMap(d, sizes, hs, k).Keys == ChunkMap(d, sizes, hs, k - 1).Keys + {a}
  {
    hide UnmapOne;
  }

  lemma {:induction false} UnmapStep(m0: map<nat, Mapping>, c: map<nat, Mapping>, gone: set<nat>, a: nat)
    requires m0.Keys !! c.Keys && a in c && a !in gone
    ensures UnmapOne(m0 + (c - gone), a, c[a].size) == m0 + (c - (gone + {a}))
  {
    assert (m0 + (c - gone))[a] == c[a];
  }

  lemma {:induction false} LayNext(m0: map<nat, Mapping>, d: nat, sizes: seq<nat>, hs: seq<Handle>, i: nat)
    requires i < |sizes| && i < |hs|
    requires m0.Keys !! ChunkMap(d, sizes, hs, i).Keys
    requires d + Offset(sizes, i) !in m0
    ensures m0.Keys !! ChunkMap(d, sizes, hs, i + 1).Keys
    ensures m0 + ChunkMap(d, sizes, hs, i + 1)
         == (m0 + ChunkMap(d, sizes, hs, i))[d + Offset(sizes, i) := Mapping(sizes[i], hs[i])]
  {
  }

  lemma {:induction false} UnmapFindsNext(m0: map<nat, Mapping>, d: nat, sizes: seq<nat>, hs: seq<Handle>, i: nat)
    requires i < |sizes| == |hs| && Solid(sizes, |sizes|)
    requires m0.Keys !! ChunkMap(d, sizes, hs, |sizes|).Keys
    ensures ChunkMapped(UnmapFirst(m0 + ChunkMap(d, sizes, hs, |sizes|), d, sizes, i), d, sizes, i)
  {
    UnmapLeavesRest(m0, d, sizes, hs, |sizes|, i);
    ChunkMapAt(d, sizes, hs, |sizes|, i);
    ChunkMapKeys(d, sizes, hs, i, d + Offset(sizes, i));
  }

  lemma {:induction false} UnmapUndoesMap(m0: map<nat, Mapping>, d: nat, sizes: seq<nat>, hs: seq<Handle>, n: nat)
    requires n <= |sizes| && n <= |hs| && Solid(sizes, n)
    requires m0.Keys !! ChunkMap(d, sizes, hs, n).Keys
    ensures UnmapFirst(m0 + ChunkMap(d, sizes, hs, n), d, sizes, n) == m0
  {
    UnmapLeavesRest(m0, d, sizes, hs, n, n);
  }

  /** How many requests are made in `cycles` cycles of `n` requests each. */
  function Requests(cycles: nat, n: nat): nat {
    if cycles == 0 then 0 else Requests(cycles - 1, n) + n
  }

  lemma {:induction false} RequestsGrow(i: nat, cycles: nat, n: nat)
    requires i <= cycles
    ensures Requests(i, n) <= Requests(cycles, n)
  {
    if i == cycles {
    } else {
      RequestsGrow(i, cycles - 1, n);
    }
  }

  /** The driver grants `n` requests in a row, counting from its `first`. */
  ghost predicate Granted(plan: nat -> int, first: nat, n: nat) {
    forall c :: first <= c < first + n ==> plan(c) == 0
  }

  lemma {:induction false} GrantedBoth(plan: nat -> int, first: nat, m: nat, n: nat)
    ensures Granted(plan, first, m + n) <==> Granted(plan, first, m) && Granted(plan, first + m, n)
    ensures n == 1 ==> (Granted(plan, first + m, n) <==> plan(first + m) == 0)
  {
  }

  lemma {:induction false} GrantedCycle(plan: nat -> int, first: nat, i: nat, cycles: nat, n: nat)
    requires i < cycles
    ensures Requests(i + 1, n) == Requests(i, n) + n
    ensures Granted(plan, first, Requests(i + 1, n)) <==>
              Granted(plan, first, Requests(i, n)) && Granted(plan, first + Requests(i, n), n)
    ensures Granted(plan, first, Requests(cycles, n)) ==> Granted(plan, first, Requests(i + 1, n))
  {
    hide Granted;
    GrantedBoth(plan, first, Requests(i, n), n);
    RequestsGrow(i + 1, cycles, n);
    GrantedBoth(plan, first, Requests(i + 1, n), Requests(cycles, n) - Requests(i + 1, n));
  }

  lemma {:induction false} GrantedNone(plan: nat -> int, first: nat, n: nat)
    ensures Requests(0, n) == 0 && Granted(plan, first, 0)
  {
  }

  // ---------- Room for the chunks ----------

  /** No mapping overlaps the `size` addresses from `a` on. */
  predicate FreeIn(m: map<nat, Mapping>, a: nat, size: nat) {
    forall b <- m :: b + m[b].size <= a || a + size <= b
  }

  /** No mapping is empty. */
  predicate Positive(m: map<nat, Mapping>) {
    forall b <- m :: m[b].size > 0
  }

  /** Chunk `i` is not empty, and the place it goes to is free. */
  predicate ChunkFits(m: map<nat, Mapping>, d: nat, sizes: seq<nat>, i: nat)
    requires i < |sizes|
  {
    sizes[i] > 0 && FreeIn(m, d + Offset(sizes, i), sizes[i])
  }

  predicate Fits(m: map<nat, Mapping>, d: nat, sizes: seq<nat>, n: nat)
    requires n <= |sizes|
  {
    forall i :: 0 <= i < n ==> ChunkFits(m, d, sizes, i)
  }

  /** Chunks laid before chunk `n` do not reach into its place, so only older mappings matter. */
  lemma {:induction false} FreeBesideChunks(m0: map<nat, Mapping>, d: nat, sizes: seq<nat>, hs: seq<Handle>, n: nat)
    requires n < |sizes| && n <= |hs| && Solid(sizes, n)
    requires m0.Keys !! ChunkMap(d, sizes, hs, n).Keys
    ensures var a := d + Offset(sizes, n);
            FreeIn(m0 + ChunkMap(d, sizes, hs, n), a, sizes[n]) <==> FreeIn(m0, a, sizes[n])
  {
    var a, c := d + Offset(sizes, n), ChunkMap(d, sizes, hs, n);
    forall b | b in c ensures b + c[b].size <= a { ChunkEnds(d, sizes, hs, n, b); }
    hide ChunkMap;
    assert forall b <- m0 :: b in m0 + c && (m0 + c)[b] == m0[b];
  }

  lemma {:induction false} FitsNext(m: map<nat, Mapping>, d: nat, sizes: seq<nat>, i: nat)
    requires i < |sizes|
    ensures Fits(m, d, sizes, i + 1) <==> Fits(m, d, sizes, i) && ChunkFits(m, d, sizes, i)
    ensures Fits(m, d, sizes, |sizes|) ==> Fits(m, d, sizes, i + 1)
  {
    hide ChunkFits;
  }

  /** `m` is `m0` with the first `n` chunks mapped on top. */
  ghost predicate Laid(m: map<nat, Mapping>, d: nat, sizes: seq<nat>, hs: seq<Handle>, n: nat, m0: map<nat, Mapping>)
    requires n <= |sizes| && n <= |hs|
  {
    && Solid(sizes, n)
    && m0.Keys !! ChunkMap(d, sizes, hs, n).Keys
    && m == m0 + ChunkMap(d, sizes, hs, n)
  }

  lemma {:induction false} NothingLaid(m: map<nat, Mapping>, d: nat, sizes: seq<nat>, hs: seq<Handle>)
    ensures Laid(m, d, sizes, hs, 0, m) && Fits(m, d, sizes, 0)
  {
  }

  /** What mapping chunk `i` takes, and what it gives: one more chunk fits and is laid. */
  lemma {:induction false} MapNext(
      m: map<nat, Mapping>, d: nat, sizes: seq<nat>, hs: seq<Handle>, i: nat, m0: map<nat, Mapping>)
    requires i < |sizes| && i < |hs| && Laid(m, d, sizes, hs, i, m0) && Positive(m0)
    ensures var a := d + Offset(sizes, i);
            var room := sizes[i] > 0 && FreeIn(m, a, sizes[i]);
            && (ChunkFits(m0, d, sizes, i) <==> room)
            && (Fits(m0, d, sizes, i) && room ==> Fits(m0, d, sizes, i + 1))
            && (room ==> Laid(m[a := Mapping(sizes[i], hs[i])], d, sizes, hs, i + 1, m0))
  {
    hide Fits, FreeIn, ChunkMap;
    FitsNext(m0, d, sizes, i);
    FreeBesideChunks(m0, d, sizes, hs, i);
    var a := d + Offset(sizes, i);
    if sizes[i] > 0 && FreeIn(m0, a, sizes[i]) {
      FreeIsUnmapped(m0, a, sizes[i]);
      LayNext(m0, d, sizes, hs, i);
    }
  }

  lemma {:induction false} PositiveNext(m: map<nat, Mapping>, a: nat, x: Mapping)
    requires Positive(m) && x.size > 0
    ensures Positive(m[a := x])
  {
  }

  lemma {:induction false} FreeIsUnmapped(m: map<nat, Mapping>, a: nat, size: nat)
    requires size > 0 && FreeIn(m, a, size) && Positive(m)
    ensures a !in m
  {
  }

  lemma {:induction false} ChunkEnds(d: nat, sizes: seq<nat>, hs: seq<Handle>, n: nat, b: nat)
    requires n <= |sizes| && n <= |hs| && b in ChunkMap(d, sizes, hs, n)
    ensures b + ChunkMap(d, sizes, hs, n)[b].size <= d + Offset(sizes, n)
  {
    if n > 0 && b in ChunkMap(d, sizes, hs, n - 1) { ChunkEnds(d, sizes, hs, n - 1, b); }
  }

  // ---------- Where an allocation fails ----------

  /** Request `k` of an allocation is the first that fails: the first `n` requests create handles,
      the next `n` map chunks, which also takes room, and the last one asks for access. */
  ghost predicate FailsAt(
      plan: nat -> int, first: nat, m: map<nat, Mapping>, d: nat, sizes: seq<nat>, k: nat)
  {
    var n := |sizes|;
    && k <= 2 * n
    && Granted(plan, first, k)
    && (if k < n then plan(first + k) != 0
        else if k < 2 * n then
          Fits(m, d, sizes, k - n) && !(plan(first + k) == 0 && ChunkFits(m, d, sizes, k - n))
        else Fits(m, d, sizes, n) && plan(first + k) != 0)
  }

  lemma {:induction false} FailsCreating(
      plan: nat -> int, first: nat, m: map<nat, Mapping>, d: nat, sizes: seq<nat>, k: nat)
    requires k < |sizes| && Granted(plan, first, k) && plan(first + k) != 0
    ensures FailsAt(plan, first, m, d, sizes, k)
  {
    hide Granted;
  }

  lemma {:induction false} FailsMapping(
      plan: nat -> int, first: nat, m: map<nat, Mapping>, d: nat, sizes: seq<nat>, i: nat)
    requires var n := |sizes|;
             && i < n && Granted(plan, first, n) && Granted(plan, first + n, i) && Fits(m, d, sizes, i)
             && !(plan(first + n + i) == 0 && ChunkFits(m, d, sizes, i))
    ensures FailsAt(plan, first, m, d, sizes, |sizes| + i)
  {
    hide Granted, Fits, ChunkFits;
    GrantedBoth(plan, first, |sizes|, i);
  }

  lemma {:induction false} FailsAccess(
      plan: nat -> int, first: nat, m: map<nat, Mapping>, d: nat, sizes: seq<nat>)
    requires Granted(plan, first, 2 * |sizes|) && Fits(m, d, sizes, |sizes|) && plan(first + 2 * |sizes|) != 0
    ensures FailsAt(plan, first, m, d, sizes, 2 * |sizes|)
  {
    hide Granted, Fits, ChunkFits;
  }

  /** An allocation fails at one request only. */
  lemma {:induction false} FailsOnce(
      plan: nat -> int, first: nat, m: map<nat, Mapping>, d: nat, sizes: seq<nat>, j: nat, k: nat)
    requires FailsAt(plan, first, m, d, sizes, j) && FailsAt(plan, first, m, d, sizes, k)
    ensures j == k
  {
    if j < k { FailsNoLater(plan, first, m, d, sizes, j, k); }
    if k < j { FailsNoLater(plan, first, m, d, sizes, k, j); }
  }

  lemma {:induction false} FailsNoLater(
      plan: nat -> int, first: nat, m: map<nat, Mapping>, d: nat, sizes: seq<nat>, j: nat, k: nat)
    requires FailsAt(plan, first, m, d, sizes, j) && j < k
    ensures !FailsAt(plan, first, m, d, sizes, k)
  {
    hide ChunkFits;
    var n := |sizes|;
    if Granted(plan, first, k) {
      assert plan(first + j) == 0;
      assert !ChunkFits(m, d, sizes, j - n);
    }
  }

  /** Some request fails exactly when not all are granted or there is no room. */
  lemma {:induction false} FailsSomewhere(
      plan: nat -> int, first: nat, m: map<nat, Mapping>, d: nat, sizes: seq<nat>)
    ensures (exists k :: FailsAt(plan, first, m, d, sizes, k)) <==>
              !(Granted(plan, first, 2 * |sizes| + 1) && Fits(m, d, sizes, |sizes|))
  {
    var n := |sizes|;
    if Granted(plan, first, 2 * n + 1) && Fits(m, d, sizes, n) {
      forall k ensures !FailsAt(plan, first, m, d, sizes, k) { NeverFails(plan, first, m, d, sizes, k); }
    } else {
      var k := FirstFailure(plan, first, m, d, sizes, 0);
    }
  }

  lemma {:induction false} NeverFails(
      plan: nat -> int, first: nat, m: map<nat, Mapping>, d: nat, sizes: seq<nat>, k: nat)
    requires Granted(plan, first, 2 * |sizes| + 1) && Fits(m, d, sizes, |sizes|)
    ensures !FailsAt(plan, first, m, d, sizes, k)
  {
    hide ChunkFits;
    if k <= 2 * |sizes| { assert plan(first + k) == 0; }
  }

  lemma {:induction false} FirstFailure(
      plan: nat -> int, first: nat, m: map<nat, Mapping>, d: nat, sizes: seq<nat>, j: nat) returns (k: nat)
    requires j <= 2 * |sizes| && Granted(plan, first, j) && (j > |sizes| ==> Fits(m, d, sizes, j - |sizes|))
    requires !(Granted(plan, first, 2 * |sizes| + 1) && Fits(m, d, sizes, |sizes|))
    ensures FailsAt(plan, first, m, d, sizes, k)
    decreases 2 * |sizes| - j
  {
    hide ChunkFits;
    k := j;
    if !FailsAt(plan, first, m, d, sizes, j) {
      assert plan(first + j) == 0;
      k := FirstFailure(plan, first, m, d, sizes, j + 1);
    }
  }

  // ---------- Giving back, as the driver answers ----------

  /** What is mapped after unmapping the first `n` chunks, when the driver's answers begin at `first`. */
  function UnmapAnswered(
      m: map<nat, Mapping>, d: nat, sizes: seq<nat>, n: nat, answers: nat -> int, first: nat): map<nat, Mapping>
    requires n <= |sizes|
  {
    if n == 0 then m
    else
      var before := UnmapAnswered(m, d, sizes, n - 1, answers, first);
      if answers(first + n - 1) == 0 then UnmapOne(before, d + Offset(sizes, n - 1), sizes[n - 1]) else before
  }

  /** What is live after releasing the first `n` handles. */
  function ReleaseAnswered(live: set<Handle>, hs: seq<Handle>, n: nat, answers: nat -> int, first: nat): set<Handle>
    requires n <= |hs|
  {
    if n == 0 then live
    else
      var before := ReleaseAnswered(live, hs, n - 1, answers, first);
      if answers(first + n - 1) == 0 then before - {hs[n - 1]} else before
  }

  /** Everything in `m0` is still in `m`. */
  ghost predicate Keeps(m0: map<nat, Mapping>, m: map<nat, Mapping>) {
    forall b <- m0 :: b in m && m[b] == m0[b]
  }

  lemma {:induction false} KeepsSame(m: map<nat, Mapping>)
    ensures Keeps(m, m)
  {
  }

  lemma {:induction false} UnmapGranted(
      m: map<nat, Mapping>, d: nat, sizes: seq<nat>, n: nat, answers: nat -> int, first: nat)
    requires n <= |sizes| && Granted(answers, first, n)
    ensures UnmapAnswered(m, d, sizes, n, answers, first) == UnmapFirst(m, d, sizes, n)
  {
    hide UnmapOne;
    if n == 0 {
    } else {
      UnmapGranted(m, d, sizes, n - 1, answers, first);
      assert answers(first + (n - 1)) == 0;
    }
  }

  lemma {:induction false} ReleaseGranted(live: set<Handle>, hs: seq<Handle>, n: nat, answers: nat -> int, first: nat)
    requires n <= |hs| && Granted(answers, first, n)
    ensures ReleaseAnswered(live, hs, n, answers, first) == live - HandleSet(hs, n)
  {
    if n == 0 {
    } else {
      ReleaseGranted(live, hs, n - 1, answers, first);
      assert answers(first + (n - 1)) == 0;
      assert HandleSet(hs, n) == HandleSet(hs, n - 1) + {hs[n - 1]};
    }
  }

  /** Unmapping chunks touches nothing that was there before them, and makes nothing up. */
  lemma {:induction false} UnmapKeeps(
      m0: map<nat, Mapping>, m: map<nat, Mapping>, d: nat, sizes: seq<nat>, hs: seq<Handle>, n: nat,
      answers: nat -> int, first: nat)
    requires n <= |sizes| && n <= |hs| && Keeps(m0, m) && m0.Keys !! ChunkMap(d, sizes, hs, n).Keys
    requires Positive(m)
    ensures Keeps(m0, UnmapAnswered(m, d, sizes, n, answers, first))
    ensures Positive(UnmapAnswered(m, d, sizes, n, answers, first))
  {
    if n == 0 {
    } else {
      assert d + Offset(sizes, n - 1) in ChunkMap(d, sizes, hs, n);
      assert ChunkMap(d, sizes, hs, n - 1).Keys <= ChunkMap(d, sizes, hs, n).Keys;
      UnmapKeeps(m0, m, d, sizes, hs, n - 1, answers, first);
    }
  }

  lemma {:induction false} ReleaseKeeps(
      live0: set<Handle>, live: set<Handle>, hs: seq<Handle>, n: nat, answers: nat -> int, first: nat)
    requires n <= |hs| && live0 <= live && live0 !! HandleSet(hs, n)
    ensures live0 <= ReleaseAnswered(live, hs, n, answers, first) <= live
  {
    if n == 0 {
    } else {
      assert HandleSet(hs, n) == HandleSet(hs, n - 1) + {hs[n - 1]};
      ReleaseKeeps(live0, live, hs, n - 1, answers, first);
    }
  }

  lemma {:induction false} RefusedHandleStays(
      live: set<Handle>, hs: seq<Handle>, n: nat, answers: nat -> int, first: nat, j: nat)
    requires j < n <= |hs| && hs[j] in live && answers(first + j) != 0
    requires forall k :: 0 <= k < n && k != j ==> hs[k] != hs[j]
    ensures hs[j] in ReleaseAnswered(live, hs, n, answers, first)
  {
    if j == n - 1 {
      assert answers(first + n - 1) != 0;
      HandleKept(live, hs, j, answers, first, hs[j]);
    } else {
      RefusedHandleStays(live, hs, n - 1, answers, first, j);
    }
  }

  lemma {:induction false} HandleKept(
      live: set<Handle>, hs: seq<Handle>, n: nat, answers: nat -> int, first: nat, h: Handle)
    requires n <= |hs| && h in live && forall k :: 0 <= k < n ==> hs[k] != h
    ensures h in ReleaseAnswered(live, hs, n, answers, first)
  {
    if n == 0 {
    } else {
      HandleKept(live, hs, n - 1, answers, first, h);
    }
  }

  lemma {:induction false} RefusedChunkStays(
      m: map<nat, Mapping>, d: nat, sizes: seq<nat>, n: nat, answers: nat -> int, first: nat, j: nat)
    requires j < n <= |sizes| && Solid(sizes, n) && d + Offset(sizes, j) in m && answers(first + j) != 0
    ensures d + Offset(sizes, j) in UnmapAnswered(m, d, sizes, n, answers, first)
  {
    if j == n - 1 {
      assert answers(first + n - 1) != 0;
      LaterChunkKept(m, d, sizes, j, answers, first, j);
    } else {
      RefusedChunkStays(m, d, sizes, n - 1, answers, first, j);
      OffsetsDiffer(sizes, j, n - 1);
    }
  }

  lemma {:induction false} LaterChunkKept(
      m: map<nat, Mapping>, d: nat, sizes: seq<nat>, n: nat, answers: nat -> int, first: nat, j: nat)
    requires n <= j < |sizes| && Solid(sizes, j) && d + Offset(sizes, j) in m
    ensures d + Offset(sizes, j) in UnmapAnswered(m, d, sizes, n, answers, first)
  {
    if n == 0 {
    } else {
      LaterChunkKept(m, d, sizes, n - 1, answers, first, j);
      OffsetsDiffer(sizes, n - 1, j);
    }
  }

  /** The first `n` handles are new ones, all different, and are what is live beyond `live0`. */
  ghost predicate Holds(live: set<Handle>, hs: seq<Handle>, n: nat, live0: set<Handle>)
    requires n <= |hs|
  {
    && live == live0 + HandleSet(hs, n)
    && live0 !! HandleSet(hs, n)
    && forall i, j :: 0 <= i < j < n ==> hs[i] != hs[j]
  }

  lemma {:induction false} HoldsNext(live: set<Handle>, hs: seq<Handle>, i: nat, live0: set<Handle>, h: Handle)
    requires i < |hs| && Holds(live, hs, i, live0) && h !in live
    ensures Holds(live + {h}, hs[i := h], i + 1, live0)
  {
    HandleSetNext(hs, i, h);
    forall k | 0 <= k < i ensures hs[k] != h { assert hs[k] in HandleSet(hs, i); }
  }

  lemma {:induction false} NothingHeld(live: set<Handle>, hs: seq<Handle>)
    ensures Holds(live, hs, 0, live)
  {
  }

  /** Releasing new handles gives all of them back exactly when the driver takes every one. */
  lemma {:induction false} ReleasedExactly(
      live0: set<Handle>, hs: seq<Handle>, n: nat, answers: nat -> int, first: nat)
    requires n <= |hs| && live0 !! HandleSet(hs, n) && forall i, j :: 0 <= i < j < n ==> hs[i] != hs[j]
    ensures ReleaseAnswered(live0 + HandleSet(hs, n), hs, n, answers, first) == live0 <==> Granted(answers, first, n)
  {
    hide ReleaseAnswered;
    var live := live0 + HandleSet(hs, n);
    if Granted(answers, first, n) {
      ReleaseGranted(live, hs, n, answers, first);
    } else {
      var c :| first <= c < first + n && answers(c) != 0;
      var j := c - first;
      assert hs[j] in HandleSet(hs, n);
      RefusedHandleStays(live, hs, n, answers, first, j);
    }
  }

  /** Unmapping chunks takes all of them away exactly when the driver lets every one go. */
  lemma {:induction false} UnmappedExactly(
      m: map<nat, Mapping>, d: nat, sizes: seq<nat>, hs: seq<Handle>, n: nat, m0: map<nat, Mapping>,
      answers: nat -> int, first: nat)
    requires n <= |sizes| && n <= |hs| && Laid(m, d, sizes, hs, n, m0)
    ensures UnmapAnswered(m, d, sizes, n, answers, first) == m0 <==> Granted(answers, first, n)
  {
    hide UnmapAnswered, ChunkMap;
    if Granted(answers, first, n) {
      UnmapGranted(m, d, sizes, n, answers, first);
      UnmapUndoesMap(m0, d, sizes, hs, n);
    } else {
      var c :| first <= c < first + n && answers(c) != 0;
      var j := c - first;
      ChunkMapAt(d, sizes, hs, n, j);
      RefusedChunkStays(m, d, sizes, n, answers, first, j);
    }
  }

  lemma {:induction false} UnmapAnsweredNext(
      m: map<nat, Mapping>, d: nat, sizes: seq<nat>, j: nat, answers: nat -> int, first: nat)
    requires j < |sizes|
    ensures AllMapped(m, d, sizes, j + 1) && Granted(answers, first, j + 1) <==>
              && AllMapped(m, d, sizes, j) && Granted(answers, first, j)
              && ChunkMapped(UnmapAnswered(m, d, sizes, j, answers, first), d, sizes, j) && answers(first + j) == 0
  {
    hide ChunkMapped, UnmapFirst, UnmapAnswered, Granted;
    GrantedBoth(answers, first, j, 1);
    if Granted(answers, first, j) { UnmapGranted(m, d, sizes, j, answers, first); }
  }

  lemma {:induction false} ReleaseAnsweredNext(
      live: set<Handle>, hs: seq<Handle>, j: nat, answers: nat -> int, first: nat)
    requires j < |hs|
    ensures AllHeld(live, hs, j + 1) && Granted(answers, first, j + 1) <==>
              && AllHeld(live, hs, j) && Granted(answers, first, j)
              && hs[j] in ReleaseAnswered(live, hs, j, answers, first) && answers(first + j) == 0
  {
    hide ReleaseAnswered, Granted;
    GrantedBoth(answers, first, j, 1);
    if Granted(answers, first, j) { ReleaseGranted(live, hs, j, answers, first); }
  }

  // ---------- Which error is reported ----------

  /** The code of a failed request: the driver's answer, or its complaint about the request itself. */
  function FailureCode(answer: int): int { if answer != 0 then answer else INVALID_VALUE }

  /** `code` is what unmapping chunk `j` answers, and all before it could be unmapped. */
  ghost predicate UnmapErrorAt(
      m: map<nat, Mapping>, d: nat, sizes: seq<nat>, answers: nat -> int, first: nat, j: nat, code: int)
    requires j < |sizes|
  {
    && code != 0 && AllMapped(m, d, sizes, j) && Granted(answers, first, j)
    && code == if ChunkMapped(UnmapFirst(m, d, sizes, j), d, sizes, j) then answers(first + j) else INVALID_VALUE
  }

  ghost predicate FirstUnmapError(
      m: map<nat, Mapping>, d: nat, sizes: seq<nat>, n: nat, answers: nat -> int, first: nat, code: int)
    requires n <= |sizes|
  {
    exists j :: 0 <= j < n && UnmapErrorAt(m, d, sizes, answers, first, j, code)
  }

  /** `code` is what releasing handle `j` answers, and all before it could be released. */
  ghost predicate ReleaseErrorAt(
      live: set<Handle>, hs: seq<Handle>, answers: nat -> int, first: nat, j: nat, code: int)
    requires j < |hs|
  {
    && code != 0 && AllHeld(live, hs, j) && Granted(answers, first, j)
    && code == if hs[j] in live - HandleSet(hs, j) then answers(first + j) else INVALID_VALUE
  }

  ghost predicate FirstReleaseError(
      live: set<Handle>, hs: seq<Handle>, n: nat, answers: nat -> int, first: nat, code: int)
    requires n <= |hs|
  {
    exists j :: 0 <= j < n && ReleaseErrorAt(live, hs, answers, first, j, code)
  }

  lemma {:induction false} UnmapErrorFound(
      m: map<nat, Mapping>, d: nat, sizes: seq<nat>, answers: nat -> int, first: nat, j: nat, code: int)
    requires j < |sizes| && code != 0 && AllMapped(m, d, sizes, j) && Granted(answers, first, j)
    requires var now := UnmapAnswered(m, d, sizes, j, answers, first);
             code == if ChunkMapped(now, d, sizes, j) then answers(first + j) else INVALID_VALUE
    ensures UnmapErrorAt(m, d, sizes, answers, first, j, code)
  {
    hide UnmapAnswered, ChunkMapped, AllMapped, Granted;
    UnmapGranted(m, d, sizes, j, answers, first);
  }

  lemma {:induction false} ReleaseErrorFound(
      live: set<Handle>, hs: seq<Handle>, answers: nat -> int, first: nat, j: nat, code: int)
    requires j < |hs| && code != 0 && AllHeld(live, hs, j) && Granted(answers, first, j)
    requires code == if hs[j] in ReleaseAnswered(live, hs, j, answers, first) then answers(first + j) else INVALID_VALUE
    ensures ReleaseErrorAt(live, hs, answers, first, j, code)
  {
    hide ReleaseAnswered, AllHeld, Granted;
    ReleaseGranted(live, hs, j, answers, first);
  }

  // ---------- The device ----------

  class Device {
    var live: set<Handle>
    var mapped: map<nat, Mapping>
    var nextHandle: nat
    var calls: nat
    var cleanups: nat
    var errorCode: int

    /** What the driver answers to its `n`-th request for memory, a mapping or access; 0 is success. */
    const plan: nat -> int

    /** What it answers to its `n`-th request to give something back that is there. */
    const cleanup: nat -> int

    constructor (plan: nat -> int, cleanup: nat -> int)
      ensures live == {} && mapped == map[] && errorCode == 0 && Valid()
      ensures nextHandle == 0 && calls == 0 && cleanups == 0
      ensures this.plan == plan && this.cleanup == cleanup
    {
      this.plan, this.cleanup := plan, cleanup;
      live, mapped, nextHandle, calls, cleanups, errorCode := {}, map[], 0, 0, 0, 0;
    }

    ghost predicate Valid()
      reads this`live, this`mapped, this`nextHandle
    {
      && (forall h <- live :: h < nextHandle)
      && Positive(mapped)
    }

    method MemCreate(size: nat) returns (status: int, h: Handle)
      requires Valid()
      modifies this`live, this`nextHandle, this`calls
      ensures Valid() && calls == old(calls) + 1 && status == plan(old(calls))
      ensures status != 0 ==> live == old(live) && nextHandle == old(nextHandle)
      ensures status == 0 ==> h == old(nextHandle) && live == old(live) + {h} && nextHandle == h + 1
    {
      status, h := plan(calls), nextHandle;
      calls := calls + 1;
      if status == 0 { live, nextHandle := live + {h}, nextHandle + 1; }
    }

    method MemMap(a: nat, size: nat, h: Handle) returns (status: int)
      modifies this`mapped, this`calls
      ensures calls == old(calls) + 1
      ensures status == if plan(old(calls)) == 0 && size > 0 && h in live && FreeIn(old(mapped), a, size) then 0
                        else FailureCode(plan(old(calls)))
      ensures mapped == if status == 0 then old(mapped)[a := Mapping(size, h)] else old(mapped)
    {
      status := plan(calls);
      calls := calls + 1;
      if status == 0 {
        if size == 0 || h !in live || !FreeIn(mapped, a, size) {
          status := INVALID_VALUE;
        } else {
          mapped := mapped[a := Mapping(size, h)];
        }
      }
    }

    method MemSetAccess() returns (status: int)
      modifies this`calls
      ensures calls == old(calls) + 1 && status == plan(old(calls))
    {
      status := plan(calls);
      calls := calls + 1;
    }

    method MemUnmap(a: nat, size: nat) returns (status: int)
      modifies this`mapped, this`cleanups
      ensures cleanups == old(cleanups) + 1
      ensures status == if a in old(mapped) && old(mapped)[a].size == size then cleanup(old(cleanups))
                        else INVALID_VALUE
      ensures mapped == if cleanup(old(cleanups)) == 0 then UnmapOne(old(mapped), a, size) else old(mapped)
    {
      status := INVALID_VALUE;
      if a in mapped && mapped[a].size == size {
        status := cleanup(cleanups);
        if status == 0 { mapped := mapped - {a}; }
      }
      cleanups := cleanups + 1;
    }

    method MemRelease(h: Handle) returns (status: int)
      modifies this`live, this`cleanups
      ensures cleanups == old(cleanups) + 1
      ensures status == if h in old(live) then cleanup(old(cleanups)) else INVALID_VALUE
      ensures live == if cleanup(old(cleanups)) == 0 then old(live) - {h} else old(live)
    {
      status := INVALID_VALUE;
      if h in live {
        status := cleanup(cleanups);
        if status == 0 { live := live - {h}; }
      }
      cleanups := cleanups + 1;
    }

    // ---------- Giving chunks back ----------

    method UnmapChunks(d: nat, sizes: seq<nat>, n: nat) returns (firstError: int)
      requires n <= |sizes|
      modifies this`mapped, this`cleanups
      ensures cleanups == old(cleanups) + n
      ensures mapped == UnmapAnswered(old(mapped), d, sizes, n, cleanup, old(cleanups))
      ensures firstError == 0 <==> AllMapped(old(mapped), d, sizes, n) && Granted(cleanup, old(cleanups), n)
      ensures firstError != 0 ==> FirstUnmapError(old(mapped), d, sizes, n, cleanup, old(cleanups), firstError)
    {
      firstError := 0;
      var offset := 0;
      for j := 0 to n
        invariant offset == Offset(sizes, j) && cleanups == old(cleanups) + j
        invariant mapped == UnmapAnswered(old(mapped), d, sizes, j, cleanup, old(cleanups))
        invariant firstError == 0 <==> AllMapped(old(mapped), d, sizes, j) && Granted(cleanup, old(cleanups), j)
        invariant firstError != 0 ==> FirstUnmapError(old(mapped), d, sizes, j, cleanup, old(cleanups), firstError)
      {
        hide AllMapped, Granted, UnmapErrorAt;
        UnmapAnsweredNext(old(mapped), d, sizes, j, cleanup, old(cleanups));
        var status := MemUnmap(d + offset, sizes[j]);
        if status != 0 && firstError == 0 {
          firstError := status;
          UnmapErrorFound(old(mapped), d, sizes, cleanup, old(cleanups), j, status);
        }
        offset := offset + sizes[j];
      }
    }

    method ReleaseHandles(hs: array<Handle>, n: nat) returns (firstError: int)
      requires n <= hs.Length
      modifies this`live, this`cleanups
      ensures cleanups == old(cleanups) + n
      ensures live == ReleaseAnswered(old(live), hs[..], n, cleanup, old(cleanups))
      ensures firstError == 0 <==> AllHeld(old(live), hs[..], n) && Granted(cleanup, old(cleanups), n)
      ensures firstError != 0 ==> FirstReleaseError(old(live), hs[..], n, cleanup, old(cleanups), firstError)
    {
      firstError := 0;
      for j := 0 to n
        invariant cleanups == old(cleanups) + j
        invariant live == ReleaseAnswered(old(live), hs[..], j, cleanup, old(cleanups))
        invariant firstError == 0 <==> AllHeld(old(live), hs[..], j) && Granted(cleanup, old(cleanups), j)
        invariant firstError != 0 ==> FirstReleaseError(old(live), hs[..], j, cleanup, old(cleanups), firstError)
      {
        hide AllHeld, Granted, ReleaseErrorAt;
        ReleaseAnsweredNext(old(live), hs[..], j, cleanup, old(cleanups));
        var status := MemRelease(hs[j]);
        if status != 0 && firstError == 0 {
          firstError := status;
          ReleaseErrorFound(old(live), hs[..], cleanup, old(cleanups), j, status);
        }
      }
    }

    // ---------- Creating and mapping ----------

    /** Every chunk is backed by a handle of its own and mapped in its place, on top of
        `live0` and `mapped0`. */
    ghost predicate Awake(d: nat, hs: array<Handle>, sizes: seq<nat>, live0: set<Handle>, mapped0: map<nat, Mapping>)
      requires hs.Length == |sizes|
      reads this`live, this`mapped, hs
    {
      && Holds(live, hs[..], |sizes|, live0)
      && Laid(mapped, d, sizes, hs[..], |sizes|, mapped0)
    }

    /** What a failed allocation leaves on top of `live0` and `mapped0`, when its first request was
        number `first` and the first thing it gave back number `undone`. If all was created and
        mapped, access was refused and everything is still there. Otherwise it gave back as many
        things as it had got, and nothing is left exactly when the driver took all of them. */
    ghost predicate GaveUp(first: nat, undone: nat, d: nat, hs: array<Handle>, sizes: seq<nat>,
                           live0: set<Handle>, mapped0: map<nat, Mapping>)
      requires hs.Length == |sizes|
      reads this`live, this`mapped, this`calls, this`cleanups, hs
    {
      && first < calls
      && var k := calls - first - 1;
         && FailsAt(plan, first, mapped0, d, sizes, k)
         && if Granted(plan, first, 2 * |sizes|) && Fits(mapped0, d, sizes, |sizes|) then
              k == 2 * |sizes| && cleanups == undone && Awake(d, hs, sizes, live0, mapped0)
            else
              && k < 2 * |sizes| && cleanups == undone + k
              && live0 <= live && Keeps(mapped0, mapped)
              && (live == live0 && mapped == mapped0 <==> Granted(cleanup, undone, k))
    }

    /** Releases the first `i` handles after a refusal. With a stale error code none has been kept,
        but one more may be live. */
    method GiveUpHandles(hs: array<Handle>, i: nat, ghost live0: set<Handle>, ghost stale: bool)
      requires Valid() && i <= hs.Length && (stale ==> i == 0) && (!stale ==> Holds(live, hs[..], i, live0))
      modifies this`live, this`cleanups
      ensures Valid() && cleanups == old(cleanups) + i
      ensures stale ==> live == old(live)
      ensures !stale ==> live0 <= live && (live == live0 <==> Granted(cleanup, old(cleanups), i))
    {
      if !stale {
        ReleaseKeeps(live0, live, hs[..], i, cleanup, cleanups);
        ReleasedExactly(live0, hs[..], i, cleanup, cleanups);
      }
      var _ := ReleaseHandles(hs, i);
    }

    /** Creates one handle per chunk. Entered with a clear error code it creates all or, if those
        created can be released, none; entered with a stale one it gives up after the first,
        without giving that one back. */
    method CreateHandles(hs: array<Handle>, sizes: seq<nat>)
      requires Valid() && hs.Length == |sizes|
      modifies this`live, this`nextHandle, this`calls, this`cleanups, this`errorCode, hs
      ensures Valid() && old(calls) <= calls <= old(calls) + |sizes| && old(cleanups) <= cleanups
      ensures old(errorCode) == 0 && errorCode == 0 ==>
                calls == old(calls) + |sizes| && cleanups == old(cleanups) && Holds(live, hs[..], |sizes|, old(live))
      ensures old(errorCode) == 0 && errorCode != 0 ==>
                && old(calls) < calls && old(live) <= live
                && var k := calls - old(calls) - 1;
                   && Granted(plan, old(calls), k) && errorCode == plan(old(calls) + k)
                   && cleanups == old(cleanups) + k
                   && (live == old(live) <==> Granted(cleanup, old(cleanups), k))
      ensures old(errorCode) == 0 ==> (errorCode == 0 <==> Granted(plan, old(calls), |sizes|))
      ensures old(errorCode) != 0 ==>
                && errorCode != 0
                && live == old(live) + if sizes != [] && plan(old(calls)) == 0 then {old(nextHandle)} else {}
    {
      hide Granted, Holds;
      NothingHeld(live, hs[..]);
      GrantedNone(plan, calls, |sizes|);
      for i := 0 to |sizes|
        invariant Valid() && nextHandle >= old(nextHandle) && calls == old(calls) + i && cleanups == old(cleanups)
        invariant i == 0 ==> live == old(live) && nextHandle == old(nextHandle)
        invariant errorCode == old(errorCode) && (i > 0 ==> errorCode == 0)
        invariant Granted(plan, old(calls), i)
        invariant Holds(live, hs[..], i, old(live))
      {
        GrantedBoth(plan, old(calls), i, 1);
        GrantedBoth(plan, old(calls), i + 1, |sizes| - i - 1);
        ghost var held := hs[..];
        HoldsNext(live, held, i, old(live), nextHandle);
        var status, h := MemCreate(sizes[i]);
        if status != 0 { errorCode := status; } else { hs[i] := h; }
        if errorCode != 0 {
          GiveUpHandles(hs, i, old(live), old(errorCode) != 0);
          return;
        }
        assert hs[..] == held[i := h];
      }
    }

    /** Takes back the first `i` chunks after a refusal, and every handle. */
    method GiveUpMapping(d: nat, hs: array<Handle>, sizes: seq<nat>, i: nat,
                         ghost live0: set<Handle>, ghost mapped0: map<nat, Mapping>)
      requires hs.Length == |sizes| && i <= |sizes|
      requires Holds(live, hs[..], |sizes|, live0) && Laid(mapped, d, sizes, hs[..], i, mapped0)
      requires Valid() && Positive(mapped0)
      modifies this`live, this`mapped, this`cleanups
      ensures Valid() && cleanups == old(cleanups) + i + |sizes|
      ensures live0 <= live && Keeps(mapped0, mapped)
      ensures live == live0 && mapped == mapped0 <==> Granted(cleanup, old(cleanups), i + |sizes|)
    {
      hide ChunkMap, Granted, UnmapAnswered, ReleaseAnswered;
      GrantedBoth(cleanup, cleanups, i, |sizes|);
      UnmappedExactly(mapped, d, sizes, hs[..], i, mapped0, cleanup, cleanups);
      UnmapKeeps(mapped0, mapped, d, sizes, hs[..], i, cleanup, cleanups);
      var _ := UnmapChunks(d, sizes, i);
      ReleaseKeeps(live0, live, hs[..], |sizes|, cleanup, cleanups);
      ReleasedExactly(live0, hs[..], |sizes|, cleanup, cleanups);
      var _ := ReleaseHandles(hs, |sizes|);
    }

    /** Maps chunk `i` on top of those before it. */
    method MapChunk(d: nat, hs: array<Handle>, sizes: seq<nat>, i: nat, offset: nat,
                    ghost live0: set<Handle>, ghost mapped0: map<nat, Mapping>)
      returns (status: int)
      requires Valid() && i < |sizes| == hs.Length && offset == Offset(sizes, i)
      requires Holds(live, hs[..], |sizes|, live0) && Laid(mapped, d, sizes, hs[..], i, mapped0) && Positive(mapped0)
      modifies this`mapped, this`calls
      ensures Valid() && calls == old(calls) + 1
      ensures status == 0 ==> plan(old(calls)) == 0 && Laid(mapped, d, sizes, hs[..], i + 1, mapped0)
      ensures status == 0 && Fits(mapped0, d, sizes, i) ==> Fits(mapped0, d, sizes, i + 1)
      ensures status != 0 ==> mapped == old(mapped)
      ensures status == if plan(old(calls)) == 0 && ChunkFits(mapped0, d, sizes, i) then 0
                        else FailureCode(plan(old(calls)))
    {
      hide Laid, FreeIn, Fits, Positive;
      assert hs[..][i] in HandleSet(hs[..], |sizes|);
      MapNext(mapped, d, sizes, hs[..], i, mapped0);
      if sizes[i] > 0 { PositiveNext(mapped, d + offset, Mapping(sizes[i], hs[i])); }
      status := MemMap(d + offset, sizes[i], hs[i]);
    }

    /** Maps the chunks end to end from `d`. When one is refused, those already mapped are
        unmapped and every handle is released. */
    method MapChunks(d: nat, hs: array<Handle>, sizes: seq<nat>, ghost live0: set<Handle>)
      requires Valid() && hs.Length == |sizes| && Holds(live, hs[..], |sizes|, live0) && errorCode == 0
      modifies this`live, this`mapped, this`calls, this`cleanups, this`errorCode
      ensures Valid() && old(calls) <= calls <= old(calls) + |sizes| && old(cleanups) <= cleanups
      ensures errorCode == 0 ==>
                && calls == old(calls) + |sizes| && cleanups == old(cleanups)
                && Awake(d, hs, sizes, live0, old(mapped))
      ensures errorCode != 0 ==>
                && old(calls) < calls && live0 <= live && Keeps(old(mapped), mapped)
                && var k := calls - old(calls) - 1;
                   && Granted(plan, old(calls), k) && Fits(old(mapped), d, sizes, k)
                   && !(plan(old(calls) + k) == 0 && ChunkFits(old(mapped), d, sizes, k))
                   && errorCode == FailureCode(plan(old(calls) + k))
                   && cleanups == old(cleanups) + k + |sizes|
                   && (live == live0 && mapped == old(mapped) <==> Granted(cleanup, old(cleanups), k + |sizes|))
      ensures errorCode == 0 <==> Granted(plan, old(calls), |sizes|) && Fits(old(mapped), d, sizes, |sizes|)
    {
      hide Laid, Fits, ChunkFits, Granted, Positive;
      NothingLaid(mapped, d, sizes, hs[..]);
      GrantedNone(plan, calls, |sizes|);
      var offset := 0;
      for i := 0 to |sizes|
        invariant offset == Offset(sizes, i) && calls == old(calls) + i && errorCode == 0 && cleanups == old(cleanups)
        invariant live == old(live) && Valid() && Holds(live, hs[..], |sizes|, live0)
        invariant Laid(mapped, d, sizes, hs[..], i, old(mapped))
        invariant Granted(plan, old(calls), i) && Fits(old(mapped), d, sizes, i)
      {
        GrantedBoth(plan, old(calls), i, 1);
        GrantedBoth(plan, old(calls), i + 1, |sizes| - i - 1);
        FitsNext(old(mapped), d, sizes, i);
        var status := MapChunk(d, hs, sizes, i, offset, live0, old(mapped));
        if status != 0 { errorCode := status; }
        if errorCode != 0 {
          GiveUpMapping(d, hs, sizes, i, live0, old(mapped));
          return;
        }
        offset := offset + sizes[i];
      }
    }

    /** Succeeds exactly when every request is granted and there is room, and otherwise leaves what
        `GaveUp` says: all of it when only the last request, for access, is refused, and else none
        exactly when the driver takes back what it gave. Entered with a stale error code, it gives
        up after the first handle, without giving that one back. */
    method CreateAndMap(d: nat, hs: array<Handle>, sizes: seq<nat>)
      requires Valid() && hs.Length == |sizes|
      modifies this, hs
      ensures Valid() && old(cleanups) <= cleanups
      ensures old(errorCode) == 0 ==>
                (errorCode == 0 <==> Granted(plan, old(calls), 2 * |sizes| + 1) && Fits(old(mapped), d, sizes, |sizes|))
      ensures old(errorCode) == 0 && errorCode == 0 ==>
                && calls == old(calls) + 2 * |sizes| + 1 && cleanups == old(cleanups)
                && Awake(d, hs, sizes, old(live), old(mapped))
      ensures old(errorCode) == 0 && errorCode != 0 ==>
                && GaveUp(old(calls), old(cleanups), d, hs, sizes, old(live), old(mapped))
                && old(calls) < calls && errorCode == FailureCode(plan(calls - 1))
      ensures old(errorCode) == 0 && Granted(plan, old(calls), 2 * |sizes|) && Fits(old(mapped), d, sizes, |sizes|) ==>
                errorCode == plan(old(calls) + 2 * |sizes|)
      ensures old(errorCode) != 0 && sizes != [] ==>
                && errorCode != 0 && mapped == old(mapped)
                && live == old(live) + if plan(old(calls)) == 0 then {old(nextHandle)} else {}
    {
      hide Granted, Awake, Fits, Keeps, FailsAt;
      ghost var n := |sizes|;
      KeepsSame(mapped);
      GrantedBoth(plan, calls, n, n);
      GrantedBoth(plan, calls, 2 * n, 1);
      CreateHandles(hs, sizes);
      if errorCode != 0 && sizes != [] {
        if old(errorCode) == 0 { FailsCreating(plan, old(calls), mapped, d, sizes, calls - old(calls) - 1); }
        return;
      }
      if errorCode == 0 {
        MapChunks(d, hs, sizes, old(live));
        if errorCode != 0 {
          FailsMapping(plan, old(calls), old(mapped), d, sizes, calls - old(calls) - n - 1);
          return;
        }
      }
      var status := MemSetAccess();
      if status != 0 {
        errorCode := status;
        if old(errorCode) == 0 { FailsAccess(plan, old(calls), old(mapped), d, sizes); }
      }
    }

    // ---------- Unmapping and releasing ----------

    /** Everything that is there is given back, as far as the driver lets it; the first thing missing
        or refused is reported at the end. */
    method UnmapAndRelease(d: nat, hs: array<Handle>, sizes: seq<nat>,
                           ghost live0: set<Handle>, ghost mapped0: map<nat, Mapping>)
      requires hs.Length == |sizes|
      modifies this`live, this`mapped, this`cleanups, this`errorCode
      ensures cleanups == old(cleanups) + 2 * |sizes|
      ensures mapped == UnmapAnswered(old(mapped), d, sizes, |sizes|, cleanup, old(cleanups))
      ensures live == ReleaseAnswered(old(live), hs[..], |sizes|, cleanup, old(cleanups) + |sizes|)
      ensures old(Valid()) && old(Awake(d, hs, sizes, live0, mapped0)) ==>
                Valid() && live0 <= live && Keeps(mapped0, mapped)
      ensures old(Awake(d, hs, sizes, live0, mapped0)) ==>
                (live == live0 && mapped == mapped0 <==> Granted(cleanup, old(cleanups), 2 * |sizes|))
      ensures old(errorCode) == 0 ==>
                (errorCode == 0 <==>
                  && AllMapped(old(mapped), d, sizes, |sizes|) && AllHeld(old(live), hs[..], |sizes|)
                  && Granted(cleanup, old(cleanups), 2 * |sizes|))
      ensures old(errorCode) == 0 && errorCode != 0 ==>
                || FirstUnmapError(old(mapped), d, sizes, |sizes|, cleanup, old(cleanups), errorCode)
                || (&& AllMapped(old(mapped), d, sizes, |sizes|) && Granted(cleanup, old(cleanups), |sizes|)
                    && FirstReleaseError(old(live), hs[..], |sizes|, cleanup, old(cleanups) + |sizes|, errorCode))
      ensures old(errorCode) == 0 && old(Awake(d, hs, sizes, live0, mapped0)) ==>
                (errorCode == 0 <==> Granted(cleanup, old(cleanups), 2 * |sizes|))
    {
      hide Granted, UnmapAnswered, ReleaseAnswered, UnmapFirst, AllMapped, AllHeld, Keeps, Awake, HandleSet, Positive;
      ghost var n := |sizes|;
      GrantedBoth(cleanup, cleanups, n, n);
      if Valid() && Awake(d, hs, sizes, live0, mapped0) {
        AwakeKeeps(d, hs, sizes, live0, mapped0);
      }
      if Awake(d, hs, sizes, live0, mapped0) {
        AwakeIsThere(d, hs, sizes, live0, mapped0);
        GivenBackExactly(d, hs, sizes, live0, mapped0);
      }
      var firstError := UnmapChunks(d, sizes, |sizes|);
      var releaseError := ReleaseHandles(hs, |sizes|);
      if firstError == 0 { firstError := releaseError; }
      if firstError != 0 { errorCode := firstError; }
    }

    lemma {:induction false} AwakeKeeps(
        d: nat, hs: array<Handle>, sizes: seq<nat>, live0: set<Handle>, mapped0: map<nat, Mapping>)
      requires Valid() && hs.Length == |sizes| && Awake(d, hs, sizes, live0, mapped0)
      ensures var m := UnmapAnswered(mapped, d, sizes, |sizes|, cleanup, cleanups);
              Keeps(mapped0, m) && Positive(m)
      ensures live0 <= ReleaseAnswered(live, hs[..], |sizes|, cleanup, cleanups + |sizes|) <= live
    {
      UnmapKeeps(mapped0, mapped, d, sizes, hs[..], |sizes|, cleanup, cleanups);
      ReleaseKeeps(live0, live, hs[..], |sizes|, cleanup, cleanups + |sizes|);
    }

    lemma {:induction false} AwakeIsThere(
        d: nat, hs: array<Handle>, sizes: seq<nat>, live0: set<Handle>, mapped0: map<nat, Mapping>)
      requires hs.Length == |sizes| && Awake(d, hs, sizes, live0, mapped0)
      ensures AllMapped(mapped, d, sizes, |sizes|) && AllHeld(live, hs[..], |sizes|)
    {
      forall i | 0 <= i < |sizes| ensures ChunkMapped(UnmapFirst(mapped, d, sizes, i), d, sizes, i) {
        UnmapFindsNext(mapped0, d, sizes, hs[..], i);
      }
    }

    lemma {:induction false} GivenBackExactly(
        d: nat, hs: array<Handle>, sizes: seq<nat>, live0: set<Handle>, mapped0: map<nat, Mapping>)
      requires hs.Length == |sizes| && Awake(d, hs, sizes, live0, mapped0)
      ensures UnmapAnswered(mapped, d, sizes, |sizes|, cleanup, cleanups) == mapped0 <==>
                Granted(cleanup, cleanups, |sizes|)
      ensures ReleaseAnswered(live, hs[..], |sizes|, cleanup, cleanups + |sizes|) == live0 <==>
                Granted(cleanup, cleanups + |sizes|, |sizes|)
    {
      hide UnmapAnswered, ReleaseAnswered, Granted, Laid;
      UnmappedExactly(mapped, d, sizes, hs[..], |sizes|, mapped0, cleanup, cleanups);
      ReleasedExactly(live0, hs[..], |sizes|, cleanup, cleanups + |sizes|);
    }

    // ---------- Sleep and wake ----------

    /** What a cycle that did not succeed leaves, when its counters stood at `first` and `undone`
        before. If something could not be given back on going to sleep, it is still there and waking
        was not attempted; otherwise waking failed. */
    ghost predicate Stopped(first: nat, undone: nat, d: nat, hs: array<Handle>, sizes: seq<nat>,
                            live0: set<Handle>, mapped0: map<nat, Mapping>)
      requires hs.Length == |sizes|
      reads this`live, this`mapped, this`calls, this`cleanups, hs
    {
      if Granted(cleanup, undone, 2 * |sizes|) then
        GaveUp(first, undone + 2 * |sizes|, d, hs, sizes, live0, mapped0)
      else
        && calls == first && cleanups == undone + 2 * |sizes|
        && live0 <= live && Keeps(mapped0, mapped) && !(live == live0 && mapped == mapped0)
    }

    /** Sleeps and, if nothing was refused, wakes; either call's error is read and cleared. */
    method Cycle(d: nat, hs: array<Handle>, sizes: seq<nat>, ghost live0: set<Handle>, ghost mapped0: map<nat, Mapping>)
      returns (ok: bool)
      requires Valid() && errorCode == 0 && hs.Length == |sizes|
      requires Awake(d, hs, sizes, live0, mapped0)
      modifies this, hs
      ensures Valid() && errorCode == 0
      ensures ok <==> && Granted(cleanup, old(cleanups), 2 * |sizes|) && Granted(plan, old(calls), 2 * |sizes| + 1)
                      && Fits(mapped0, d, sizes, |sizes|)
      ensures ok ==>
                && calls == old(calls) + 2 * |sizes| + 1 && cleanups == old(cleanups) + 2 * |sizes|
                && Awake(d, hs, sizes, live0, mapped0)
      ensures !ok ==> Stopped(old(calls), old(cleanups), d, hs, sizes, live0, mapped0)
    {
      hide Awake, Fits, AllMapped, AllHeld, Granted, UnmapAnswered, ReleaseAnswered, Keeps, GaveUp;
      UnmapAndRelease(d, hs, sizes, live0, mapped0);
      if errorCode != 0 {
        errorCode := 0;
        return false;
      }
      CreateAndMap(d, hs, sizes);
      ok := errorCode == 0;
      errorCode := 0;
    }

    /** Cycle `i` is the one that stopped, after `i` that went well. */
    ghost predicate StoppedIn(i: nat, first: nat, undone: nat, d: nat, hs: array<Handle>, sizes: seq<nat>,
                              live0: set<Handle>, mapped0: map<nat, Mapping>)
      requires hs.Length == |sizes|
      reads this`live, this`mapped, this`calls, this`cleanups, hs
    {
      var n := 2 * |sizes|;
      && Granted(plan, first, Requests(i, n + 1)) && Granted(cleanup, undone, Requests(i, n))
      && Stopped(first + Requests(i, n + 1), undone + Requests(i, n), d, hs, sizes, live0, mapped0)
    }

    /** `cycles` times to sleep and awake again, up to the first error, which is met exactly when
        the driver refuses a request or the chunks have no room. Without one the allocation is back
        in place as it was; `Stopped` says what the failing cycle leaves. */
    method SleepWake(d: nat, hs: array<Handle>, sizes: seq<nat>, cycles: nat,
                     ghost live0: set<Handle>, ghost mapped0: map<nat, Mapping>)
      returns (ok: bool)
      requires Valid() && errorCode == 0 && hs.Length == |sizes|
      requires Awake(d, hs, sizes, live0, mapped0)
      modifies this, hs
      ensures Valid() && errorCode == 0
      ensures ok <==> && Granted(plan, old(calls), Requests(cycles, 2 * |sizes| + 1))
                      && Granted(cleanup, old(cleanups), Requests(cycles, 2 * |sizes|))
                      && (cycles > 0 ==> Fits(mapped0, d, sizes, |sizes|))
      ensures ok ==>
                && calls == old(calls) + Requests(cycles, 2 * |sizes| + 1)
                && cleanups == old(cleanups) + Requests(cycles, 2 * |sizes|)
                && Awake(d, hs, sizes, live0, mapped0)
      ensures !ok ==>
                exists i :: 0 <= i < cycles && StoppedIn(i, old(calls), old(cleanups), d, hs, sizes, live0, mapped0)
    {
      hide *;
      ghost var n := 2 * |sizes|;
      GrantedNone(plan, calls, n + 1);
      GrantedNone(cleanup, cleanups, n);
      for i := 0 to cycles
        invariant Valid() && errorCode == 0 && Awake(d, hs, sizes, live0, mapped0)
        invariant calls == old(calls) + Requests(i, n + 1) && cleanups == old(cleanups) + Requests(i, n)
        invariant Granted(plan, old(calls), Requests(i, n + 1)) && Granted(cleanup, old(cleanups), Requests(i, n))
        invariant i > 0 ==> Fits(mapped0, d, sizes, |sizes|)
      {
        GrantedCycle(plan, old(calls), i, cycles, n + 1);
        GrantedCycle(cleanup, old(cleanups), i, cycles, n);
        ok := Cycle(d, hs, sizes, live0, mapped0);
        if !ok {
          StopsIn(i, old(calls), old(cleanups), d, hs, sizes, live0, mapped0);
          return;
        }
      }
      ok := true;
    }

    lemma {:induction false} StopsIn(i: nat, first: nat, undone: nat, d: nat, hs: array<Handle>, sizes: seq<nat>,
                                     live0: set<Handle>, mapped0: map<nat, Mapping>)
      requires hs.Length == |sizes|
      requires Granted(plan, first, Requests(i, 2 * |sizes| + 1)) && Granted(cleanup, undone, Requests(i, 2 * |sizes|))
      requires Stopped(first + Requests(i, 2 * |sizes| + 1), undone + Requests(i, 2 * |sizes|),
                       d, hs, sizes, live0, mapped0)
      ensures StoppedIn(i, first, undone, d, hs, sizes, live0, mapped0)
    {
      hide Stopped, Granted, Requests;
    }
  }

  // ---------- The two ways to leave something behind ----------

  /** A driver that refuses its first request and grants all others. An allocation fails and leaves
      nothing; since nobody clears the error code, the next one creates a handle, takes the old
      error for its own and keeps the handle. */
  method StaleErrorKeepsHandle() returns (device: Device, h: Handle)
    ensures device.errorCode != 0 && device.mapped == map[]
    ensures device.live == {h}
  {
    device := new Device(c => if c == 0 then INVALID_VALUE else 0, _ => 0);
    var hs := new Handle[1];
    device.CreateAndMap(0, hs, [1]);
    FirstRefused(device.plan, [1]);
    h := device.nextHandle;
    device.CreateAndMap(0, hs, [1]);
  }

  lemma {:induction false} FirstRefused(plan: nat -> int, sizes: seq<nat>)
    requires plan(0) != 0 && sizes != []
    ensures !Granted(plan, 0, 2 * |sizes|) && !Granted(plan, 0, 2 * |sizes| + 1)
    ensures forall m, k :: FailsAt(plan, 0, m, 0, sizes, k) ==> k == 0
  {
    assert forall k: nat :: k > 0 ==> !Granted(plan, 0, k);
    hide Granted;
  }

  /** A driver that refuses the third request, for access to the one chunk created and mapped: the
      error is reported, and the chunk is left. */
  method RefusedAccessKeepsChunk() returns (device: Device, h: Handle)
    ensures device.errorCode != 0
    ensures device.live == {h} && device.mapped == map[0 := Mapping(1, h)]
  {
    device := new Device(c => if c == 2 then INVALID_VALUE else 0, _ => 0);
    var hs := new Handle[1];
    device.CreateAndMap(0, hs, [1]);
    h := hs[0];
    assert Fits(map[], 0, [1], 1);
    assert hs[..] == [h];
    assert ChunkMap(0, [1], [h], 1) == map[0 := Mapping(1, h)];
    assert HandleSet([h], 1) == {h};
  }
}
