/**
  The chunk arithmetic of `my_malloc` in `csrc/cumem_allocator.cpp` (ROCm path): a request is
  rounded up to the allocation granularity and cut into chunks, in 64-bit unsigned arithmetic.
 */
module ChunkTiling {
  import opened Common

  const U64: nat := 0x1_0000_0000_0000_0000

  const MB: nat := 1024 * 1024

  const DEFAULT_CHUNK: nat := 256 * MB

  function Wrap(x: int): nat { x % U64 }

  /** The configured chunk size; `val` is the parsed environment value, if it parses. */
  function BaseChunk(val: Option<nat>): (bytes: nat)
    ensures 0 < bytes < U64 && bytes % MB == 0
  {
    if val.None? || val.value == 0 || val.value > (U64 - 1) / MB then DEFAULT_CHUNK else val.value * MB
  }

  /** A value in megabytes is honoured exactly when it is positive and its bytes fit 64 bits; otherwise
      the chunk is 256 megabytes. */
  lemma {:induction false} ChunkIsAsConfigured(val: Option<nat>)
    ensures BaseChunk(val) ==
              if val.Some? && 0 < val.value * 1048576 < 0x1_0000_0000_0000_0000 then val.value * 1048576
              else 268435456
  {
  }

  function AlignUp(x: nat, granularity: nat): nat
    requires granularity > 0
  {
    var q: nat := Wrap(x + granularity - 1) / granularity;
    ProductIsNat(q, granularity);
    q * granularity
  }

  function NumChunks(size: nat, chunk: nat): nat
    requires chunk > 0
  {
    Wrap(size + chunk - 1) / chunk
  }

  function ChunkSize(size: nat, chunk: nat, i: nat): nat {
    MinInt(Wrap(size - i * chunk), chunk)
  }

  function ChunkSizes(size: nat, chunk: nat, n: nat): seq<nat> {
    if n == 0 then [] else ChunkSizes(size, chunk, n - 1) + [ChunkSize(size, chunk, n - 1)]
  }

  function Total(s: seq<nat>): nat {
    if s == [] then 0 else Total(s[..|s| - 1]) + s[|s| - 1]
  }

  // ---------- Division ----------

  lemma {:induction false} ProductIsNat(q: nat, d: nat)
    ensures q * d >= 0
  {
  }

  lemma {:induction false} DivBounds(x: nat, d: nat)
    requires d > 0
    ensures x / d * d <= x < x / d * d + d
  {
  }

  lemma {:induction false} MultipleOf(q: nat, d: nat)
    requires d > 0
    ensures q * d % d == 0 && q * d / d == q
  {
    DivBounds(q * d, d);
    var r := q * d / d;
    assert q * d == r * d + q * d % d;
    if r < q { Ordered(r + 1, q, d); }
  }

  lemma {:induction false} Ordered(a: nat, b: nat, d: nat)
    requires a <= b
    ensures a * d <= b * d
  {
  }

  /** A difference of multiples is a multiple. */
  lemma {:induction false} DifferenceOfMultiples(a: nat, b: nat, g: nat)
    requires g > 0 && a % g == 0 && b % g == 0 && b <= a
    ensures (a - b) % g == 0
  {
    var p, q := a / g, b / g;
    assert a == p * g && b == q * g;
    assert p >= q by { if p < q { Ordered(p + 1, q, g); } }
    assert a - b == (p - q) * g;
    MultipleOf(p - q, g);
  }

  lemma {:induction false} ProductOfMultiple(n: nat, d: nat, g: nat)
    requires g > 0 && d % g == 0
    ensures n * d % g == 0
  {
    var q := d / g;
    assert d == q * g;
    assert n * d == (n * q) * g;
    ProductIsNat(n, q);
    MultipleOf(n * q, g);
  }

  // ---------- Alignment ----------

  /** Rounding up reaches the request exactly when the sum does not wrap; it yields nothing exactly
      when there is nothing to round or the sum wraps. */
  lemma {:induction false} AlignUpExactly(x: nat, g: nat)
    requires x < U64 && 0 < g < U64
    ensures AlignUp(x, g) % g == 0
    ensures AlignUp(x, g) >= x <==> x + g - 1 < U64
    ensures x + g - 1 < U64 ==> x <= AlignUp(x, g) < x + g
    ensures AlignUp(x, g) == 0 <==> x == 0 || x + g - 1 >= U64
  {
    AlignUpBelow(x, g);
    WrapsOnce(x + g - 1);
    hide AlignUp, Wrap;
  }

  /** What is rounded is the last multiple up to the sum. */
  lemma {:induction false} AlignUpBelow(x: nat, g: nat)
    requires g > 0
    ensures var w, r := Wrap(x + g - 1), AlignUp(x, g);
            r % g == 0 && r <= w < r + g && (w < g ==> r == 0)
  {
    hide Wrap;
    var w := Wrap(x + g - 1);
    DivBounds(w, g);
    MultipleOf(w / g, g);
    if w < g { SmallQuotient(w, g); }
  }

  lemma {:induction false} WrapsOnce(x: nat)
    requires x < 2 * U64
    ensures Wrap(x) == if x < U64 then x else x - U64
  {
  }

  lemma {:induction false} SmallQuotient(w: nat, g: nat)
    requires w < g
    ensures w / g == 0
  {
  }

  lemma {:induction false} AlignUpBounded(x: nat, g: nat)
    requires g > 0
    ensures AlignUp(x, g) < U64
  {
    DivBounds(Wrap(x + g - 1), g);
  }

  // ---------- Tiling ----------

  lemma {:induction false} SizesAt(size: nat, chunk: nat, n: nat, i: nat)
    requires i < n
    ensures |ChunkSizes(size, chunk, n)| == n && ChunkSizes(size, chunk, n)[i] == ChunkSize(size, chunk, i)
  {
    SizesLength(size, chunk, n - 1);
    if i == n - 1 {
    } else {
      SizesAt(size, chunk, n - 1, i);
    }
  }

  lemma {:induction false} SizesLength(size: nat, chunk: nat, n: nat)
    ensures |ChunkSizes(size, chunk, n)| == n
  {
    if n == 0 {
    } else {
      SizesLength(size, chunk, n - 1);
    }
  }

  lemma {:induction false} OneMore(n: nat, d: nat)
    ensures (n + 1) * d == n * d + d
  {
  }

  /** As long as whole chunks fit, the sizes add up to whole chunks. */
  lemma {:induction false} WholeChunks(size: nat, chunk: nat, n: nat)
    requires size < U64 && chunk > 0 && n * chunk <= size
    ensures Total(ChunkSizes(size, chunk, n)) == n * chunk
  {
    hide Wrap, ChunkSize;
    if n == 0 {
    } else {
      OneMore(n - 1, chunk);
      FullChunk(size, chunk, n, n - 1);
      WholeChunks(size, chunk, n - 1);
      var s := ChunkSizes(size, chunk, n);
      assert s[..|s| - 1] == ChunkSizes(size, chunk, n - 1);
    }
  }

  lemma {:induction false} FullChunk(size: nat, chunk: nat, n: nat, i: nat)
    requires size < U64 && chunk > 0 && n * chunk <= size && i < n
    ensures ChunkSize(size, chunk, i) == chunk
  {
    Ordered(i + 1, n, chunk);
    OneMore(i, chunk);
    ProductIsNat(i, chunk);
    var rest := size - i * chunk;
    assert chunk <= rest < U64;
    assert Wrap(rest) == rest;
  }

  /** How many chunks there are, when nothing wraps: the last one starts inside and reaches the end. */
  lemma {:induction false} CountBounds(size: nat, chunk: nat)
    requires 0 < size && chunk > 0 && size + chunk - 1 < U64
    ensures var n := NumChunks(size, chunk); n > 0 && (n - 1) * chunk < size <= n * chunk
  {
    var n := NumChunks(size, chunk);
    assert Wrap(size + chunk - 1) == size + chunk - 1;
    DivBounds(size + chunk - 1, chunk);
    if n == 0 { assert false; }
    OneMore(n - 1, chunk);
  }

  lemma {:induction false} LastChunk(size: nat, chunk: nat, m: nat)
    requires size < U64 && chunk > 0 && m * chunk < size <= (m + 1) * chunk
    ensures ChunkSize(size, chunk, m) == size - m * chunk
    ensures 0 < size - m * chunk <= chunk
  {
    OneMore(m, chunk);
    assert Wrap(size - m * chunk) == size - m * chunk;
  }

  /** Whole chunks, then one that ends the size exactly. */
  lemma {:induction false} SumToSize(size: nat, chunk: nat, m: nat)
    requires size < U64 && chunk > 0 && m * chunk < size <= (m + 1) * chunk
    ensures Total(ChunkSizes(size, chunk, m + 1)) == size
  {
    LastChunk(size, chunk, m);
    WholeChunks(size, chunk, m);
    SizesLength(size, chunk, m);
    hide ChunkSize;
    var s := ChunkSizes(size, chunk, m + 1);
    assert s[..m] == ChunkSizes(size, chunk, m);
  }

  /** Sizes that tile `total`: all but the last are full, the last is not empty, all are multiples
      of the granularity, and together they make up the total. */
  ghost predicate Tiling(sizes: seq<nat>, total: nat, chunk: nat, g: nat)
    requires g > 0
  {
    && sizes != []
    && (forall i :: 0 <= i < |sizes| - 1 ==> sizes[i] == chunk)
    && 0 < sizes[|sizes| - 1] <= chunk
    && (forall i :: 0 <= i < |sizes| ==> sizes[i] % g == 0)
    && Total(sizes) == total
  }

  lemma {:induction false} FullThenLast(sizes: seq<nat>, total: nat, chunk: nat, last: nat, g: nat)
    requires g > 0 && sizes != [] && forall i :: 0 <= i < |sizes| - 1 ==> sizes[i] == chunk
    requires sizes[|sizes| - 1] == last && 0 < last <= chunk && chunk % g == 0 && last % g == 0
    requires Total(sizes) == total
    ensures Tiling(sizes, total, chunk, g)
  {
    hide Total;
  }

  lemma {:induction false} AllButLastFull(size: nat, chunk: nat, n: nat)
    requires size < U64 && chunk > 0 && n > 0 && (n - 1) * chunk < size <= n * chunk
    ensures var sizes := ChunkSizes(size, chunk, n);
            && |sizes| == n && sizes[n - 1] == size - (n - 1) * chunk
            && forall i :: 0 <= i < n - 1 ==> sizes[i] == chunk
  {
    hide Wrap, ChunkSize, ChunkSizes;
    SizesLength(size, chunk, n);
    SizesAt(size, chunk, n, n - 1);
    LastChunk(size, chunk, n - 1);
    forall i | 0 <= i < n - 1 ensures ChunkSizes(size, chunk, n)[i] == chunk {
      SizesAt(size, chunk, n, i);
      FullChunk(size, chunk, n - 1, i);
    }
  }

  /** The chunks tile the aligned size. */
  lemma {:induction false} ChunksTile(size: nat, chunk: nat, g: nat)
    requires 0 < size < U64 && 0 < chunk && g > 0 && size % g == 0 && chunk % g == 0
    requires size + chunk - 1 < U64
    ensures Tiling(ChunkSizes(size, chunk, NumChunks(size, chunk)), size, chunk, g)
  {
    hide Wrap, ChunkSize, NumChunks, ChunkSizes, Total, Tiling;
    var n := NumChunks(size, chunk);
    CountBounds(size, chunk);
    LastChunk(size, chunk, n - 1);
    AllButLastFull(size, chunk, n);
    SumToSize(size, chunk, n - 1);
    LastIsMultiple(size, chunk, n - 1, g);
    FullThenLast(ChunkSizes(size, chunk, n), size, chunk, size - (n - 1) * chunk, g);
  }

  lemma {:induction false} LastIsMultiple(size: nat, chunk: nat, m: nat, g: nat)
    requires g > 0 && size % g == 0 && chunk % g == 0 && m * chunk <= size
    ensures (size - m * chunk) % g == 0
  {
    ProductIsNat(m, chunk);
    ProductOfMultiple(m, chunk, g);
    DifferenceOfMultiples(size, m * chunk, g);
  }

  /** The chunks add up to the size exactly when the rounding of the count does not wrap. */
  lemma {:induction false} ChunksTileExactly(size: nat, chunk: nat)
    requires 0 < size < U64 && 0 < chunk < U64
    ensures Total(ChunkSizes(size, chunk, NumChunks(size, chunk))) == size <==> size + chunk - 1 < U64
  {
    if size + chunk - 1 < U64 {
      assert size % 1 == 0 && chunk % 1 == 0;
      ChunksTile(size, chunk, 1);
    } else {
      var w := size + chunk - 1 - U64;
      assert Wrap(size + chunk - 1) == w;
      DivBounds(w, chunk);
      WholeChunks(size, chunk, NumChunks(size, chunk));
    }
  }

  lemma {:induction false} NoChunks(chunk: nat)
    requires 0 < chunk < U64
    ensures NumChunks(0, chunk) == 0 && ChunkSizes(0, chunk, 0) == []
  {
    SmallQuotient(chunk - 1, chunk);
  }

  /** A size for which the count of chunks wraps to none at all. */
  lemma {:induction false} CountMayWrap()
    ensures var size := U64 - MB;
            && 0 < size < U64 && size % MB == 0
            && NumChunks(size, DEFAULT_CHUNK) == 0
            && Total(ChunkSizes(size, DEFAULT_CHUNK, NumChunks(size, DEFAULT_CHUNK))) != size
  {
    ChunksTileExactly(U64 - MB, DEFAULT_CHUNK);
  }

  /** Fills the chunk sizes in a loop, as the allocator does before handing them on. When no sum
      wraps, they tile the request rounded up to the granularity; the request is covered exactly
      when its own rounding does not wrap. A request for nothing gets no chunks. */
  method ComputeChunks(size: nat, granularity: nat, env: Option<nat>) returns (aligned: nat, chunkSizes: array<nat>)
    requires size < U64 && 0 < granularity < U64
    requires AlignUp(BaseChunk(env), granularity) != 0
    ensures aligned == AlignUp(size, granularity)
    ensures var chunk := AlignUp(BaseChunk(env), granularity);
            && chunkSizes[..] == ChunkSizes(aligned, chunk, NumChunks(aligned, chunk))
            && (aligned > 0 && aligned + chunk - 1 < U64 ==> Tiling(chunkSizes[..], aligned, chunk, granularity))
    ensures aligned % granularity == 0
    ensures aligned >= size <==> size + granularity - 1 < U64
    ensures aligned >= size ==> aligned < size + granularity
    ensures size == 0 ==> chunkSizes[..] == []
  {
    aligned := AlignUp(size, granularity);
    var chunk := AlignUp(BaseChunk(env), granularity);
    AlignUpExactly(BaseChunk(env), granularity);
    var n := NumChunks(aligned, chunk);
    chunkSizes := new nat[n];
    SizesLength(aligned, chunk, 0);
    for i := 0 to n
      invariant chunkSizes[..i] == ChunkSizes(aligned, chunk, i)
    {
      chunkSizes[i] := MinInt(Wrap(aligned - i * chunk), chunk);
      assert chunkSizes[..i + 1] == chunkSizes[..i] + [ChunkSize(aligned, chunk, i)];
    }
    assert chunkSizes[..n] == chunkSizes[..];
    AlignUpExactly(size, granularity);
    NoChunks(chunk);
    assert aligned < U64 by { AlignUpBounded(size, granularity); }
    hide AlignUp, Tiling, ChunkSizes, NumChunks;
    if aligned > 0 && aligned + chunk - 1 < U64 { ChunksTile(aligned, chunk, granularity); }
  }
}
