/** The exclusive prefix scan of the dispatch metadata kernel: chunks of a block's threads, a shuffle scan
  * inside every warp, a scan of the warp sums, and a carry from chunk to chunk. */
module PrefixScan {

  const LANES := 32
  const WARPS := 8
  const THREADS := WARPS * LANES

  /** Sum of the first k values. */
  function Prefix(xs: seq<int>, k: nat): int
    requires k <= |xs|
  {
    if k == 0 then 0 else Prefix(xs, k - 1) + xs[k - 1]
  }

  lemma {:induction false} PrefixSlice(xs: seq<int>, lo: nat, len: nat, k: nat)
    requires lo + len <= |xs| && k <= len
    ensures Prefix(xs, lo + k) == Prefix(xs, lo) + Prefix(xs[lo..lo + len], k)
  {
    if k > 0 {
      PrefixSlice(xs, lo, len, k - 1);
    }
  }

  lemma {:induction false} PrefixEq(xs: seq<int>, ys: seq<int>, k: nat)
    requires k <= |xs| && k <= |ys| && forall i: nat :: i < k ==> xs[i] == ys[i]
    ensures Prefix(xs, k) == Prefix(ys, k)
  {
    if k > 0 {
      PrefixEq(xs, ys, k - 1);
    }
  }

  function Cut(l: int, d: int): nat {
    if l < d then 0 else l - d
  }

  /** Lane l holds the sum of the d values that end at its own. */
  predicate Window(orig: seq<int>, x: seq<int>, d: nat) {
    |x| == |orig| && forall l: nat :: l < |x| ==> x[l] == Prefix(orig, l + 1) - Prefix(orig, Cut(l + 1, d))
  }

  /** Shuffle-up scan over the lanes of a warp, doubling the distance: after the rounds below `limit` the
    * first `limit` lanes hold inclusive sums. */
  method ShuffleScan(orig: seq<int>, limit: nat) returns (x: seq<int>)
    requires |orig| == LANES && limit <= LANES
    ensures |x| == LANES && forall l: nat :: l < limit ==> x[l] == Prefix(orig, l + 1)
  {
    x := orig;
    var d := 1;
    while d < limit
      invariant 1 <= d && Window(orig, x, d)
      decreases limit - d
    {
      ghost var was := x;
      x := seq(LANES, l requires 0 <= l < LANES => if l >= d then x[l] + x[l - d] else x[l]);
      forall l: nat | l < LANES ensures x[l] == Prefix(orig, l + 1) - Prefix(orig, Cut(l + 1, 2 * d)) {
        assert was[l] == Prefix(orig, l + 1) - Prefix(orig, Cut(l + 1, d));
        if l >= d {
          assert was[l - d] == Prefix(orig, l - d + 1) - Prefix(orig, Cut(l - d + 1, d));
        }
      }
      d := 2 * d;
    }
  }

  /** What one chunk of the scan reads: values past the end count as zero. */
  function Chunk(xs: seq<int>, start: nat): (chunk: seq<int>) {
    seq(THREADS, i requires 0 <= i => if start + i < |xs| then xs[start + i] else 0)
  }

  predicate WarpScans(chunk: seq<int>, inclusive: seq<seq<int>>)
    requires |chunk| == THREADS
  {
    && |inclusive| <= WARPS
    && forall w: nat :: w < |inclusive| ==> InclusiveOf(chunk[w * LANES..(w + 1) * LANES], inclusive[w])
  }

  predicate InclusiveOf(block: seq<int>, x: seq<int>) {
    |x| == LANES == |block| && forall l: nat :: l < LANES ==> x[l] == Prefix(block, l + 1)
  }

  method ScanWarps(chunk: seq<int>) returns (inclusive: seq<seq<int>>)
    requires |chunk| == THREADS
    ensures |inclusive| == WARPS && WarpScans(chunk, inclusive)
  {
    inclusive := [];
    for w := 0 to WARPS
      invariant |inclusive| == w && WarpScans(chunk, inclusive)
    {
      var x := ShuffleScan(chunk[w * LANES..(w + 1) * LANES], LANES);
      assert InclusiveOf(chunk[w * LANES..(w + 1) * LANES], x);
      inclusive := inclusive + [x];
    }
  }

  /** The warp sums, in the lanes of warp 0; lanes past the warps hold zero. */
  function WarpSums(inclusive: seq<seq<int>>): (sums: seq<int>)
    requires |inclusive| == WARPS && forall w: nat :: w < WARPS ==> |inclusive[w]| == LANES
  {
    seq(LANES, w requires 0 <= w => if w < WARPS then inclusive[w][LANES - 1] else 0)
  }

  lemma {:induction false} WarpPrefix(chunk: seq<int>, inclusive: seq<seq<int>>, w: nat)
    requires |chunk| == THREADS && |inclusive| == WARPS && WarpScans(chunk, inclusive) && w <= WARPS
    requires forall w: nat :: w < WARPS ==> |inclusive[w]| == LANES
    ensures Prefix(WarpSums(inclusive), w) == Prefix(chunk, w * LANES)
  {
    if w > 0 {
      WarpPrefix(chunk, inclusive, w - 1);
      assert InclusiveOf(chunk[(w - 1) * LANES..w * LANES], inclusive[w - 1]);
      PrefixSlice(chunk, (w - 1) * LANES, LANES, LANES);
    }
  }

  /** Exclusive sums of a chunk and its total. */
  method ScanChunk(chunk: seq<int>, carry: int) returns (exclusive: seq<int>, total: int)
    requires |chunk| == THREADS
    ensures |exclusive| == THREADS && forall i: nat :: i < THREADS ==> exclusive[i] == carry + Prefix(chunk, i)
    ensures total == Prefix(chunk, THREADS)
  {
    var inclusive := ScanWarps(chunk);
    assert forall w: nat :: w < WARPS ==> InclusiveOf(chunk[w * LANES..(w + 1) * LANES], inclusive[w]);
    var sums := ShuffleScan(WarpSums(inclusive), WARPS);
    exclusive := [];
    for w := 0 to WARPS
      invariant |exclusive| == w * LANES
      invariant forall i: nat :: i < |exclusive| ==> exclusive[i] == carry + Prefix(chunk, i)
    {
      var warpPrefix := if w > 0 then sums[w - 1] else 0;
      WarpPrefix(chunk, inclusive, w);
      ghost var block := chunk[w * LANES..(w + 1) * LANES];
      var x := inclusive[w];
      assert InclusiveOf(block, x);
      var part := seq(LANES, l requires 0 <= l < LANES => (x[l] - chunk[w * LANES + l]) + warpPrefix + carry);
      forall l: nat | l < LANES ensures part[l] == carry + Prefix(chunk, w * LANES + l) {
        PrefixSlice(chunk, w * LANES, LANES, l);
        assert block[l] == chunk[w * LANES + l];
      }
      exclusive := exclusive + part;
    }
    total := sums[WARPS - 1];
    WarpPrefix(chunk, inclusive, WARPS);
  }

  /** While the values from `start` on are still the original ones, a chunk continues the prefix. */
  lemma ChunkPrefix(xs: seq<int>, current: seq<int>, start: nat, i: nat)
    requires |current| == |xs| && start + i <= |xs| && i <= THREADS
    requires forall k: nat :: start <= k < |xs| ==> current[k] == xs[k]
    ensures Prefix(xs, start + i) == Prefix(xs, start) + Prefix(Chunk(current, start), i)
  {
    PrefixSlice(xs, start, |xs| - start, i);
    PrefixEq(xs[start..start + (|xs| - start)], Chunk(current, start), i);
  }

  /** The values before `upTo` are scanned, the others are still the original ones. */
  predicate ScannedTo(xs: seq<int>, scan: seq<int>, startOffset: int, upTo: nat) {
    && |scan| == |xs|
    && (forall i: nat :: i < |xs| && i < upTo ==> scan[i] == startOffset + Prefix(xs, i))
    && (forall i: nat :: upTo <= i < |xs| ==> scan[i] == xs[i])
  }

  lemma ScannedCell(xs: seq<int>, current: seq<int>, chunk: seq<int>, startOffset: int, start: nat, x: int, i: nat)
    requires |current| == |xs| && start <= i < |xs| && i < start + THREADS && chunk == Chunk(current, start)
    requires forall k: nat :: start <= k < |xs| ==> current[k] == xs[k]
    requires x == startOffset + Prefix(xs, start) + Prefix(chunk, i - start)
    ensures x == startOffset + Prefix(xs, i)
  {
    ChunkPrefix(xs, current, start, i - start);
  }

  lemma ChunkScanned(xs: seq<int>, current: seq<int>, scan: seq<int>, startOffset: int, start: nat, exclusive: seq<int>,
        chunk: seq<int>)
    requires start < |xs| && ScannedTo(xs, current, startOffset, start) && |scan| == |xs| && |exclusive| == THREADS
    requires chunk == Chunk(current, start)
    requires forall i: nat :: i < THREADS ==> exclusive[i] == startOffset + Prefix(xs, start) + Prefix(chunk, i)
    requires forall i: nat :: i < |xs| ==>
               scan[i] == if start <= i < start + THREADS then exclusive[i - start] else current[i]
    ensures ScannedTo(xs, scan, startOffset, start + THREADS)
  {
    forall i: nat | start <= i < start + THREADS && i < |xs| ensures scan[i] == startOffset + Prefix(xs, i) {
      ScannedCell(xs, current, chunk, startOffset, start, exclusive[i - start], i);
    }
  }

  /** In place, every value becomes the sum of the values before it plus the starting offset. */
  method ScanInPlace(scan: array<int>, startOffset: int)
    modifies scan
    ensures forall i: nat :: i < scan.Length ==> scan[i] == startOffset + Prefix(old(scan[..]), i)
  {
    ghost var xs := scan[..];
    var carry := startOffset;
    var chunkStart := 0;
    while chunkStart < scan.Length
      invariant chunkStart < scan.Length ==> carry == startOffset + Prefix(xs, chunkStart)
      invariant ScannedTo(xs, scan[..], startOffset, chunkStart)
    {
      ghost var current := scan[..];
      var chunk := Chunk(scan[..], chunkStart);
      var exclusive, total := ScanChunk(chunk, carry);
      forall i | chunkStart <= i < chunkStart + THREADS && i < scan.Length {
        scan[i] := exclusive[i - chunkStart];
      }
      ChunkScanned(xs, current, scan[..], startOffset, chunkStart, exclusive, chunk);
      if chunkStart + THREADS < |xs| {
        ChunkPrefix(xs, current, chunkStart, THREADS);
      }
      carry := carry + total;
      chunkStart := chunkStart + THREADS;
    }
  }
}
