/** The stand-alone tile producer of the kernel tests: tiles in reverse order, each in row chunks, and after
  * each chunk its share of the tile's target. Every statement that touches the device is one observation
  * point for a consumer that runs beside it. */
module StreamTiles {
  import opened Arith

  datatype Snapshot = Snapshot(dst: seq<int>, count: seq<int>)

  /** Rows that the chunks of a tile cover: all of them when the chunk count divides the tile height. */
  function Covered(tileM: nat, chunks: nat): nat
    requires chunks > 0
  {
    chunks * (tileM / chunks)
  }

  /** A consumer that sees the count at the target finds the source's rows. */
  ghost predicate Safe(s: Snapshot, src: seq<int>, target: seq<int>, tileM: nat, chunks: nat)
    requires chunks > 0
  {
    && |s.count| == |target| && |s.dst| == |src|
    && forall t: nat :: t < |target| && s.count[t] == target[t] ==> TileFinal(s.dst, src, t, tileM, Covered(tileM, chunks))
  }

  ghost predicate TileFinal(dst: seq<int>, src: seq<int>, t: nat, tileM: nat, rows: nat) {
    forall k: nat :: t * tileM <= k < t * tileM + rows && k < |dst| && k < |src| ==> dst[k] == src[k]
  }

  /** Everything the producer has copied so far stays copied. */
  ghost predicate Grows(before: seq<int>, after: seq<int>, src: seq<int>) {
    |before| == |after| == |src| && forall i: nat :: i < |src| ==> after[i] == before[i] || after[i] == src[i]
  }

  lemma FinalGrows(before: seq<int>, after: seq<int>, src: seq<int>, t: nat, tileM: nat, rows: nat)
    requires Grows(before, after, src) && TileFinal(before, src, t, tileM, rows)
    ensures TileFinal(after, src, t, tileM, rows)
  {
  }

  ghost predicate RowsCopied(before: seq<int>, after: seq<int>, src: seq<int>, lo: nat, n: nat) {
    && |before| == |after| == |src|
    && forall i: nat :: i < |src| ==> after[i] == if lo <= i < lo + n then src[i] else before[i]
  }

  method CopyRows(dst: array<int>, src: array<int>, lo: nat, n: nat)
    requires dst != src && dst.Length == src.Length && lo + n <= dst.Length
    modifies dst
    ensures RowsCopied(old(dst[..]), dst[..], src[..], lo, n)
  {
    for k := 0 to n
      invariant forall i: nat :: i < dst.Length ==> dst[i] == if lo <= i < lo + k then src[i] else old(dst[i])
    {
      dst[lo + k] := src[lo + k];
    }
  }

  lemma ShareFits(target: nat, chunks: nat, c: nat)
    requires chunks > 0 && target >= 1 && c < chunks
    ensures c * (target / chunks) < target
    ensures (chunks - 1) * (target / chunks) <= target
  {
    var share := target / chunks;
    assert target == share * chunks + target % chunks;
    MulLe(c, chunks - 1, share);
    assert (chunks - 1) * share == chunks * share - share;
    if share == 0 {
      assert c * share == 0;
    }
  }

  lemma ChunkFits(tileM: nat, chunks: nat, t: nat, c: nat, tiles: nat)
    requires chunks > 0 && c < chunks && t < tiles
    ensures t * tileM + c * (tileM / chunks) + tileM / chunks <= tiles * tileM
    ensures (c + 1) * (tileM / chunks) == c * (tileM / chunks) + tileM / chunks <= Covered(tileM, chunks) <= tileM
  {
    var n := tileM / chunks;
    assert tileM == n * chunks + tileM % chunks;
    MulLe(c + 1, chunks, n);
    MulLe(t + 1, tiles, tileM);
    assert (t + 1) * tileM == t * tileM + tileM;
  }

  /** Tile t after its first c chunks: their rows are final, and the count holds their shares. */
  ghost predicate ChunksDone(dst: seq<int>, count: seq<int>, src: seq<int>, target: seq<int>, tileM: nat, chunks: nat,
                             t: nat, c: nat)
    requires chunks > 0 && t < |target|
  {
    && Safe(Snapshot(dst, count), src, target, tileM, chunks)
    && count[t] == (if c < chunks then c * (target[t] / chunks) else target[t])
    && TileFinal(dst, src, t, tileM, c * (tileM / chunks))
  }

  lemma RowsDone(a: Snapshot, dst: seq<int>, src: seq<int>, target: seq<int>, tileM: nat, chunks: nat, t: nat, c: nat)
    requires chunks > 0 && t < |target| && c < chunks && ChunksDone(a.dst, a.count, src, target, tileM, chunks, t, c)
    requires RowsCopied(a.dst, dst, src, t * tileM + c * (tileM / chunks), tileM / chunks)
    ensures Grows(a.dst, dst, src) && Safe(Snapshot(dst, a.count), src, target, tileM, chunks)
    ensures TileFinal(dst, src, t, tileM, (c + 1) * (tileM / chunks))
  {
    ChunkFinal(a.dst, dst, src, t, tileM, c * (tileM / chunks), tileM / chunks);
    GrowSafe(a, dst, src, target, tileM, chunks);
    assert (c + 1) * (tileM / chunks) == c * (tileM / chunks) + tileM / chunks;
  }

  lemma ShareDone(a: Snapshot, count: seq<int>, src: seq<int>, target: seq<int>, tileM: nat, chunks: nat, t: nat, c: nat)
    requires chunks > 0 && t < |target| && c < chunks && target[t] >= 1 && Safe(a, src, target, tileM, chunks)
    requires a.count[t] == c * (target[t] / chunks) && TileFinal(a.dst, src, t, tileM, (c + 1) * (tileM / chunks))
    requires count == a.count[t := a.count[t]
               + if c < chunks - 1 then target[t] / chunks else target[t] - (chunks - 1) * (target[t] / chunks)]
    ensures ChunksDone(a.dst, count, src, target, tileM, chunks, t, c + 1)
  {
    var share := target[t] / chunks;
    assert (c + 1) * share == c * share + share;
    if c < chunks - 1 {
      ShareFits(target[t], chunks, c + 1);
    }
    CountSafe(a, count, src, target, tileM, chunks, t);
  }

  /** One chunk: the rows first, then their share of the count. */
  method StreamChunk(dst: array<int>, src: array<int>, count: array<int>, target: seq<int>,
          tileM: nat, chunks: nat, t: nat, c: nat)
    returns (ghost seen: seq<Snapshot>)
    requires chunks > 0 && c < chunks && dst != src && dst != count && src != count
    requires count.Length == |target| && dst.Length == src.Length == count.Length * tileM && t < count.Length
    requires target[t] >= 1 && ChunksDone(dst[..], count[..], src[..], target, tileM, chunks, t, c)
    modifies dst, count
    ensures forall i: nat :: i < count.Length && i != t ==> count[i] == old(count[i])
    ensures Grows(old(dst[..]), dst[..], src[..])
    ensures ChunksDone(dst[..], count[..], src[..], target, tileM, chunks, t, c + 1)
    ensures |seen| == 2 && forall k :: 0 <= k < |seen| ==> Safe(seen[k], src[..], target, tileM, chunks)
  {
    ghost var before := Snapshot(dst[..], count[..]);
    CopyChunk(dst, src, tileM, chunks, t, c, count.Length);
    RowsDone(before, dst[..], src[..], target, tileM, chunks, t, c);
    ghost var copied := Snapshot(dst[..], count[..]);
    AddShare(count, target, chunks, t, c);
    ShareDone(copied, count[..], src[..], target, tileM, chunks, t, c);
    seen := [copied, Snapshot(dst[..], count[..])];
  }

  method CopyChunk(dst: array<int>, src: array<int>, tileM: nat, chunks: nat, t: nat, c: nat, tiles: nat)
    requires dst != src && chunks > 0 && c < chunks && t < tiles && dst.Length == src.Length == tiles * tileM
    modifies dst
    ensures RowsCopied(old(dst[..]), dst[..], src[..], t * tileM + c * (tileM / chunks), tileM / chunks)
  {
    var rowsPerChunk := tileM / chunks;
    ChunkFits(tileM, chunks, t, c, tiles);
    CopyRows(dst, src, t * tileM + c * rowsPerChunk, rowsPerChunk);
  }

  method AddShare(count: array<int>, target: seq<int>, chunks: nat, t: nat, c: nat)
    requires chunks > 0 && t < count.Length == |target|
    modifies count
    ensures count[..] == old(count[..])[t := old(count[t])
              + if c < chunks - 1 then target[t] / chunks else target[t] - (chunks - 1) * (target[t] / chunks)]
  {
    var share := target[t] / chunks;
    count[t] := count[t] + if c < chunks - 1 then share else target[t] - (chunks - 1) * share;
  }

  /** One tile, chunk by chunk. */
  method StreamTile(dst: array<int>, src: array<int>, count: array<int>, target: seq<int>, tileM: nat, chunks: nat, t: nat)
    returns (ghost seen: seq<Snapshot>)
    requires chunks > 0 && dst != src && dst != count && src != count
    requires count.Length == |target| && dst.Length == src.Length == count.Length * tileM && t < count.Length
    requires target[t] >= 1 && count[t] == 0
    requires Safe(Snapshot(dst[..], count[..]), src[..], target, tileM, chunks)
    modifies dst, count
    ensures forall i: nat :: i < count.Length ==> count[i] == if i == t then target[t] else old(count[i])
    ensures Safe(Snapshot(dst[..], count[..]), src[..], target, tileM, chunks)
    ensures forall k :: 0 <= k < |seen| ==> Safe(seen[k], src[..], target, tileM, chunks)
  {
    seen := [];
    ghost var s := src[..];
    for c := 0 to chunks
      invariant src[..] == s && ChunksDone(dst[..], count[..], s, target, tileM, chunks, t, c)
      invariant forall i: nat :: i < count.Length && i != t ==> count[i] == old(count[i])
      invariant forall k :: 0 <= k < |seen| ==> Safe(seen[k], s, target, tileM, chunks)
    {
      ghost var more := StreamChunk(dst, src, count, target, tileM, chunks, t, c);
      seen := seen + more;
    }
  }

  lemma GrowSafe(a: Snapshot, dst: seq<int>, src: seq<int>, target: seq<int>, tileM: nat, chunks: nat)
    requires chunks > 0 && Safe(a, src, target, tileM, chunks) && Grows(a.dst, dst, src)
    ensures Safe(Snapshot(dst, a.count), src, target, tileM, chunks)
  {
    forall t: nat | t < |target| && a.count[t] == target[t] ensures TileFinal(dst, src, t, tileM, Covered(tileM, chunks)) {
      FinalGrows(a.dst, dst, src, t, tileM, Covered(tileM, chunks));
    }
  }

  lemma ChunkFinal(before: seq<int>, after: seq<int>, src: seq<int>, t: nat, tileM: nat, rows: nat, n: nat)
    requires TileFinal(before, src, t, tileM, rows) && RowsCopied(before, after, src, t * tileM + rows, n)
    ensures TileFinal(after, src, t, tileM, rows + n)
  {
  }

  lemma CountSafe(a: Snapshot, count: seq<int>, src: seq<int>, target: seq<int>, tileM: nat, chunks: nat, t: nat)
    requires chunks > 0 && Safe(a, src, target, tileM, chunks) && t < |a.count| && |count| == |a.count|
    requires forall i: nat :: i < |count| && i != t ==> count[i] == a.count[i]
    requires count[t] == target[t] ==> TileFinal(a.dst, src, t, tileM, Covered(tileM, chunks))
    ensures Safe(Snapshot(a.dst, count), src, target, tileM, chunks)
  {
  }

  /** The whole producer, last tile first. Every count ends at its target, and at no point in between does a
    * tile at its target hold anything but the source's rows. */
  method Stream(dst: array<int>, src: array<int>, count: array<int>, target: seq<int>, tileM: nat, chunks: nat)
    returns (ghost seen: seq<Snapshot>)
    requires chunks > 0 && dst != src && dst != count && src != count
    requires count.Length == |target| && dst.Length == src.Length == count.Length * tileM
    requires forall t: nat :: t < |target| ==> target[t] >= 1 && count[t] == 0
    modifies dst, count
    ensures count[..] == target
    ensures Safe(Snapshot(dst[..], count[..]), src[..], target, tileM, chunks)
    ensures forall k :: 0 <= k < |seen| ==> Safe(seen[k], src[..], target, tileM, chunks)
  {
    seen := [];
    ghost var s := src[..];
    var t := |target|;
    while t > 0
      invariant t <= |target| && src[..] == s
      invariant forall i: nat :: i < |target| ==> count[i] == if i < t then 0 else target[i]
      invariant Safe(Snapshot(dst[..], count[..]), s, target, tileM, chunks)
      invariant forall k :: 0 <= k < |seen| ==> Safe(seen[k], s, target, tileM, chunks)
    {
      t := t - 1;
      ghost var more := StreamTile(dst, src, count, target, tileM, chunks, t);
      seen := seen + more;
    }
  }

  /** The chunks leave no row out exactly when their number divides the tile height. */
  lemma CoversAllIff(tileM: nat, chunks: nat)
    requires chunks > 0
    ensures Covered(tileM, chunks) == tileM <==> tileM % chunks == 0
  {
    assert tileM == tileM / chunks * chunks + tileM % chunks;
  }
}
