/** Carving a communication buffer: typed sub-buffers taken one after the other from a moving pointer. */
module Carving {
  import opened Arith

  /** A sub-buffer of `halves * channels * ranks` slabs of `slab` bytes: halves is 2 for a buffer with separate
    * send and receive sides, 1 otherwise. */
  datatype Field = Field(slab: nat, ranks: nat, channels: nat, halves: nat) {
    function Bytes(): nat { slab * ranks * channels * halves }

    predicate Cell(half: nat, channel: nat, rank: nat) { half < halves && channel < channels && rank < ranks }

    /** The offset of a slab inside the field: half, then channel, then rank. */
    function Offset(half: nat, channel: nat, rank: nat): nat {
      slab * ranks * (channel + half * channels) + slab * rank
    }
  }

  function Total(chain: seq<Field>, n: nat): nat
    requires n <= |chain|
  {
    if n == 0 then 0 else Total(chain, n - 1) + chain[n - 1].Bytes()
  }

  /** One slab of one field of a chain of sub-buffers. */
  datatype Slab = Slab(field: nat, half: nat, channel: nat, rank: nat)

  predicate InChain(chain: seq<Field>, c: Slab) {
    c.field < |chain| && chain[c.field].Cell(c.half, c.channel, c.rank)
  }

  function Address(chain: seq<Field>, c: Slab): nat
    requires InChain(chain, c)
  {
    Total(chain, c.field) + chain[c.field].Offset(c.half, c.channel, c.rank)
  }

  predicate Disjoint(a: int, la: int, b: int, lb: int) {
    a + la <= b || b + lb <= a
  }

  /** The position of a slab in its field, counted in slabs. */
  function Position(f: Field, half: nat, channel: nat, rank: nat): nat {
    (half * f.channels + channel) * f.ranks + rank
  }

  lemma OffsetIsPosition(f: Field, half: nat, channel: nat, rank: nat)
    ensures f.Offset(half, channel, rank) == Position(f, half, channel, rank) * f.slab
  {
    var p := half * f.channels + channel;
    assert f.slab * f.ranks * p == p * f.ranks * f.slab;
    assert (p * f.ranks + rank) * f.slab == p * f.ranks * f.slab + rank * f.slab;
  }

  lemma BytesArePositions(f: Field)
    ensures f.Bytes() == f.halves * f.channels * f.ranks * f.slab
  {
    var a, b, c, d := f.slab, f.ranks, f.channels, f.halves;
    assert a * b * c * d == d * c * b * a;
  }

  lemma PositionBound(f: Field, half: nat, channel: nat, rank: nat)
    requires f.Cell(half, channel, rank)
    ensures Position(f, half, channel, rank) < f.halves * f.channels * f.ranks
  {
    PairBound(half, channel, f.halves, f.channels);
    PairBound(half * f.channels + channel, rank, f.halves * f.channels, f.ranks);
  }

  lemma PositionInjective(f: Field, h: nat, c: nat, r: nat, h': nat, c': nat, r': nat)
    requires f.Cell(h, c, r) && f.Cell(h', c', r') && Position(f, h, c, r) == Position(f, h', c', r')
    ensures h == h' && c == c' && r == r'
  {
    TripleUnique(h, c, r, h', c', r', f.channels, f.ranks);
  }

  lemma TripleUnique(h: nat, c: nat, r: nat, h': nat, c': nat, r': nat, channels: nat, ranks: nat)
    requires c < channels && r < ranks && c' < channels && r' < ranks
    requires (h * channels + c) * ranks + r == (h' * channels + c') * ranks + r'
    ensures h == h' && c == c' && r == r'
  {
    var p, q := h * channels + c, h' * channels + c';
    PairUnique(p, r, q, r', ranks);
    PairUnique(h, c, h', c', channels);
  }

  lemma SlabInField(f: Field, half: nat, channel: nat, rank: nat)
    requires f.Cell(half, channel, rank)
    ensures f.Offset(half, channel, rank) + f.slab <= f.Bytes()
  {
    var p := Position(f, half, channel, rank);
    OffsetIsPosition(f, half, channel, rank);
    BytesArePositions(f);
    PositionBound(f, half, channel, rank);
    MulLe(p + 1, f.halves * f.channels * f.ranks, f.slab);
    assert (p + 1) * f.slab == p * f.slab + f.slab;
  }

  lemma SlabsApart(f: Field, h: nat, c: nat, r: nat, h': nat, c': nat, r': nat)
    requires f.Cell(h, c, r) && f.Cell(h', c', r') && (h != h' || c != c' || r != r')
    ensures Disjoint(f.Offset(h, c, r), f.slab, f.Offset(h', c', r'), f.slab)
  {
    var p, q := Position(f, h, c, r), Position(f, h', c', r');
    OffsetIsPosition(f, h, c, r);
    OffsetIsPosition(f, h', c', r');
    if p == q {
      PositionInjective(f, h, c, r, h', c', r');
    } else {
      PositionsApart(p, q, f.slab);
    }
  }

  lemma PositionsApart(p: nat, q: nat, slab: nat)
    requires p != q
    ensures Disjoint(p * slab, slab, q * slab, slab)
  {
    assert (p + 1) * slab == p * slab + slab && (q + 1) * slab == q * slab + slab;
    if p < q {
      MulLe(p + 1, q, slab);
    } else {
      MulLe(q + 1, p, slab);
    }
  }

  lemma {:induction false} TotalMono(chain: seq<Field>, n: nat, m: nat)
    requires n <= m <= |chain|
    ensures Total(chain, n) <= Total(chain, m)
    decreases m
  {
    if n < m {
      TotalMono(chain, n, m - 1);
    }
  }

  /** Every slab of a chain lies inside the chain's region. */
  lemma SlabInside(chain: seq<Field>, c: Slab)
    requires InChain(chain, c)
    ensures Address(chain, c) + chain[c.field].slab <= Total(chain, |chain|)
  {
    SlabInField(chain[c.field], c.half, c.channel, c.rank);
    TotalMono(chain, c.field + 1, |chain|);
  }

  /** Slabs of different (field, half, channel, rank) never overlap. */
  lemma CarveDisjoint(chain: seq<Field>, c: Slab, d: Slab)
    requires InChain(chain, c) && InChain(chain, d) && c != d
    ensures Disjoint(Address(chain, c), chain[c.field].slab, Address(chain, d), chain[d.field].slab)
  {
    if c.field == d.field {
      SlabsApart(chain[c.field], c.half, c.channel, c.rank, d.half, d.channel, d.rank);
    } else {
      SlabInField(chain[c.field], c.half, c.channel, c.rank);
      SlabInField(chain[d.field], d.half, d.channel, d.rank);
      if c.field < d.field {
        TotalMono(chain, c.field + 1, d.field);
      } else {
        TotalMono(chain, d.field + 1, c.field);
      }
    }
  }

  /** Entry `index` of a slab of entries of `width` bytes. */
  predicate Fits(slab: nat, index: nat, width: nat) { width * index + width <= slab }

  /** Exactly the indices below n fit a slab of n entries. */
  lemma FitsIff(n: nat, index: nat, width: nat)
    requires width > 0
    ensures Fits(n * width, index, width) <==> index < n
  {
    if index < n {
      MulLe(index + 1, n, width);
    } else {
      MulLe(n, index, width);
    }
  }

  lemma EntriesOrdered(i: nat, j: nat, width: nat)
    requires i < j
    ensures width * i + width <= width * j
  {
    MulLe(i + 1, j, width);
  }

  /** Different entries, of one slab or of two, never overlap. */
  lemma EntriesDisjoint(chain: seq<Field>, c: Slab, i: nat, wi: nat, d: Slab, j: nat, wj: nat)
    requires InChain(chain, c) && InChain(chain, d) && Fits(chain[c.field].slab, i, wi) && Fits(chain[d.field].slab, j, wj)
    requires if c == d then i != j && wi == wj else true
    ensures Disjoint(Address(chain, c) + wi * i, wi, Address(chain, d) + wj * j, wj)
  {
    if c != d {
      CarveDisjoint(chain, c, d);
      PartsDisjoint(Address(chain, c), chain[c.field].slab, i, wi, Address(chain, d), chain[d.field].slab, j, wj);
    } else {
      OneSlab(Address(chain, c), i, j, wi);
    }
  }

  lemma PartsDisjoint(a: nat, la: nat, i: nat, wi: nat, b: nat, lb: nat, j: nat, wj: nat)
    requires Disjoint(a, la, b, lb) && Fits(la, i, wi) && Fits(lb, j, wj)
    ensures Disjoint(a + wi * i, wi, b + wj * j, wj)
  {
  }

  lemma OneSlab(a: nat, i: nat, j: nat, width: nat)
    requires i != j
    ensures Disjoint(a + width * i, width, a + width * j, width)
  {
    if i < j {
      EntriesOrdered(i, j, width);
    } else {
      EntriesOrdered(j, i, width);
    }
  }

  // ---------------------------------------------------------------------------
  // The buffer types.
  // ---------------------------------------------------------------------------

  /** A pointer into the buffer that the constructors move. */
  class Cursor {
    var at: nat

    constructor (at: nat)
      ensures this.at == at
    {
      this.at := at;
    }
  }

  class AsymBuffer {
    const base: nat
    const numBytes: nat
    const totalBytes: nat

    constructor (gbl: Cursor, elemBytes: nat, numElems: nat, numRanks: nat, smId: nat, numSms: nat, offset: nat)
      modifies gbl
      ensures var f := Field(numElems * elemBytes, numRanks, numSms, 1);
              && gbl.at == old(gbl.at) + f.Bytes()
              && totalBytes == f.Bytes() && numBytes == f.slab
              && base == old(gbl.at) + f.Offset(0, smId, offset)
    {
      var bytes := numElems * elemBytes;
      var perChannelBytes := bytes * numRanks;
      numBytes := bytes;
      totalBytes := perChannelBytes * numSms;
      base := gbl.at + perChannelBytes * smId + bytes * offset;
      new;
      gbl.at := gbl.at + perChannelBytes * numSms;
    }

    /** The mirror view of the same region through another pointer moves with it. */
    method AdvanceAlso(gbl: Cursor)
      modifies gbl
      ensures gbl.at == old(gbl.at) + totalBytes
    {
      gbl.at := gbl.at + totalBytes;
    }
  }

  class SymBuffer {
    const sendBase: nat
    const recvBase: nat
    const numBytes: nat
    const totalBytes: nat

    constructor (gbl: Cursor, elemBytes: nat, numElems: nat, numRanks: nat, smId: nat, numSms: nat, decoupled: bool)
      modifies gbl
      ensures var f := Field(numElems * elemBytes, numRanks, numSms, if decoupled then 2 else 1);
              && gbl.at == old(gbl.at) + f.Bytes() && totalBytes == f.Bytes() && numBytes == f.slab
              && sendBase == old(gbl.at) + f.Offset(0, smId, 0)
              && (decoupled ==> recvBase == old(gbl.at) + f.Offset(1, smId, 0))
    {
      var bytes := numElems * elemBytes;
      var perChannelBytes := bytes * numRanks;
      var total := perChannelBytes * numSms * ((if decoupled then 1 else 0) + 1);
      numBytes := bytes;
      totalBytes := total;
      sendBase := gbl.at + perChannelBytes * smId;
      recvBase := gbl.at + perChannelBytes * (smId + numSms);
      new;
      gbl.at := gbl.at + total;
    }

    function SendBuffer(idx: nat): nat { sendBase + numBytes * idx }
    function RecvBuffer(idx: nat): nat { recvBase + numBytes * idx }
  }

  /** The accessors of a buffer carved as field `field` of a chain that starts at `start` reach exactly the slabs
    * of the model: rank idx of the block's channel, on either side. */
  lemma AccessorsReachSlabs(b: SymBuffer, chain: seq<Field>, field: nat, channel: nat, idx: nat, start: nat)
    requires InChain(chain, Slab(field, 0, channel, idx)) && b.numBytes == chain[field].slab
    requires b.sendBase == start + Total(chain, field) + chain[field].Offset(0, channel, 0)
    requires chain[field].halves == 2 ==> b.recvBase == start + Total(chain, field) + chain[field].Offset(1, channel, 0)
    ensures b.SendBuffer(idx) == start + Address(chain, Slab(field, 0, channel, idx))
    ensures chain[field].halves == 2 ==> b.RecvBuffer(idx) == start + Address(chain, Slab(field, 1, channel, idx))
  {
  }
}
