/** Region sizes of the dispatch, combine and metadata buffers, and the host's size hints for them. */
module BufferLayout {
  import opened Arith
  import opened Carving

  const NVL_PEERS := 8
  const MAX_TOPK := 128
  const MAX_LOCAL_EXPERTS := 64

  function AlignUp(n: nat, a: nat): nat
    requires a > 0
  {
    (n + a - 1) / a * a
  }

  /** One staged token: data, source meta, expert ids and weights, rounded up to 16 bytes. */
  function BytesPerToken(hiddenInt4: nat, numIdx: nat, numWeights: nat): nat {
    AlignUp(hiddenInt4 * 16 + 8 + numIdx * 4 + numWeights * 4, 16)
  }

  /** Geometry of a launch. */
  datatype Geometry = Geometry(hiddenInt4: nat, topk: nat, slots: nat, channels: nat, rdmaRanks: nat)

  // ---------------------------------------------------------------------------
  // Regions and the chains that fill them.
  // ---------------------------------------------------------------------------

  // Each region as a function of the bytes per staged token.

  function DispatchNvlOf(token: nat, g: Geometry): nat {
    var x := g.slots * token * NVL_PEERS * g.channels;
    var prefix := g.rdmaRanks * 8 * NVL_PEERS * g.channels;
    var ht := 8 * NVL_PEERS * g.channels;
    x + 2 * prefix + 2 * ht
  }

  function CombineNvlOf(token: nat, g: Geometry): nat {
    var x := g.slots * token * NVL_PEERS * g.channels;
    var ht := g.rdmaRanks * 8 * NVL_PEERS * g.channels;
    x + 2 * ht
  }

  function RdmaOf(token: nat, g: Geometry): nat {
    2 * g.slots * token * g.rdmaRanks * g.channels + 2 * 8 * g.rdmaRanks * g.channels
  }

  function DispatchNvl(g: Geometry): nat { DispatchNvlOf(BytesPerToken(g.hiddenInt4, g.topk, g.topk), g) }

  function CombineNvl(g: Geometry): nat { CombineNvlOf(BytesPerToken(g.hiddenInt4, 0, g.topk), g) }

  function DispatchRdma(g: Geometry): nat { RdmaOf(BytesPerToken(g.hiddenInt4, g.topk, g.topk), g) }

  function CombineRdma(g: Geometry): nat { RdmaOf(BytesPerToken(g.hiddenInt4, 0, g.topk), g) }

  function MetadataNvl(localExperts: nat, g: Geometry): nat {
    (localExperts * NVL_PEERS + g.rdmaRanks * NVL_PEERS + localExperts * NVL_PEERS
     + g.rdmaRanks * g.channels * localExperts * NVL_PEERS) * 4
  }

  /** The count exchange and the streaming inbox of the metadata kernel on the RDMA side. */
  function MetadataRdma(localExperts: nat, g: Geometry): nat {
    2 * g.rdmaRanks * (NVL_PEERS + localExperts * NVL_PEERS + 1) * 4
    + 2 * g.rdmaRanks * g.channels * NVL_PEERS * localExperts * 4
  }

  /** What the kernels carve, sub-buffer by sub-buffer. */
  function DispatchNvlChain(token: nat, g: Geometry): seq<Field> {
    [Field(g.slots * token, NVL_PEERS, g.channels, 1),
     Field(g.rdmaRanks * 8, NVL_PEERS, g.channels, 1), Field(g.rdmaRanks * 8, NVL_PEERS, g.channels, 1),
     Field(8, NVL_PEERS, g.channels, 1), Field(8, NVL_PEERS, g.channels, 1)]
  }

  function CombineNvlChain(token: nat, g: Geometry): seq<Field> {
    [Field(g.slots * token, NVL_PEERS, g.channels, 1),
     Field(g.rdmaRanks * 8, NVL_PEERS, g.channels, 1), Field(g.rdmaRanks * 8, NVL_PEERS, g.channels, 1)]
  }

  function RdmaChain(token: nat, g: Geometry): seq<Field> {
    [Field(g.slots * token, g.rdmaRanks, g.channels, 2),
     Field(8, g.rdmaRanks, g.channels, 1), Field(8, g.rdmaRanks, g.channels, 1)]
  }

  function MetadataNvlChain(localExperts: nat, g: Geometry): seq<Field> {
    [Field(localExperts * NVL_PEERS * 4, 1, 1, 1),
     Field(g.rdmaRanks * 4, NVL_PEERS, 1, 1), Field(localExperts * 4, NVL_PEERS, 1, 1),
     Field(g.rdmaRanks * g.channels * localExperts * 4, NVL_PEERS, 1, 1)]
  }

  lemma TotalPrefix(chain: seq<Field>, n: nat)
    requires n < |chain|
    ensures Total(chain, n + 1) == Total(chain, n) + chain[n].Bytes()
  {
  }

  /** The region formulas are the sizes of what the kernels carve: every sub-buffer, and no slack. */
  lemma NvlRegionsMatchChains(token: nat, g: Geometry)
    ensures Total(DispatchNvlChain(token, g), 5) == DispatchNvlOf(token, g)
    ensures Total(CombineNvlChain(token, g), 3) == CombineNvlOf(token, g)
  {
    var d, c := DispatchNvlChain(token, g), CombineNvlChain(token, g);
    TotalPrefix(d, 0);
    TotalPrefix(d, 1);
    TotalPrefix(d, 2);
    TotalPrefix(d, 3);
    TotalPrefix(d, 4);
    TotalPrefix(c, 0);
    TotalPrefix(c, 1);
    TotalPrefix(c, 2);
  }

  lemma RdmaRegionMatchesChain(token: nat, g: Geometry)
    ensures Total(RdmaChain(token, g), 3) == RdmaOf(token, g)
  {
    var c := RdmaChain(token, g);
    TotalPrefix(c, 0);
    TotalPrefix(c, 1);
    TotalPrefix(c, 2);
    assert g.slots * token * g.rdmaRanks * g.channels * 2 == 2 * g.slots * token * g.rdmaRanks * g.channels;
  }

  lemma MetadataRegionMatchesChain(localExperts: nat, g: Geometry)
    ensures Total(MetadataNvlChain(localExperts, g), 4) == MetadataNvl(localExperts, g)
  {
    var c := MetadataNvlChain(localExperts, g);
    TotalPrefix(c, 0);
    TotalPrefix(c, 1);
    TotalPrefix(c, 2);
    TotalPrefix(c, 3);
  }

  // ---------------------------------------------------------------------------
  // What the slabs hold.
  // ---------------------------------------------------------------------------

  /** A token has room for its data, its source, and its ids and weights, and ends on the next 16 bytes. */
  lemma TokenHolds(h: nat, ids: nat, weights: nat)
    ensures h * 16 + 8 + ids * 4 + weights * 4 <= BytesPerToken(h, ids, weights) < h * 16 + 8 + ids * 4 + weights * 4 + 16
    ensures BytesPerToken(h, ids, weights) % 16 == 0
  {
    var raw := h * 16 + 8 + ids * 4 + weights * 4;
    AlignUpIs(raw, 16);
    Aligned(raw);
  }

  lemma Aligned(n: nat)
    ensures AlignUp(n, 16) % 16 == 0
  {
  }

  /** The NVL slabs of dispatch and of combine hold exactly what their indices reach: a token per ring slot; a
    * prefix word per RDMA rank, and in combine a head and a tail per RDMA rank; one head and one tail in
    * dispatch. */
  lemma NvlSlabsHold(token: nat, g: Geometry, i: nat)
    requires token > 0
    ensures Fits(DispatchNvlChain(token, g)[0].slab, i, token) <==> i < g.slots
    ensures Fits(CombineNvlChain(token, g)[0].slab, i, token) <==> i < g.slots
    ensures forall f :: 1 <= f <= 2 ==> (Fits(DispatchNvlChain(token, g)[f].slab, i, 8) <==> i < g.rdmaRanks)
    ensures forall f :: 3 <= f <= 4 ==> (Fits(DispatchNvlChain(token, g)[f].slab, i, 8) <==> i < 1)
    ensures forall f :: 1 <= f <= 2 ==> (Fits(CombineNvlChain(token, g)[f].slab, i, 8) <==> i < g.rdmaRanks)
  {
    FitsIff(g.slots, i, token);
    FitsIff(g.rdmaRanks, i, 8);
    FitsIff(1, i, 8);
  }

  lemma RdmaSlabsHold(token: nat, g: Geometry, i: nat)
    requires token > 0
    ensures Fits(RdmaChain(token, g)[0].slab, i, token) <==> i < g.slots
    ensures forall f :: 1 <= f <= 2 ==> (Fits(RdmaChain(token, g)[f].slab, i, 8) <==> i < 1)
  {
    FitsIff(g.slots, i, token);
    FitsIff(1, i, 8);
  }

  /** The metadata slabs hold a count per expert of the node, per RDMA rank, per local expert, and the inbox's
    * count per RDMA rank, channel and local expert; on the RDMA side a count per peer, per expert of the node and
    * one more, and the inbox's count per channel, peer and local expert. */
  lemma MetadataSlabsHold(e: nat, g: Geometry, i: nat)
    ensures Fits(MetadataNvlChain(e, g)[0].slab, i, 4) <==> i < e * NVL_PEERS
    ensures Fits(MetadataNvlChain(e, g)[1].slab, i, 4) <==> i < g.rdmaRanks
    ensures Fits(MetadataNvlChain(e, g)[2].slab, i, 4) <==> i < e
    ensures Fits(MetadataNvlChain(e, g)[3].slab, i, 4) <==> i < g.rdmaRanks * g.channels * e
    ensures Fits(MetadataRdmaChain(e, g)[0].slab, i, 4) <==> i < NVL_PEERS + e * NVL_PEERS + 1
    ensures Fits(MetadataRdmaChain(e, g)[1].slab, i, 4) <==> i < g.channels * NVL_PEERS * e
  {
    FitsIff(e * NVL_PEERS, i, 4);
    FitsIff(g.rdmaRanks, i, 4);
    FitsIff(e, i, 4);
    FitsIff(g.rdmaRanks * g.channels * e, i, 4);
    FitsIff(NVL_PEERS + e * NVL_PEERS + 1, i, 4);
    FitsIff(g.channels * NVL_PEERS * e, i, 4);
  }

  /** The inbox indices of (a, b, local expert) stay within the slab, and no two are the same. */
  lemma InboxIndex(a: nat, b: nat, e: nat, a': nat, b': nat, e': nat, na: nat, nb: nat, ne: nat)
    requires a < na && b < nb && e < ne && a' < na && b' < nb && e' < ne
    ensures (a * nb + b) * ne + e < na * nb * ne
    ensures (a * nb + b) * ne + e == (a' * nb + b') * ne + e' ==> a == a' && b == b' && e == e'
  {
    PairBound(a, b, na, nb);
    PairBound(a * nb + b, e, na * nb, ne);
    if (a * nb + b) * ne + e == (a' * nb + b') * ne + e' {
      TripleUnique(a, b, e, a', b', e', nb, ne);
    }
  }

  /** A block's carve of dispatch's NVL buffers. The pointer of the side that the others write moves together with
    * the pointer of the side that the block writes, and every buffer is the slab of the block's channel and of
    * the rank on the other side. */
  method CarveDispatchNvl(wsRr: Cursor, rsWr: Cursor, token: nat, g: Geometry, channel: nat, rsWrRank: nat, wsRrRank: nat)
    returns (x: AsymBuffer, start: AsymBuffer, end: AsymBuffer, head: AsymBuffer, tail: AsymBuffer)
    requires wsRr != rsWr && channel < g.channels && rsWrRank < NVL_PEERS && wsRrRank < NVL_PEERS
    modifies wsRr, rsWr
    ensures wsRr.at == old(wsRr.at) + DispatchNvlOf(token, g) && rsWr.at == old(rsWr.at) + DispatchNvlOf(token, g)
    ensures x.base == old(wsRr.at) + Address(DispatchNvlChain(token, g), Slab(0, 0, channel, rsWrRank))
    ensures start.base == old(wsRr.at) + Address(DispatchNvlChain(token, g), Slab(1, 0, channel, rsWrRank))
    ensures end.base == old(wsRr.at) + Address(DispatchNvlChain(token, g), Slab(2, 0, channel, rsWrRank))
    ensures head.base == old(rsWr.at) + Address(DispatchNvlChain(token, g), Slab(3, 0, channel, wsRrRank))
    ensures tail.base == old(wsRr.at) + Address(DispatchNvlChain(token, g), Slab(4, 0, channel, rsWrRank))
  {
    ghost var chain := DispatchNvlChain(token, g);
    NvlRegionsMatchChains(token, g);
    TotalPrefix(chain, 0);
    TotalPrefix(chain, 1);
    TotalPrefix(chain, 2);
    TotalPrefix(chain, 3);
    TotalPrefix(chain, 4);
    x := new AsymBuffer(wsRr, 1, g.slots * token, NVL_PEERS, channel, g.channels, rsWrRank);
    x.AdvanceAlso(rsWr);
    start := new AsymBuffer(wsRr, 8, g.rdmaRanks, NVL_PEERS, channel, g.channels, rsWrRank);
    start.AdvanceAlso(rsWr);
    end := new AsymBuffer(wsRr, 8, g.rdmaRanks, NVL_PEERS, channel, g.channels, rsWrRank);
    end.AdvanceAlso(rsWr);
    head := new AsymBuffer(rsWr, 8, 1, NVL_PEERS, channel, g.channels, wsRrRank);
    head.AdvanceAlso(wsRr);
    tail := new AsymBuffer(wsRr, 8, 1, NVL_PEERS, channel, g.channels, rsWrRank);
    tail.AdvanceAlso(rsWr);
  }

  /** Combine's, on the sending side. */
  method CarveCombineNvl(dst: Cursor, local: Cursor, token: nat, g: Geometry, channel: nat, nvlRank: nat, dstRank: nat)
    returns (x: AsymBuffer, head: AsymBuffer, tail: AsymBuffer)
    requires dst != local && channel < g.channels && nvlRank < NVL_PEERS && dstRank < NVL_PEERS
    modifies dst, local
    ensures dst.at == old(dst.at) + CombineNvlOf(token, g) && local.at == old(local.at) + CombineNvlOf(token, g)
    ensures x.base == old(dst.at) + Address(CombineNvlChain(token, g), Slab(0, 0, channel, nvlRank))
    ensures head.base == old(local.at) + Address(CombineNvlChain(token, g), Slab(1, 0, channel, dstRank))
    ensures tail.base == old(dst.at) + Address(CombineNvlChain(token, g), Slab(2, 0, channel, nvlRank))
  {
    ghost var chain := CombineNvlChain(token, g);
    NvlRegionsMatchChains(token, g);
    TotalPrefix(chain, 0);
    TotalPrefix(chain, 1);
    TotalPrefix(chain, 2);
    x := new AsymBuffer(dst, 1, g.slots * token, NVL_PEERS, channel, g.channels, nvlRank);
    x.AdvanceAlso(local);
    head := new AsymBuffer(local, 8, g.rdmaRanks, NVL_PEERS, channel, g.channels, dstRank);
    head.AdvanceAlso(dst);
    tail := new AsymBuffer(dst, 8, g.rdmaRanks, NVL_PEERS, channel, g.channels, nvlRank);
    tail.AdvanceAlso(local);
  }

  /** A prefix word per (buffer, channel, peer, RDMA rank), no two of which share a byte. */
  lemma PrefixWordsDisjoint(token: nat, g: Geometry, c: Slab, r: nat, d: Slab, q: nat)
    requires 1 <= c.field <= 2 && c.half == 0 && c.channel < g.channels && c.rank < NVL_PEERS && r < g.rdmaRanks
    requires 1 <= d.field <= 2 && d.half == 0 && d.channel < g.channels && d.rank < NVL_PEERS && q < g.rdmaRanks
    requires c != d || r != q
    ensures Disjoint(Address(DispatchNvlChain(token, g), c) + 8 * r, 8, Address(DispatchNvlChain(token, g), d) + 8 * q, 8)
  {
    FitsIff(g.rdmaRanks, r, 8);
    FitsIff(g.rdmaRanks, q, 8);
    EntriesDisjoint(DispatchNvlChain(token, g), c, r, 8, d, q, 8);
  }

  // ---------------------------------------------------------------------------
  // Hints.
  // ---------------------------------------------------------------------------

  function NvlHint(g: Geometry, internode: bool): nat {
    var widest := g.(topk := MAX_TOPK);
    AlignUp(DispatchNvl(widest) + CombineNvl(widest) + if internode then MetadataNvl(MAX_LOCAL_EXPERTS, g) else 0, 128)
  }

  function RdmaHint(g: Geometry): nat {
    var widest := g.(topk := MAX_TOPK);
    AlignUp(DispatchRdma(widest) + CombineRdma(widest), 128)
  }

  lemma AlignUpIs(n: nat, a: nat)
    requires a > 0
    ensures n <= AlignUp(n, a) < n + a
  {
    CeilDiv(n, a);
    var q := (n + a - 1) / a;
    assert n + a - 1 == q * a + (n + a - 1) % a;
  }

  /** Tokens take 16 bytes per data vector and a rounded-up rest. */
  lemma TokenBytes(h: nat, i: nat, w: nat)
    ensures BytesPerToken(h, i, w) == h * 16 + (23 + 4 * i + 4 * w) / 16 * 16
  {
  }

  lemma MulMono(a: nat, b: nat, c: nat, d: nat)
    requires a <= b && c <= d
    ensures a * c <= b * d
  {
    MulLe(a, b, c);
    MulLe(c, d, b);
  }

  lemma NvlMono(token: nat, token': nat, g: Geometry)
    requires token <= token'
    ensures DispatchNvlOf(token, g) <= DispatchNvlOf(token', g)
    ensures CombineNvlOf(token, g) <= CombineNvlOf(token', g)
  {
    MulLe(token, token', g.slots);
    MulLe(g.slots * token, g.slots * token', NVL_PEERS * g.channels);
    assert g.slots * token * NVL_PEERS * g.channels == g.slots * token * (NVL_PEERS * g.channels);
    assert g.slots * token' * NVL_PEERS * g.channels == g.slots * token' * (NVL_PEERS * g.channels);
  }

  lemma MetadataMono(e: nat, e': nat, g: Geometry)
    requires e <= e'
    ensures MetadataNvl(e, g) <= MetadataNvl(e', g)
  {
    MulLe(e, e', g.rdmaRanks * g.channels);
    assert g.rdmaRanks * g.channels * e * NVL_PEERS == NVL_PEERS * (e * (g.rdmaRanks * g.channels));
    assert g.rdmaRanks * g.channels * e' * NVL_PEERS == NVL_PEERS * (e' * (g.rdmaRanks * g.channels));
  }

  lemma SameExceptTopk(token: nat, g: Geometry, topk: nat)
    ensures DispatchNvlOf(token, g.(topk := topk)) == DispatchNvlOf(token, g)
    ensures CombineNvlOf(token, g.(topk := topk)) == CombineNvlOf(token, g)
    ensures RdmaOf(token, g.(topk := topk)) == RdmaOf(token, g)
  {
  }

  lemma TokenMono(h: nat, i: nat, w: nat, i': nat, w': nat)
    requires i <= i' && w <= w'
    ensures BytesPerToken(h, i, w) <= BytesPerToken(h, i', w')
  {
  }

  /** The NVL hint holds the dispatch, combine and metadata regions, one after the other, for every top-k up to
    * 128 and every number of local experts up to 64. */
  lemma NvlHintSuffices(g: Geometry, localExperts: nat)
    requires g.topk <= MAX_TOPK && localExperts <= MAX_LOCAL_EXPERTS
    ensures DispatchNvl(g) + CombineNvl(g) + MetadataNvl(localExperts, g) <= NvlHint(g, true)
  {
    var w := g.(topk := MAX_TOPK);
    TokenMono(g.hiddenInt4, g.topk, g.topk, MAX_TOPK, MAX_TOPK);
    TokenMono(g.hiddenInt4, 0, g.topk, 0, MAX_TOPK);
    NvlMono(BytesPerToken(g.hiddenInt4, g.topk, g.topk), BytesPerToken(g.hiddenInt4, MAX_TOPK, MAX_TOPK), g);
    NvlMono(BytesPerToken(g.hiddenInt4, 0, g.topk), BytesPerToken(g.hiddenInt4, 0, MAX_TOPK), g);
    SameExceptTopk(BytesPerToken(g.hiddenInt4, MAX_TOPK, MAX_TOPK), g, MAX_TOPK);
    SameExceptTopk(BytesPerToken(g.hiddenInt4, 0, MAX_TOPK), g, MAX_TOPK);
    MetadataMono(localExperts, MAX_LOCAL_EXPERTS, g);
    AlignUpIs(DispatchNvl(w) + CombineNvl(w) + MetadataNvl(MAX_LOCAL_EXPERTS, g), 128);
  }

  /** The whole NVL buffer as one chain: dispatch, then combine, then the metadata slabs. */
  function NvlChain(g: Geometry, localExperts: nat): seq<Field> {
    DispatchNvlChain(BytesPerToken(g.hiddenInt4, g.topk, g.topk), g)
    + CombineNvlChain(BytesPerToken(g.hiddenInt4, 0, g.topk), g)
    + MetadataNvlChain(localExperts, g)
  }

  lemma {:induction false} TotalOfFirst(a: seq<Field>, b: seq<Field>, n: nat)
    requires n <= |a|
    ensures Total(a + b, n) == Total(a, n)
  {
    if n > 0 {
      TotalOfFirst(a, b, n - 1);
    }
  }

  lemma {:induction false} TotalOfConcat(a: seq<Field>, b: seq<Field>, n: nat)
    requires n <= |b|
    ensures Total(a + b, |a| + n) == Total(a, |a|) + Total(b, n)
  {
    if n == 0 {
      TotalOfFirst(a, b, |a|);
    } else {
      TotalOfConcat(a, b, n - 1);
    }
  }

  /** Combine's base and the metadata's base are where the chains before them end, and everything lies inside
    * the allocation; with CarveDisjoint, no two slabs of the three regions overlap on any rank or channel. */
  lemma NvlPartition(g: Geometry, localExperts: nat)
    requires g.topk <= MAX_TOPK && localExperts <= MAX_LOCAL_EXPERTS
    ensures |NvlChain(g, localExperts)| == 12
    ensures Total(NvlChain(g, localExperts), 5) == DispatchNvl(g)
    ensures Total(NvlChain(g, localExperts), 8) == DispatchNvl(g) + CombineNvl(g)
    ensures Total(NvlChain(g, localExperts), 12) <= NvlHint(g, true)
  {
    var d := DispatchNvlChain(BytesPerToken(g.hiddenInt4, g.topk, g.topk), g);
    var c := CombineNvlChain(BytesPerToken(g.hiddenInt4, 0, g.topk), g);
    var m := MetadataNvlChain(localExperts, g);
    NvlRegionsMatchChains(BytesPerToken(g.hiddenInt4, g.topk, g.topk), g);
    NvlRegionsMatchChains(BytesPerToken(g.hiddenInt4, 0, g.topk), g);
    MetadataRegionMatchesChain(localExperts, g);
    TotalOfConcat(d, c, 3);
    TotalOfFirst(d, c, 5);
    TotalOfFirst(d + c, m, 5);
    TotalOfFirst(d + c, m, 8);
    TotalOfConcat(d + c, m, 4);
    NvlHintSuffices(g, localExperts);
  }

  /** No two slabs of dispatch, combine and metadata overlap on any rank or channel, and each is inside the
    * allocation of the hint. */
  lemma NvlSlabsApart(g: Geometry, localExperts: nat, c: Slab, d: Slab)
    requires g.topk <= MAX_TOPK && localExperts <= MAX_LOCAL_EXPERTS
    requires InChain(NvlChain(g, localExperts), c) && InChain(NvlChain(g, localExperts), d) && c != d
    ensures var chain := NvlChain(g, localExperts);
            && Disjoint(Address(chain, c), chain[c.field].slab, Address(chain, d), chain[d.field].slab)
            && Address(chain, c) + chain[c.field].slab <= NvlHint(g, true)
  {
    CarveDisjoint(NvlChain(g, localExperts), c, d);
    SlabInside(NvlChain(g, localExperts), c);
    NvlPartition(g, localExperts);
  }

  // ---------------------------------------------------------------------------
  // The RDMA hint reserves nothing for the metadata.
  // ---------------------------------------------------------------------------

  /** Bytes by which the widest tokens of the hint exceed those of a launch, per slot of dispatch and combine. */
  function TokenSlack(topk: nat): int {
    (23 + 8 * MAX_TOPK) / 16 * 16 - (23 + 8 * topk) / 16 * 16 + ((23 + 4 * MAX_TOPK) / 16 * 16 - (23 + 4 * topk) / 16 * 16)
  }

  /** The room that the hint leaves past dispatch and combine, before it is rounded up to 128 bytes. */
  lemma RdmaRoom(g: Geometry)
    ensures DispatchRdma(g.(topk := MAX_TOPK)) + CombineRdma(g.(topk := MAX_TOPK)) - DispatchRdma(g) - CombineRdma(g)
         == 2 * (g.slots * g.rdmaRanks * g.channels) * TokenSlack(g.topk)
  {
    var h, k := g.hiddenInt4, g.topk;
    var a, b := BytesPerToken(h, MAX_TOPK, MAX_TOPK), BytesPerToken(h, k, k);
    var c, d := BytesPerToken(h, 0, MAX_TOPK), BytesPerToken(h, 0, k);
    SlackIs(h, k);
    SameExceptTopk(a, g, MAX_TOPK);
    SameExceptTopk(c, g, MAX_TOPK);
    RdmaLinear(a, b, c, d, g, TokenSlack(k));
  }

  lemma SlackIs(h: nat, k: nat)
    ensures TokenSlack(k) == BytesPerToken(h, MAX_TOPK, MAX_TOPK) - BytesPerToken(h, k, k)
                             + BytesPerToken(h, 0, MAX_TOPK) - BytesPerToken(h, 0, k)
  {
    TokenBytes(h, k, k);
    TokenBytes(h, MAX_TOPK, MAX_TOPK);
    TokenBytes(h, 0, k);
    TokenBytes(h, 0, MAX_TOPK);
  }

  lemma RdmaLinear(a: nat, b: nat, c: nat, d: nat, g: Geometry, slack: int)
    requires slack == a - b + c - d
    ensures RdmaOf(a, g) + RdmaOf(c, g) - RdmaOf(b, g) - RdmaOf(d, g)
         == 2 * (g.slots * g.rdmaRanks * g.channels) * slack
  {
    RdmaFactor(a, g);
    RdmaFactor(b, g);
    RdmaFactor(c, g);
    RdmaFactor(d, g);
    var n := 2 * (g.slots * g.rdmaRanks * g.channels);
    assert n * slack == n * a - n * b + n * c - n * d;
  }

  lemma RdmaFactor(t: nat, g: Geometry)
    ensures RdmaOf(t, g) == 2 * (g.slots * g.rdmaRanks * g.channels) * t + 2 * 8 * g.rdmaRanks * g.channels
  {
    assert 2 * g.slots * t * g.rdmaRanks * g.channels == 2 * (g.slots * g.rdmaRanks * g.channels) * t;
  }

  lemma MetadataRdmaIs(e: nat, g: Geometry)
    ensures MetadataRdma(e, g) == 8 * g.rdmaRanks * (9 + 8 * e) + 64 * (g.rdmaRanks * g.channels * e)
  {
    assert 2 * g.rdmaRanks * (NVL_PEERS + e * NVL_PEERS + 1) * 4 == 8 * g.rdmaRanks * (9 + 8 * e);
    assert 2 * g.rdmaRanks * g.channels * NVL_PEERS * e * 4 == 64 * (g.rdmaRanks * g.channels * e);
  }

  /** The two RDMA regions and the metadata behind them fit the hint. */
  predicate RdmaFits(g: Geometry, localExperts: nat) {
    DispatchRdma(g) + CombineRdma(g) + MetadataRdma(localExperts, g) <= RdmaHint(g)
  }

  /** What rounding up to 128 bytes adds. */
  function Rounding(n: nat): nat { (128 - n % 128) % 128 }

  lemma RoundingIs(n: nat)
    ensures AlignUp(n, 128) == n + Rounding(n)
  {
  }

  function WidestRdma(g: Geometry): nat {
    DispatchRdma(g.(topk := MAX_TOPK)) + CombineRdma(g.(topk := MAX_TOPK))
  }

  /** For every geometry: the metadata fits exactly if the room that narrower tokens leave in the hint, and its
    * rounding, hold it. */
  lemma RdmaFitsIff(g: Geometry, localExperts: nat)
    ensures RdmaFits(g, localExperts) <==>
              8 * g.rdmaRanks * (9 + 8 * localExperts) + 64 * (g.rdmaRanks * g.channels * localExperts)
                <= 2 * (g.slots * g.rdmaRanks * g.channels) * TokenSlack(g.topk) + Rounding(WidestRdma(g))
  {
    RdmaRoom(g);
    MetadataRdmaIs(localExperts, g);
    RoundingIs(WidestRdma(g));
  }

  /** Bytes of metadata, and of room, per RDMA rank. */
  function MetadataPerRank(g: Geometry, localExperts: nat): nat {
    8 * (9 + 8 * localExperts) + 64 * (g.channels * localExperts)
  }

  function RoomPerRank(g: Geometry): int { 2 * (g.slots * g.channels) * TokenSlack(g.topk) }

  lemma PerRank(g: Geometry, localExperts: nat)
    ensures 8 * g.rdmaRanks * (9 + 8 * localExperts) + 64 * (g.rdmaRanks * g.channels * localExperts)
         == g.rdmaRanks * MetadataPerRank(g, localExperts)
    ensures 2 * (g.slots * g.rdmaRanks * g.channels) * TokenSlack(g.topk) == g.rdmaRanks * RoomPerRank(g)
  {
    RankFactor(g.rdmaRanks, 9 + 8 * localExperts, g.channels * localExperts);
    assert g.rdmaRanks * g.channels * localExperts == g.rdmaRanks * (g.channels * localExperts);
    RoomFactor(g.rdmaRanks, g.slots * g.channels, TokenSlack(g.topk));
    assert g.slots * g.rdmaRanks * g.channels == g.rdmaRanks * (g.slots * g.channels);
  }

  lemma RankFactor(r: int, a: int, b: int)
    ensures 8 * r * a + 64 * (r * b) == r * (8 * a + 64 * b)
  {
  }

  lemma RoomFactor(r: int, a: int, t: int)
    ensures 2 * (r * a) * t == r * (2 * a * t)
  {
    assert r * a * t == r * (a * t);
  }

  lemma RankGap(r: int, a: int, b: int, gap: int)
    requires r >= 1 && gap >= 0 && b + gap <= a
    ensures r * b + gap <= r * a
  {
    MulLe(b + gap, a, r);
    assert r * (b + gap) == r * b + r * gap;
    MulLe(1, r, gap);
  }

  lemma RdmaFitsRanks(g: Geometry, localExperts: nat)
    ensures RdmaFits(g, localExperts) <==>
              g.rdmaRanks * MetadataPerRank(g, localExperts) <= g.rdmaRanks * RoomPerRank(g) + Rounding(WidestRdma(g))
  {
    RdmaFitsIff(g, localExperts);
    PerRank(g, localExperts);
  }

  lemma RankDecides(r: nat, metadata: int, room: int, rounding: nat)
    requires rounding < 128
    ensures metadata <= room ==> r * metadata <= r * room + rounding
    ensures r >= 1 && room + 128 <= metadata ==> r * room + rounding < r * metadata
  {
    if metadata <= room {
      MulLe(metadata, room, r);
    } else if r >= 1 && room + 128 <= metadata {
      RankGap(r, metadata, room, 128);
    }
  }

  /** Rank by rank, whatever the hidden size: it fits if the room holds the metadata, and does not if the room is
    * 128 bytes short. */
  lemma RdmaByRank(g: Geometry, localExperts: nat)
    ensures MetadataPerRank(g, localExperts) <= RoomPerRank(g) ==> RdmaFits(g, localExperts)
    ensures g.rdmaRanks >= 1 && RoomPerRank(g) + 128 <= MetadataPerRank(g, localExperts) ==> !RdmaFits(g, localExperts)
  {
    RdmaFitsRanks(g, localExperts);
    RankDecides(g.rdmaRanks, MetadataPerRank(g, localExperts), RoomPerRank(g), Rounding(WidestRdma(g)));
  }

  lemma SlackValues(topk: nat)
    ensures topk <= 125 ==> TokenSlack(topk) >= 48
    ensures TokenSlack(126) == 32 && TokenSlack(127) == 16 && TokenSlack(128) == 0
    ensures topk >= MAX_TOPK ==> TokenSlack(topk) <= 0
  {
  }

  /** At the full top-k of the hint there is no room at all: the metadata of even one expert does not fit, for
    * any ring depth, channels, ranks and hidden size. */
  lemma RdmaHintFails(g: Geometry, localExperts: nat)
    requires g.topk >= MAX_TOPK && localExperts >= 1 && g.rdmaRanks >= 1
    ensures !RdmaFits(g, localExperts)
  {
    FullHintRoom(g);
    MetadataLeast(g, localExperts);
    RdmaByRank(g, localExperts);
  }

  lemma FullHintRoom(g: Geometry)
    requires g.topk >= MAX_TOPK
    ensures RoomPerRank(g) <= 0
  {
    SlackValues(g.topk);
    MulLe(TokenSlack(g.topk), 0, 2 * (g.slots * g.channels));
  }

  lemma MetadataLeast(g: Geometry, localExperts: nat)
    requires localExperts >= 1
    ensures MetadataPerRank(g, localExperts) >= 136
  {
    MulNonNeg(g.channels, localExperts);
  }

  lemma RoomGrows(s: nat, c: nat, slack: nat, depth: nat, least: nat)
    requires depth <= s && least <= slack
    ensures 2 * (depth * least) * c <= 2 * (s * c) * slack
  {
    MulMono(depth, s, least, slack);
    MulLe(depth * least, s * slack, c);
    assert s * slack * c == s * c * slack;
  }

  /** At a ring depth of 128 tokens or more it fits for every top-k up to 125. */
  lemma RdmaHintSuffices(g: Geometry, localExperts: nat)
    requires g.topk <= 125 && localExperts <= MAX_LOCAL_EXPERTS && g.slots >= 128 && g.channels >= 1
    ensures RdmaFits(g, localExperts)
  {
    SlackValues(g.topk);
    RoomGrows(g.slots, g.channels, TokenSlack(g.topk), 128, 48);
    MetadataMost(g, localExperts);
    RdmaByRank(g, localExperts);
  }

  lemma MetadataMost(g: Geometry, localExperts: nat)
    requires localExperts <= MAX_LOCAL_EXPERTS
    ensures MetadataPerRank(g, localExperts) <= 4168 + 4096 * g.channels
  {
    MulLe(localExperts, MAX_LOCAL_EXPERTS, g.channels);
  }

  /** At that depth, with all local experts and more than one node, exactly these top-k fit. */
  lemma RdmaDepth128Iff(g: Geometry)
    requires g.topk <= MAX_TOPK && g.slots == 128 && g.channels >= 1 && g.rdmaRanks >= 2
    ensures RdmaFits(g, MAX_LOCAL_EXPERTS) <==> (g.topk <= 125 || (g.topk == 126 && g.channels >= 2))
  {
    if g.topk <= 125 {
      RdmaHintSuffices(g, MAX_LOCAL_EXPERTS);
    } else {
      SlackValues(g.topk);
      RdmaFitsRanks(g, MAX_LOCAL_EXPERTS);
      if g.topk == 126 && g.channels >= 2 {
        RdmaByRank(g, MAX_LOCAL_EXPERTS);
      } else {
        RanksShort(g.rdmaRanks, MetadataPerRank(g, MAX_LOCAL_EXPERTS), RoomPerRank(g));
      }
    }
  }

  /** Two ranks that are short of 72 bytes each are short of more than a rounding. */
  lemma RanksShort(r: int, a: int, b: int)
    requires r >= 2 && b + 72 <= a
    ensures r * b + 144 <= r * a
  {
    MulLe(b + 72, a, r);
    assert r * (b + 72) == r * b + r * 72;
  }

  /** The count exchange and the streaming inbox, each with a send and a receive half. */
  function MetadataRdmaChain(localExperts: nat, g: Geometry): seq<Field> {
    [Field((NVL_PEERS + localExperts * NVL_PEERS + 1) * 4, g.rdmaRanks, 1, 2),
     Field(g.channels * NVL_PEERS * localExperts * 4, g.rdmaRanks, 1, 2)]
  }

  /** The whole RDMA buffer as one chain. */
  function RdmaBuffer(g: Geometry, localExperts: nat): seq<Field> {
    RdmaChain(BytesPerToken(g.hiddenInt4, g.topk, g.topk), g) + RdmaChain(BytesPerToken(g.hiddenInt4, 0, g.topk), g)
    + MetadataRdmaChain(localExperts, g)
  }

  lemma MetadataRdmaMatchesChain(localExperts: nat, g: Geometry)
    ensures Total(MetadataRdmaChain(localExperts, g), 2) == MetadataRdma(localExperts, g)
  {
    var c := MetadataRdmaChain(localExperts, g);
    TotalPrefix(c, 0);
    TotalPrefix(c, 1);
    assert g.channels * NVL_PEERS * localExperts * 4 * g.rdmaRanks * 1 * 2
        == 2 * g.rdmaRanks * g.channels * NVL_PEERS * localExperts * 4;
  }

  /** Combine's base and the metadata's base are where the chains before them end. */
  lemma RdmaPartition(g: Geometry, localExperts: nat)
    ensures |RdmaBuffer(g, localExperts)| == 8
    ensures Total(RdmaBuffer(g, localExperts), 3) == DispatchRdma(g)
    ensures Total(RdmaBuffer(g, localExperts), 6) == DispatchRdma(g) + CombineRdma(g)
    ensures Total(RdmaBuffer(g, localExperts), 8) == DispatchRdma(g) + CombineRdma(g) + MetadataRdma(localExperts, g)
  {
    var d := RdmaChain(BytesPerToken(g.hiddenInt4, g.topk, g.topk), g);
    var c := RdmaChain(BytesPerToken(g.hiddenInt4, 0, g.topk), g);
    var m := MetadataRdmaChain(localExperts, g);
    RdmaRegionMatchesChain(BytesPerToken(g.hiddenInt4, g.topk, g.topk), g);
    RdmaRegionMatchesChain(BytesPerToken(g.hiddenInt4, 0, g.topk), g);
    MetadataRdmaMatchesChain(localExperts, g);
    TotalOfConcat(d, c, 3);
    TotalOfFirst(d, c, 3);
    TotalOfFirst(d + c, m, 3);
    TotalOfFirst(d + c, m, 6);
    TotalOfConcat(d + c, m, 2);
  }

  /** On the RDMA side too no two slabs overlap; they are inside the allocation wherever the hint suffices. */
  lemma RdmaSlabsApart(g: Geometry, localExperts: nat, c: Slab, d: Slab)
    requires InChain(RdmaBuffer(g, localExperts), c) && InChain(RdmaBuffer(g, localExperts), d) && c != d
    ensures var chain := RdmaBuffer(g, localExperts);
            && Disjoint(Address(chain, c), chain[c.field].slab, Address(chain, d), chain[d.field].slab)
            && (RdmaFits(g, localExperts) ==> Address(chain, c) + chain[c.field].slab <= RdmaHint(g))
  {
    CarveDisjoint(RdmaBuffer(g, localExperts), c, d);
    SlabInside(RdmaBuffer(g, localExperts), c);
    RdmaPartition(g, localExperts);
  }

  /** A block's carve of the data, head and tail buffers of one RDMA chain: the accessors reach the slabs of the
    * block's channel. */
  method CarveRdma(gbl: Cursor, token: nat, g: Geometry, channel: nat)
    returns (data: SymBuffer, head: SymBuffer, tail: SymBuffer)
    requires channel < g.channels
    modifies gbl
    ensures gbl.at == old(gbl.at) + RdmaOf(token, g)
    ensures forall rank: nat :: rank < g.rdmaRanks ==>
              && data.SendBuffer(rank) == old(gbl.at) + Address(RdmaChain(token, g), Slab(0, 0, channel, rank))
              && data.RecvBuffer(rank) == old(gbl.at) + Address(RdmaChain(token, g), Slab(0, 1, channel, rank))
              && head.SendBuffer(rank) == old(gbl.at) + Address(RdmaChain(token, g), Slab(1, 0, channel, rank))
              && tail.SendBuffer(rank) == old(gbl.at) + Address(RdmaChain(token, g), Slab(2, 0, channel, rank))
  {
    ghost var base, chain := gbl.at, RdmaChain(token, g);
    RdmaRegionMatchesChain(token, g);
    TotalPrefix(chain, 0);
    TotalPrefix(chain, 1);
    TotalPrefix(chain, 2);
    data := new SymBuffer(gbl, 1, g.slots * token, g.rdmaRanks, channel, g.channels, true);
    head := new SymBuffer(gbl, 8, 1, g.rdmaRanks, channel, g.channels, false);
    tail := new SymBuffer(gbl, 8, 1, g.rdmaRanks, channel, g.channels, false);
    forall rank: nat | rank < g.rdmaRanks
      ensures data.SendBuffer(rank) == base + Address(chain, Slab(0, 0, channel, rank))
      ensures data.RecvBuffer(rank) == base + Address(chain, Slab(0, 1, channel, rank))
      ensures head.SendBuffer(rank) == base + Address(chain, Slab(1, 0, channel, rank))
      ensures tail.SendBuffer(rank) == base + Address(chain, Slab(2, 0, channel, rank)) {
      AccessorsReachSlabs(data, chain, 0, channel, rank, base);
      AccessorsReachSlabs(head, chain, 1, channel, rank, base);
      AccessorsReachSlabs(tail, chain, 2, channel, rank, base);
    }
  }

  // ---------------------------------------------------------------------------
  // Intranode sections.
  // ---------------------------------------------------------------------------

  /** Bytes of dispatch's intranode sub-buffers: the prefix matrix, four words per channel and rank, and per ring
    * slot the row, a source index, and 64-bit ids and weights. */
  function DispatchBytes(ranks: nat, g: Geometry): nat {
    var n := g.channels * ranks;
    ranks * ranks * 4 + 32 * n + n * g.slots * (g.hiddenInt4 * 16 + 4 + g.topk * 8 + g.topk * 4)
  }

  function CombineBytes(ranks: nat, g: Geometry): nat {
    var n := g.channels * ranks;
    16 * n + n * g.slots * (g.hiddenInt4 * 16 + 4 + g.topk * 4)
  }

  function DispatchSection(ranks: nat, g: Geometry): nat { AlignUp(DispatchBytes(ranks, g), 128) }

  function CombineSection(ranks: nat, g: Geometry): nat { AlignUp(CombineBytes(ranks, g), 128) }

  /** What the kernels carve from a rank's buffer; the rest of dispatch's section is padding, and combine skips
    * the source indices. */
  function DispatchIntraChain(ranks: nat, g: Geometry): seq<Field> {
    [Field(ranks * ranks * 4, 1, 1, 1),
     Field(8, ranks, g.channels, 1), Field(8, ranks, g.channels, 1),
     Field(8, ranks, g.channels, 1), Field(8, ranks, g.channels, 1),
     Field(g.slots * g.hiddenInt4 * 16, ranks, g.channels, 1), Field(g.slots * 4, ranks, g.channels, 1),
     Field(g.slots * g.topk * 8, ranks, g.channels, 1), Field(g.slots * g.topk * 4, ranks, g.channels, 1)]
  }

  function CombineIntraChain(ranks: nat, g: Geometry): seq<Field> {
    [Field(8, ranks, g.channels, 1), Field(8, ranks, g.channels, 1),
     Field(g.slots * g.hiddenInt4 * 16, ranks, g.channels, 1),
     Field(g.slots * 4, ranks, g.channels, 1), Field(g.slots * g.topk * 4, ranks, g.channels, 1)]
  }

  function IntraChain(ranks: nat, g: Geometry): seq<Field> {
    DispatchIntraChain(ranks, g) + [Field(Rounding(DispatchBytes(ranks, g)), 1, 1, 1)] + CombineIntraChain(ranks, g)
  }

  /** One field per ring: n slabs of b bytes for each of s slots. */
  lemma RingBytes(s: nat, b: nat, ranks: nat, channels: nat)
    ensures Field(s * b, ranks, channels, 1).Bytes() == channels * ranks * s * b
  {
    assert s * b * ranks * channels == channels * ranks * s * b;
  }

  lemma WordBytes(ranks: nat, channels: nat)
    ensures Field(8, ranks, channels, 1).Bytes() == 8 * (channels * ranks)
  {
  }

  lemma SlotParts(m: nat, h: nat, k: nat)
    ensures m * (h * 16 + 4 + k * 8 + k * 4) == m * (h * 16) + m * 4 + m * (k * 8) + m * (k * 4)
    ensures m * (h * 16 + 4 + k * 4) == m * (h * 16) + m * 4 + m * (k * 4)
  {
  }

  lemma DispatchIntraTotal(ranks: nat, g: Geometry)
    ensures Total(DispatchIntraChain(ranks, g), 9) == DispatchBytes(ranks, g)
  {
    var c, s, h, k := DispatchIntraChain(ranks, g), g.slots, g.hiddenInt4, g.topk;
    RingFields(ranks, g);
    WordBytes(ranks, g.channels);
    SlotParts(g.channels * ranks * s, h, k);
    TotalPrefix(c, 0);
    TotalPrefix(c, 1);
    TotalPrefix(c, 2);
    TotalPrefix(c, 3);
    TotalPrefix(c, 4);
    TotalPrefix(c, 5);
    TotalPrefix(c, 6);
    TotalPrefix(c, 7);
    TotalPrefix(c, 8);
  }

  lemma RingFields(ranks: nat, g: Geometry)
    ensures Field(g.slots * g.hiddenInt4 * 16, ranks, g.channels, 1).Bytes() == g.channels * ranks * g.slots * (g.hiddenInt4 * 16)
    ensures Field(g.slots * 4, ranks, g.channels, 1).Bytes() == g.channels * ranks * g.slots * 4
    ensures Field(g.slots * g.topk * 8, ranks, g.channels, 1).Bytes() == g.channels * ranks * g.slots * (g.topk * 8)
    ensures Field(g.slots * g.topk * 4, ranks, g.channels, 1).Bytes() == g.channels * ranks * g.slots * (g.topk * 4)
  {
    RingBytes(g.slots, g.hiddenInt4 * 16, ranks, g.channels);
    RingBytes(g.slots, 4, ranks, g.channels);
    RingBytes(g.slots, g.topk * 8, ranks, g.channels);
    RingBytes(g.slots, g.topk * 4, ranks, g.channels);
    assert g.slots * g.hiddenInt4 * 16 == g.slots * (g.hiddenInt4 * 16);
    assert g.slots * g.topk * 8 == g.slots * (g.topk * 8) && g.slots * g.topk * 4 == g.slots * (g.topk * 4);
  }

  lemma CombineIntraTotal(ranks: nat, g: Geometry)
    ensures Total(CombineIntraChain(ranks, g), 5) == CombineBytes(ranks, g)
  {
    var c, s, h, k := CombineIntraChain(ranks, g), g.slots, g.hiddenInt4, g.topk;
    RingFields(ranks, g);
    WordBytes(ranks, g.channels);
    SlotParts(g.channels * ranks * s, h, k);
    TotalPrefix(c, 0);
    TotalPrefix(c, 1);
    TotalPrefix(c, 2);
    TotalPrefix(c, 3);
    TotalPrefix(c, 4);
  }

  /** Dispatch's carve ends inside its section, combine's starts where the section ends, and ends inside its
    * own. */
  lemma IntranodePartition(ranks: nat, g: Geometry)
    ensures |IntraChain(ranks, g)| == 15
    ensures Total(IntraChain(ranks, g), 9) == DispatchBytes(ranks, g) <= DispatchSection(ranks, g)
    ensures Total(IntraChain(ranks, g), 10) == DispatchSection(ranks, g)
    ensures Total(IntraChain(ranks, g), 15) <= DispatchSection(ranks, g) + CombineSection(ranks, g)
  {
    var d, c := DispatchIntraChain(ranks, g), CombineIntraChain(ranks, g);
    var pad := [Field(Rounding(DispatchBytes(ranks, g)), 1, 1, 1)];
    DispatchIntraTotal(ranks, g);
    CombineIntraTotal(ranks, g);
    RoundingIs(DispatchBytes(ranks, g));
    RoundingIs(CombineBytes(ranks, g));
    TotalPrefix(pad, 0);
    TotalOfFirst(d, pad, 9);
    TotalOfConcat(d, pad, 1);
    TotalOfFirst(d + pad, c, 9);
    TotalOfFirst(d + pad, c, 10);
    TotalOfConcat(d + pad, c, 5);
  }

  /** The intranode slabs hold exactly what their indices reach: the matrix, a word per channel and rank, and per ring
    * slot the row's vectors, a source index, and a 64-bit id and a weight per k. */
  lemma IntranodeSlabsHold(ranks: nat, g: Geometry, i: nat)
    ensures Fits(DispatchIntraChain(ranks, g)[0].slab, i, 4) <==> i < ranks * ranks
    ensures forall f :: 1 <= f <= 4 ==> (Fits(DispatchIntraChain(ranks, g)[f].slab, i, 8) <==> i < 1)
    ensures forall f :: 0 <= f <= 1 ==> (Fits(CombineIntraChain(ranks, g)[f].slab, i, 8) <==> i < 1)
    ensures Fits(DispatchIntraChain(ranks, g)[5].slab, i, 16) <==> i < g.slots * g.hiddenInt4
    ensures Fits(DispatchIntraChain(ranks, g)[6].slab, i, 4) <==> i < g.slots
    ensures Fits(DispatchIntraChain(ranks, g)[7].slab, i, 8) <==> i < g.slots * g.topk
    ensures Fits(DispatchIntraChain(ranks, g)[8].slab, i, 4) <==> i < g.slots * g.topk
    ensures Fits(CombineIntraChain(ranks, g)[2].slab, i, 16) <==> i < g.slots * g.hiddenInt4
    ensures Fits(CombineIntraChain(ranks, g)[3].slab, i, 4) <==> i < g.slots
    ensures Fits(CombineIntraChain(ranks, g)[4].slab, i, 4) <==> i < g.slots * g.topk
  {
    FitsIff(ranks * ranks, i, 4);
    FitsIff(1, i, 8);
    FitsIff(g.slots * g.hiddenInt4, i, 16);
    FitsIff(g.slots, i, 4);
    FitsIff(g.slots * g.topk, i, 8);
    FitsIff(g.slots * g.topk, i, 4);
  }

  predicate IntranodeFits(ranks: nat, g: Geometry) {
    DispatchSection(ranks, g) + CombineSection(ranks, g) <= NvlHint(g, false)
  }

  /** No two slabs of the two sections overlap, whatever the sizes; they are inside the allocation wherever the
    * sections fit. */
  lemma IntranodeSlabsApart(ranks: nat, g: Geometry, c: Slab, d: Slab)
    requires InChain(IntraChain(ranks, g), c) && InChain(IntraChain(ranks, g), d) && c != d
    ensures var chain := IntraChain(ranks, g);
            && Disjoint(Address(chain, c), chain[c.field].slab, Address(chain, d), chain[d.field].slab)
            && (IntranodeFits(ranks, g) ==> Address(chain, c) + chain[c.field].slab <= NvlHint(g, false))
  {
    CarveDisjoint(IntraChain(ranks, g), c, d);
    SlabInside(IntraChain(ranks, g), c);
    IntranodePartition(ranks, g);
  }

  lemma NvlFactor(t: nat, g: Geometry)
    requires g.rdmaRanks == 1
    ensures DispatchNvlOf(t, g) == 8 * (g.channels * g.slots) * t + 256 * g.channels
    ensures CombineNvlOf(t, g) == 8 * (g.channels * g.slots) * t + 128 * g.channels
  {
    assert g.slots * t * NVL_PEERS * g.channels == 8 * (g.channels * g.slots) * t;
  }

  /** Inside one node the hint is a whole number of 128-byte blocks before any rounding. */
  lemma IntranodeHint(g: Geometry)
    requires g.rdmaRanks == 1
    ensures NvlHint(g, false) == 128 * (g.channels * g.slots * (2 * g.hiddenInt4 + 98) + 3 * g.channels)
  {
    IntranodeWidest(g, g.(topk := MAX_TOPK));
    BlocksOf(DispatchNvl(g.(topk := MAX_TOPK)) + CombineNvl(g.(topk := MAX_TOPK)),
             g.channels * g.slots * (2 * g.hiddenInt4 + 98) + 3 * g.channels, 0);
  }

  lemma WidestTokens(h: nat)
    ensures BytesPerToken(h, MAX_TOPK, MAX_TOPK) == 16 * h + 1040 && BytesPerToken(h, 0, MAX_TOPK) == 16 * h + 528
  {
    TokenBytes(h, MAX_TOPK, MAX_TOPK);
    TokenBytes(h, 0, MAX_TOPK);
  }

  lemma IntranodeWidest(g: Geometry, w: Geometry)
    requires g.rdmaRanks == 1 && w == g.(topk := MAX_TOPK)
    ensures DispatchNvl(w) + CombineNvl(w) == 128 * (g.channels * g.slots * (2 * g.hiddenInt4 + 98) + 3 * g.channels)
  {
    WidestTokens(g.hiddenInt4);
    NvlFactor(BytesPerToken(g.hiddenInt4, MAX_TOPK, MAX_TOPK), w);
    NvlFactor(BytesPerToken(g.hiddenInt4, 0, MAX_TOPK), w);
    HintBlocks(g.channels * g.slots, g.hiddenInt4, g.channels);
  }

  lemma HintBlocks(cs: nat, h: nat, c: nat)
    ensures 8 * cs * (16 * h + 1040) + 256 * c + (8 * cs * (16 * h + 528) + 128 * c) == 128 * (cs * (2 * h + 98) + 3 * c)
  {
  }

  /** Whole blocks and quarters of a block. */
  lemma BlocksOf(n: nat, a: nat, m: nat)
    requires n == 128 * a + 32 * m
    ensures AlignUp(n, 128) == 128 * (a + (m + 3) / 4)
  {
  }

  lemma SectionTerms(m: nat, h: nat, k: nat)
    ensures m * (h * 16 + 4 + k * 8 + k * 4) + m * (h * 16 + 4 + k * 4) == m * (32 * h + 8 + 16 * k)
  {
  }

  lemma SectionsAre(ranks: nat, g: Geometry)
    ensures DispatchSection(ranks, g) + CombineSection(ranks, g)
         == 4 * (ranks * ranks) + 48 * (g.channels * ranks)
            + g.channels * ranks * g.slots * (32 * g.hiddenInt4 + 8 + 16 * g.topk)
            + Rounding(DispatchBytes(ranks, g)) + Rounding(CombineBytes(ranks, g))
  {
    SectionTerms(g.channels * ranks * g.slots, g.hiddenInt4, g.topk);
    RoundingIs(DispatchBytes(ranks, g));
    RoundingIs(CombineBytes(ranks, g));
  }

  /** For every number of ranks and every geometry of a node, the exact condition in bytes: per ring slot of the
    * node, what the ranks take against what the hint has, then the fixed parts. */
  lemma IntranodeFitsIff(ranks: nat, g: Geometry)
    requires g.rdmaRanks == 1
    ensures IntranodeFits(ranks, g) <==>
              g.channels * g.slots * (ranks * (32 * g.hiddenInt4 + 8 + 16 * g.topk))
              + 48 * (g.channels * ranks) + 4 * (ranks * ranks)
              + Rounding(DispatchBytes(ranks, g)) + Rounding(CombineBytes(ranks, g))
                <= SlotHas(g) * (g.channels * g.slots) + 384 * g.channels
  {
    SectionsAre(ranks, g);
    IntranodeHint(g);
    RingsFactor(g.channels, ranks, g.slots, 32 * g.hiddenInt4 + 8 + 16 * g.topk);
    HintSlots(g.channels * g.slots, g.hiddenInt4, g.channels);
  }

  lemma RingsFactor(c: nat, ranks: nat, s: nat, t: nat)
    ensures c * ranks * s * t == c * s * (ranks * t)
  {
    assert c * ranks * s == c * s * ranks;
  }

  /** What a ring slot takes at most in both sections, over all ranks, with its share of the rest; and what the
    * hint has for it. */
  function SlotNeeds(ranks: nat, g: Geometry): nat {
    ranks * (32 * g.hiddenInt4 + 8 + 16 * g.topk) + 2 * (ranks * ranks) + 127
  }

  function SlotHas(g: Geometry): nat { 256 * g.hiddenInt4 + 12544 }

  /** For any number of ranks of a node: the sections fit when the hint has what a slot needs. */
  lemma IntranodeFitsWhen(ranks: nat, g: Geometry)
    requires g.rdmaRanks == 1 && ranks <= 8 && g.slots >= 2 && g.channels >= 1 && SlotNeeds(ranks, g) <= SlotHas(g)
    ensures IntranodeFits(ranks, g)
  {
    MulMono(1, g.channels, 2, g.slots);
    IntranodeFitsIff(ranks, g);
    SlotsHold(g.channels * g.slots, g.channels, ranks, 32 * g.hiddenInt4 + 8 + 16 * g.topk, SlotHas(g));
  }

  /** The matrix and the two roundings, dealt to at least two slots, and 48 of the hint's bytes per channel. */
  lemma SlotsHold(cs: nat, c: nat, ranks: nat, t: nat, has: nat)
    requires cs >= 2 && ranks <= 8 && ranks * t + 2 * (ranks * ranks) + 127 <= has
    ensures 4 * (ranks * ranks) + 48 * (c * ranks) + cs * (ranks * t) + 254 <= has * cs + 384 * c
  {
    var fixed := 2 * (ranks * ranks) + 127;
    MulLe(2, cs, fixed);
    MulLe(ranks, 8, c);
    MulLe(ranks * t + fixed, has, cs);
    assert (ranks * t + fixed) * cs == cs * (ranks * t) + cs * fixed;
  }

  lemma HintSlots(cs: nat, h: nat, c: nat)
    ensures 128 * (cs * (2 * h + 98) + 3 * c) == (256 * h + 12544) * cs + 384 * c
  {
  }

  /** At every rank count of a node the sections fit up to top-k 95; up to six ranks, and at seven with rows of at
    * least 65 vectors, they fit up to the hint's 128. */
  lemma IntranodeHintSuffices(ranks: nat, g: Geometry)
    requires g.rdmaRanks == 1 && ranks <= 8 && g.slots >= 2 && g.channels >= 1 && g.topk <= MAX_TOPK
    requires g.topk <= 95 || ranks <= 6 || (ranks == 7 && (g.topk <= 109 || g.hiddenInt4 >= 65))
    ensures IntranodeFits(ranks, g)
  {
    var h, k := g.hiddenInt4, g.topk;
    if k <= 95 {
      RankShare(ranks, 8, h, k, 95);
    } else if ranks <= 6 {
      RankShare(ranks, 6, h, k, 128);
    }
    IntranodeFitsWhen(ranks, g);
  }

  lemma RankShare(ranks: nat, most: nat, h: nat, k: nat, top: nat)
    requires ranks <= most && k <= top
    ensures ranks * (32 * h + 8 + 16 * k) <= most * (32 * h + 8 + 16 * top)
    ensures ranks * ranks <= most * most
  {
    MulMono(ranks, most, 32 * h + 8 + 16 * k, 32 * h + 8 + 16 * top);
    MulMono(ranks, most, ranks, most);
  }

  /** At eight ranks, in blocks of 128 bytes. */
  lemma EightRankBlocks(g: Geometry)
    ensures var cs := g.channels * g.slots;
            && DispatchSection(8, g) == 128 * (2 + 2 * g.channels + cs * g.hiddenInt4 + (cs * (1 + 3 * g.topk) + 3) / 4)
            && CombineSection(8, g) == 128 * (g.channels + cs * g.hiddenInt4 + (cs * (1 + g.topk) + 3) / 4)
  {
    var h, k, c, cs := g.hiddenInt4, g.topk, g.channels, g.channels * g.slots;
    EightBytes(g);
    BlocksOf(DispatchBytes(8, g), 2 + 2 * c + cs * h, cs * (1 + 3 * k));
    BlocksOf(CombineBytes(8, g), c + cs * h, cs * (1 + k));
  }

  lemma EightBytes(g: Geometry)
    ensures var cs := g.channels * g.slots;
            && DispatchBytes(8, g) == 128 * (2 + 2 * g.channels + cs * g.hiddenInt4) + 32 * (cs * (1 + 3 * g.topk))
            && CombineBytes(8, g) == 128 * (g.channels + cs * g.hiddenInt4) + 32 * (cs * (1 + g.topk))
  {
    assert g.channels * 8 * g.slots == 8 * (g.channels * g.slots);
    EightTerms(g.channels * g.slots, g.hiddenInt4, g.topk);
  }

  lemma EightTerms(cs: nat, h: nat, k: nat)
    ensures 8 * cs * (h * 16 + 4 + k * 8 + k * 4) == 128 * (cs * h) + 32 * (cs * (1 + 3 * k))
    ensures 8 * cs * (h * 16 + 4 + k * 4) == 128 * (cs * h) + 32 * (cs * (1 + k))
  {
  }

  /** At eight ranks, with 64-bit expert ids, the hint's bound of 128 does not hold: these top-k fit, and no
    * others, for every hidden size, channel count and ring. */
  lemma IntranodeEightIff(g: Geometry)
    requires g.rdmaRanks == 1 && g.slots >= 2 && g.channels >= 1
    ensures IntranodeFits(8, g) <==> (g.topk <= 96 || (g.topk == 97 && g.channels * g.slots >= 4))
  {
    MulMono(1, g.channels, 2, g.slots);
    EightRankBlocks(g);
    IntranodeHint(g);
    EightRankRows(g.channels * g.slots, g.hiddenInt4, g.topk, g.channels);
  }

  /** The rows take the same blocks on both sides. */
  lemma EightRankRows(cs: nat, h: nat, k: nat, c: nat)
    requires cs >= 2
    ensures 2 + 2 * c + cs * h + (cs * (1 + 3 * k) + 3) / 4 + (c + cs * h + (cs * (1 + k) + 3) / 4) <= cs * (2 * h + 98) + 3 * c
            <==> (k <= 96 || (k == 97 && cs >= 4))
  {
    assert cs * (2 * h + 98) == 2 * (cs * h) + 98 * cs;
    BlocksFitIff(cs, k, cs * (1 + 3 * k), cs * (1 + k));
  }

  lemma BlocksFitIff(cs: nat, k: nat, a: nat, b: nat)
    requires cs >= 2 && a == cs * (1 + 3 * k) && b == cs * (1 + k)
    ensures 2 + (a + 3) / 4 + (b + 3) / 4 <= 98 * cs <==> (k <= 96 || (k == 97 && cs >= 4))
  {
    if k <= 95 {
      MulLe(1 + 3 * k, 286, cs);
      MulLe(1 + k, 96, cs);
    } else if k >= 98 {
      MulLe(295, 1 + 3 * k, cs);
      MulLe(99, 1 + k, cs);
    } else if k == 96 {
      assert a == 289 * cs && b == 97 * cs;
    } else {
      assert a == 292 * cs && b == 98 * cs;
    }
  }
}
