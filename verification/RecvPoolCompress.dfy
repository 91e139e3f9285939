/** Compaction of the pool to one row per received token and back, as a grid of independent programs, one per
  * (slot, block of columns), run in any order. */
module RecvPoolCompress {
  import opened Arith
  import opened Sums

  const INT32_LIMIT := 0x8000_0000

  /** A launch over a pool of `slots` rows and `tokens` received rows of `width` columns. */
  datatype Launch = Launch(slots: nat, tokens: nat, width: nat, block: nat, recvToken: seq<int>) {
    predicate Valid() {
      && block > 0 && |recvToken| == slots && slots * width < INT32_LIMIT
      && forall s: nat :: s < slots ==> recvToken[s] < tokens
    }
    /** As few blocks as cover a row. */
    function Blocks(): (n: nat)
      requires block > 0
      ensures n * block >= width && (n > 0 ==> (n - 1) * block < width)
    {
      CeilDiv(width, block);
      (width + block - 1) / block
    }
  }

  datatype Program = Program(slot: nat, col: nat)

  /** Column h of a row is in the program's block. */
  predicate Covers(l: Launch, p: Program, h: nat) {
    h < l.width && p.col * l.block <= h < (p.col + 1) * l.block
  }

  /** Every program of the grid is in the sequence; repetitions and order do not matter. */
  predicate Complete(l: Launch, order: seq<Program>)
    requires l.block > 0
  {
    && (forall i: nat :: i < |order| ==> order[i].slot < l.slots && order[i].col < l.Blocks())
    && forall s: nat, c: nat :: s < l.slots && c < l.Blocks() ==> Program(s, c) in order
  }

  /** The block that covers a column. */
  lemma BlockOf(l: Launch, h: nat) returns (c: nat)
    requires l.block > 0 && h < l.width
    ensures c < l.Blocks() && Covers(l, Program(0, c), h)
  {
    c := h / l.block;
    assert h == c * l.block + h % l.block && (c + 1) * l.block == c * l.block + l.block;
    CeilDiv(l.width, l.block);
    if c >= l.Blocks() {
      MulLe(l.Blocks(), c, l.block);
    }
  }

  /** Some program of the first n has column h of slot s. */
  predicate Ran(l: Launch, order: seq<Program>, n: nat, s: nat, h: nat)
    requires n <= |order|
  {
    exists i: nat :: i < n && order[i].slot == s && Covers(l, order[i], h)
  }

  lemma AllRan(l: Launch, order: seq<Program>, s: nat, h: nat)
    requires l.block > 0 && Complete(l, order) && s < l.slots && h < l.width
    ensures Ran(l, order, |order|, s, h)
  {
    var c := BlockOf(l, h);
    var p := Program(s, c);
    assert p in order;
    var i: nat :| i < |order| && order[i] == p;
  }

  // ---------------------------------------------------------------------------
  // Compress: out[token] = in[slot].
  // ---------------------------------------------------------------------------

  /** The slots of a token hold one and the same row, as dispatch broadcast it. */
  ghost predicate Broadcast(l: Launch, pool: array2<int>, row: (nat, nat) -> int)
    requires l.Valid()
    reads pool
  {
    && pool.Length0 == l.slots && pool.Length1 == l.width
    && forall s: nat, h: nat :: s < l.slots && h < l.width && l.recvToken[s] >= 0 ==> pool[s, h] == row(l.recvToken[s], h)
  }

  /** One program of the compaction; a padding slot stores nothing. */
  method CompressProgram(l: Launch, p: Program, pool: array2<int>, out: array2<int>)
    requires l.Valid() && p.slot < l.slots && pool != out
    requires pool.Length0 == l.slots && pool.Length1 == l.width && out.Length0 == l.tokens && out.Length1 == l.width
    modifies out
    ensures forall t: nat, h: nat :: t < l.tokens && h < l.width ==>
              out[t, h] == if l.recvToken[p.slot] == t && Covers(l, p, h) then pool[p.slot, h] else old(out[t, h])
  {
    var tok := l.recvToken[p.slot];
    var first := p.col * l.block;
    assert (p.col + 1) * l.block == first + l.block;
    if tok >= 0 {
      var h := first;
      while h < first + l.block && h < l.width
        invariant first <= h <= first + l.block
        invariant forall t: nat, c: nat :: t < l.tokens && c < l.width ==>
                    out[t, c] == if tok == t && first <= c < h then pool[p.slot, c] else old(out[t, c])
      {
        out[tok, h] := pool[p.slot, h];
        h := h + 1;
      }
    }
  }

  /** Token t has a slot whose program for column h is among the first n. */
  predicate Written(l: Launch, order: seq<Program>, n: nat, t: nat, h: nat)
    requires n <= |order| && l.Valid()
  {
    exists s: nat :: s < l.slots && l.recvToken[s] == t && Ran(l, order, n, s, h)
  }

  predicate HasSlot(l: Launch, t: nat)
    requires l.Valid()
  {
    exists s: nat :: s < l.slots && l.recvToken[s] == t
  }

  /** In any order the compaction leaves the token's row wherever the token has a slot: the colliding writes of
    * its slots write the same values. Rows of tokens without a slot are not touched. */
  method Compress(l: Launch, order: seq<Program>, pool: array2<int>, out: array2<int>, ghost row: (nat, nat) -> int)
    requires l.Valid() && Complete(l, order) && pool != out && Broadcast(l, pool, row)
    requires out.Length0 == l.tokens && out.Length1 == l.width
    modifies out
    ensures forall t: nat, h: nat :: t < l.tokens && h < l.width ==>
              out[t, h] == if HasSlot(l, t) then row(t, h) else old(out[t, h])
  {
    for n := 0 to |order|
      invariant forall t: nat, h: nat :: t < l.tokens && h < l.width ==>
                  out[t, h] == if Written(l, order, n, t, h) then row(t, h) else old(out[t, h])
    {
      CompressProgram(l, order[n], pool, out);
      forall t: nat, h: nat | t < l.tokens && h < l.width
        ensures Written(l, order, n + 1, t, h) <==>
                  Written(l, order, n, t, h) || (l.recvToken[order[n].slot] == t && Covers(l, order[n], h)) {
        WrittenNext(l, order, n, t, h);
      }
    }
    forall t: nat, h: nat | t < l.tokens && h < l.width
      ensures Written(l, order, |order|, t, h) <==> HasSlot(l, t) {
      if s: nat :| s < l.slots && l.recvToken[s] == t {
        AllRan(l, order, s, h);
      }
    }
  }

  lemma WrittenNext(l: Launch, order: seq<Program>, n: nat, t: nat, h: nat)
    requires l.Valid() && n < |order| && order[n].slot < l.slots
    ensures Written(l, order, n + 1, t, h) <==>
              Written(l, order, n, t, h) || (l.recvToken[order[n].slot] == t && Covers(l, order[n], h))
  {
    if s: nat :| s < l.slots && l.recvToken[s] == t && Ran(l, order, n + 1, s, h) {
      var i: nat :| i < n + 1 && order[i].slot == s && Covers(l, order[i], h);
      if i < n {
        assert Ran(l, order, n, s, h);
      }
    }
    if s: nat :| s < l.slots && l.recvToken[s] == t && Ran(l, order, n, s, h) {
      assert Ran(l, order, n + 1, s, h);
    }
    if l.recvToken[order[n].slot] == t && Covers(l, order[n], h) {
      assert Ran(l, order, n + 1, order[n].slot, h);
    }
  }

  // ---------------------------------------------------------------------------
  // Expand: out[slot] = in[token], and zero on padding.
  // ---------------------------------------------------------------------------

  method ExpandProgram(l: Launch, p: Program, recv: array2<int>, out: array2<int>)
    requires l.Valid() && p.slot < l.slots && recv != out
    requires recv.Length0 == l.tokens && recv.Length1 == l.width && out.Length0 == l.slots && out.Length1 == l.width
    modifies out
    ensures forall s: nat, h: nat :: s < l.slots && h < l.width ==>
              out[s, h] == if s == p.slot && Covers(l, p, h)
                           then (if l.recvToken[s] >= 0 then recv[l.recvToken[s], h] else 0) else old(out[s, h])
  {
    var tok := l.recvToken[p.slot];
    var first := p.col * l.block;
    assert (p.col + 1) * l.block == first + l.block;
    var h := first;
    while h < first + l.block && h < l.width
      invariant first <= h <= first + l.block
      invariant forall s: nat, c: nat :: s < l.slots && c < l.width ==>
                  out[s, c] == if s == p.slot && first <= c < h then (if tok >= 0 then recv[tok, c] else 0) else old(out[s, c])
    {
      out[p.slot, h] := if tok >= 0 then recv[tok, h] else 0;
      h := h + 1;
    }
  }

  /** In any order the expansion fills every (slot, column). */
  method Expand(l: Launch, order: seq<Program>, recv: array2<int>, out: array2<int>)
    requires l.Valid() && Complete(l, order) && recv != out
    requires recv.Length0 == l.tokens && recv.Length1 == l.width && out.Length0 == l.slots && out.Length1 == l.width
    modifies out
    ensures forall s: nat, h: nat :: s < l.slots && h < l.width ==>
              out[s, h] == if l.recvToken[s] >= 0 then recv[l.recvToken[s], h] else 0
  {
    for n := 0 to |order|
      invariant forall s: nat, h: nat :: s < l.slots && h < l.width && Ran(l, order, n, s, h) ==>
                  out[s, h] == if l.recvToken[s] >= 0 then recv[l.recvToken[s], h] else 0
    {
      ExpandProgram(l, order[n], recv, out);
      forall s: nat, h: nat | s < l.slots && h < l.width && Ran(l, order, n + 1, s, h)
        ensures Ran(l, order, n, s, h) || (s == order[n].slot && Covers(l, order[n], h)) {
        var i: nat :| i < n + 1 && order[i].slot == s && Covers(l, order[i], h);
        assert i < n ==> Ran(l, order, n, s, h);
      }
    }
    forall s: nat, h: nat | s < l.slots && h < l.width ensures Ran(l, order, |order|, s, h) {
      AllRan(l, order, s, h);
    }
  }

  /** Compressing a dispatched pool and expanding it again gives every real slot its row back and zeroes the
    * padding, for any two execution orders. */
  method RoundTrip(l: Launch, order: seq<Program>, order': seq<Program>, pool: array2<int>, ghost row: (nat, nat) -> int)
    returns (pool': array2<int>)
    requires l.Valid() && Complete(l, order) && Complete(l, order') && Broadcast(l, pool, row)
    ensures fresh(pool') && pool'.Length0 == l.slots && pool'.Length1 == l.width
    ensures forall s: nat, h: nat :: s < l.slots && h < l.width ==>
              pool'[s, h] == if l.recvToken[s] >= 0 then pool[s, h] else 0
  {
    var xRecv := new int[l.tokens, l.width];
    Compress(l, order, pool, xRecv, row);
    pool' := new int[l.slots, l.width];
    Expand(l, order', xRecv, pool');
  }

  // ---------------------------------------------------------------------------
  // Offsets.
  // ---------------------------------------------------------------------------

  ghost function TokenOf(l: Launch): nat -> nat {
    (s: nat) => if s < |l.recvToken| && l.recvToken[s] >= 0 then l.recvToken[s] else 0
  }

  ghost function FirstSlot(l: Launch): nat -> nat
    requires l.Valid()
  {
    (t: nat) => SlotFor(l, t)
  }

  ghost function SlotFor(l: Launch, t: nat): (s: nat)
    requires l.Valid()
    ensures HasSlot(l, t) ==> s < l.slots && l.recvToken[s] == t
  {
    if HasSlot(l, t) then
      var i: nat :| i < l.slots && l.recvToken[i] == t;
      i
    else 0
  }

  ghost function All(): nat -> bool {
    (i: nat) => true
  }

  ghost function Chosen(l: Launch): nat -> bool
    requires l.Valid()
  {
    (s: nat) => s < l.slots && 0 <= l.recvToken[s] < l.tokens && SlotFor(l, l.recvToken[s]) == s
  }

  lemma TokensFit(l: Launch)
    requires l.Valid() && forall t: nat :: t < l.tokens ==> HasSlot(l, t)
    ensures l.tokens <= l.slots
  {
    var p, q, h, g := All(), Chosen(l), FirstSlot(l), TokenOf(l);
    forall t: nat | t < l.tokens && p(t) ensures h(t) < l.slots && q(h(t)) && g(h(t)) == t {
      assert HasSlot(l, t);
    }
    forall s: nat | s < l.slots && q(s) ensures g(s) < l.tokens && p(g(s)) && h(g(s)) == s {
    }
    CountBijection(p, l.tokens, q, l.slots, h, g);
    CountAll(p, l.tokens);
    CountAll(q, l.slots);
  }

  /** When every token has a slot there are at least as many slots as tokens, so the one check on the pool's
    * size keeps the 32-bit offsets of both tensors in range. */
  lemma OffsetsFit(l: Launch, t: nat, s: nat, h: nat)
    requires l.Valid() && forall t: nat :: t < l.tokens ==> HasSlot(l, t)
    requires t < l.tokens && s < l.slots && h < l.width
    ensures s * l.width + h < INT32_LIMIT && t * l.width + h < INT32_LIMIT
  {
    TokensFit(l);
    PairBound(s, h, l.slots, l.width);
    PairBound(t, h, l.tokens, l.width);
    MulLe(l.tokens, l.slots, l.width);
  }
}
