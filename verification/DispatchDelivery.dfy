/** What a receiver does with its slots: the per-slot and per-token writes of Pass B, and the expert-major
  * firing of the arrival counters when its substream has drained. */
module DispatchDelivery {
  import opened Arith
  import opened Sums
  import opened PoolLayout
  import opened DispatchPool
  import KernelY

  // ---------------------------------------------------------------------------
  // Pass B: the per-token writes.
  // ---------------------------------------------------------------------------

  /** How many of a token's pairs are local. */
  function LocalPairs(r: Routing, g: nat, k: nat): nat
    requires r.Valid() && g < |r.tokens| && k <= r.topk
  {
    if k == 0 then 0 else LocalPairs(r, g, k - 1) + if r.Pair(g, k - 1) then 1 else 0
  }

  /** The pool scalars after the pairs `written` have been delivered: a delivered pair's slot names its token
    * and its k, every other slot still holds the fill value. */
  ghost predicate SlotsWritten(r: Routing, written: set<(nat, nat)>, recvToken: seq<int>, kSlot: seq<int>)
    requires r.Valid()
  {
    && |recvToken| == |kSlot| == r.Pool().TotalTiles() * r.tileM
    && (forall x :: x in written ==> r.Pair(x.0, x.1))
    && (forall g: nat, k: nat :: (g, k) in written ==>
          r.Slot(g, k) < |recvToken| && recvToken[r.Slot(g, k)] == r.recvId[g] && kSlot[r.Slot(g, k)] == k)
    && (forall slot: nat :: slot < |recvToken| && recvToken[slot] != -1 ==>
          exists g: nat, k: nat :: (g, k) in written && r.Slot(g, k) == slot)
  }

  function TokenPairs(r: Routing, g: nat, n: nat): set<(nat, nat)>
    requires r.Valid() && g < |r.tokens| && n <= r.topk
  {
    set k: nat | k < n && r.Pair(g, k) :: (g, k)
  }

  lemma NextPair(r: Routing, g: nat, n: nat)
    requires r.Valid() && g < |r.tokens| && n < r.topk
    ensures TokenPairs(r, g, n + 1) == TokenPairs(r, g, n) + if r.Pair(g, n) then {(g, n)} else {}
  {
  }

  /** What a received token carries besides its ids: its row, and its routing weight for every k. */
  datatype Payload = Payload(rows: seq<seq<real>>, weights: seq<seq<real>>) {
    predicate Of(r: Routing) {
      |rows| == |weights| == |r.tokens| && forall g: nat :: g < |weights| ==> |weights[g]| == r.topk
    }

    function Row(g: nat): seq<real> { if g < |rows| then rows[g] else [] }

    function Weight(g: nat, k: nat): real { if g < |weights| && k < |weights[g]| then weights[g][k] else 0.0 }
  }

  ghost function RowOf(pay: Payload): (nat, nat) -> seq<real> {
    (g: nat, k: nat) => pay.Row(g)
  }

  ghost function WeightOf(pay: Payload): (nat, nat) -> real {
    (g: nat, k: nat) => pay.Weight(g, k)
  }

  /** A per-slot output after the pairs `written` have been delivered: each of their slots holds its value. */
  ghost predicate Holds<T>(r: Routing, written: set<(nat, nat)>, value: (nat, nat) -> T, out: seq<T>)
    requires r.Valid()
  {
    && |out| == r.Pool().TotalTiles() * r.tileM
    && (forall g: nat, k: nat :: (g, k) in written ==>
          r.Pair(g, k) && r.Slot(g, k) < |out| && out[r.Slot(g, k)] == value(g, k))
  }

  lemma HoldsNext<T>(r: Routing, written: set<(nat, nat)>, value: (nat, nat) -> T, out: seq<T>, g: nat, k: nat)
    requires r.Valid() && r.Pair(g, k) && Holds(r, written, value, out)
    ensures r.Slot(g, k) < |out|
    ensures Holds(r, written + {(g, k)}, value, out[r.Slot(g, k) := value(g, k)])
  {
    SlotInExpert(r, g, k);
    forall g': nat, k': nat | (g', k') in written && r.Slot(g', k') == r.Slot(g, k) ensures g' == g && k' == k {
      SlotInjective(r, g, k, g', k');
    }
  }

  /** The token's row goes to every one of its slots. */
  method CopyRow(r: Routing, pay: Payload, g: nat, slotRow: seq<int>, ghost written: set<(nat, nat)>,
          pool: array<seq<real>>)
    requires r.Valid() && pay.Of(r) && g < |r.tokens| && SlotRow(r, g, slotRow)
    requires Holds(r, written, RowOf(pay), pool[..])
    modifies pool
    ensures Holds(r, written + TokenPairs(r, g, r.topk), RowOf(pay), pool[..])
  {
    assert written + TokenPairs(r, g, 0) == written;
    for k := 0 to r.topk
      invariant Holds(r, written + TokenPairs(r, g, k), RowOf(pay), pool[..])
    {
      var slot := slotRow[k];
      SlotRowAt(r, g, slotRow, k);
      if slot >= 0 {
        ghost var was := pool[..];
        HoldsNext(r, written + TokenPairs(r, g, k), RowOf(pay), was, g, k);
        NextWritten(r, g, k, written);
        pool[slot] := pay.rows[g];
        assert pool[..] == was[slot := pay.rows[g]];
      }
    }
  }

  lemma NextWritten(r: Routing, g: nat, k: nat, written: set<(nat, nat)>)
    requires r.Valid() && r.Pair(g, k)
    ensures written + TokenPairs(r, g, k + 1) == written + TokenPairs(r, g, k) + {(g, k)}
  {
    NextPair(r, g, k);
  }

  /** A receiver's warp on token g: the row, then, by lane 0, the scalars of every slot, the token's slots and
    * its counters. */
  method DeliverToken(r: Routing, pay: Payload, g: nat, slotRow: seq<int>, ghost written: set<(nat, nat)>,
          pool: array<seq<real>>, poolTopkWeight: array<real>, poolRecvToken: array<int>, poolKSlot: array<int>,
          recvTokenToSlots: array<seq<int>>, kLocalRemaining: array<int>, kLocalTotal: array<int>)
    requires r.Valid() && pay.Of(r) && g < |r.tokens| && SlotRow(r, g, slotRow)
    requires Holds(r, written, RowOf(pay), pool[..]) && Holds(r, written, WeightOf(pay), poolTopkWeight[..])
    requires SlotsWritten(r, written, poolRecvToken[..], poolKSlot[..])
    requires kLocalRemaining.Length == kLocalTotal.Length == recvTokenToSlots.Length == |r.tokens|
    requires poolRecvToken != poolKSlot && kLocalRemaining != kLocalTotal
    requires {poolRecvToken, poolKSlot} !! {kLocalRemaining, kLocalTotal}
    modifies pool, poolTopkWeight, poolRecvToken, poolKSlot, recvTokenToSlots, kLocalRemaining, kLocalTotal
    ensures Holds(r, written + TokenPairs(r, g, r.topk), RowOf(pay), pool[..])
    ensures Holds(r, written + TokenPairs(r, g, r.topk), WeightOf(pay), poolTopkWeight[..])
    ensures SlotsWritten(r, written + TokenPairs(r, g, r.topk), poolRecvToken[..], poolKSlot[..])
    ensures recvTokenToSlots[..] == old(recvTokenToSlots[..])[r.recvId[g] := slotRow]
    ensures kLocalRemaining[..] == CounterSet(r, g, old(kLocalRemaining[..]))
    ensures kLocalTotal[..] == CounterSet(r, g, old(kLocalTotal[..]))
  {
    CopyRow(r, pay, g, slotRow, written, pool);
    StoreSlots(recvTokenToSlots, r.recvId[g], slotRow);
    var total := DeliverPairs(r, pay, g, slotRow, written, poolTopkWeight, poolRecvToken, poolKSlot);
    if total > 0 {
      StoreCounters(kLocalRemaining, kLocalTotal, r.recvId[g], total);
    }
  }

  method StoreSlots(recvTokenToSlots: array<seq<int>>, token: nat, slotRow: seq<int>)
    requires token < recvTokenToSlots.Length
    modifies recvTokenToSlots
    ensures recvTokenToSlots[..] == old(recvTokenToSlots[..])[token := slotRow]
  {
    recvTokenToSlots[token] := slotRow;
  }

  /** The counter of a token is set when it has a local pair, and left at its fill value otherwise. */
  function CounterSet(r: Routing, g: nat, counters: seq<int>): seq<int>
    requires r.Valid() && g < |r.tokens| == |counters|
  {
    if LocalPairs(r, g, r.topk) > 0 then counters[r.recvId[g] := LocalPairs(r, g, r.topk)] else counters
  }

  method DeliverPairs(r: Routing, pay: Payload, g: nat, slotRow: seq<int>, ghost written: set<(nat, nat)>,
          poolTopkWeight: array<real>, poolRecvToken: array<int>, poolKSlot: array<int>) returns (total: nat)
    requires r.Valid() && pay.Of(r) && g < |r.tokens| && SlotRow(r, g, slotRow) && poolRecvToken != poolKSlot
    requires Holds(r, written, WeightOf(pay), poolTopkWeight[..])
    requires SlotsWritten(r, written, poolRecvToken[..], poolKSlot[..])
    modifies poolTopkWeight, poolRecvToken, poolKSlot
    ensures total == LocalPairs(r, g, r.topk)
    ensures Holds(r, written + TokenPairs(r, g, r.topk), WeightOf(pay), poolTopkWeight[..])
    ensures SlotsWritten(r, written + TokenPairs(r, g, r.topk), poolRecvToken[..], poolKSlot[..])
  {
    total := 0;
    assert written + TokenPairs(r, g, 0) == written;
    for k := 0 to r.topk
      invariant total == LocalPairs(r, g, k)
      invariant Holds(r, written + TokenPairs(r, g, k), WeightOf(pay), poolTopkWeight[..])
      invariant SlotsWritten(r, written + TokenPairs(r, g, k), poolRecvToken[..], poolKSlot[..])
    {
      var slot := slotRow[k];
      SlotRowAt(r, g, slotRow, k);
      if slot >= 0 {
        DeliverPair(r, pay, g, k, slot, written, poolTopkWeight, poolRecvToken, poolKSlot);
        total := total + 1;
      }
    }
  }

  method DeliverPair(r: Routing, pay: Payload, g: nat, k: nat, slot: nat, ghost written: set<(nat, nat)>,
          poolTopkWeight: array<real>, poolRecvToken: array<int>, poolKSlot: array<int>)
    requires r.Valid() && pay.Of(r) && r.Pair(g, k) && slot == r.Slot(g, k) && poolRecvToken != poolKSlot
    requires Holds(r, written + TokenPairs(r, g, k), WeightOf(pay), poolTopkWeight[..])
    requires SlotsWritten(r, written + TokenPairs(r, g, k), poolRecvToken[..], poolKSlot[..])
    modifies poolTopkWeight, poolRecvToken, poolKSlot
    ensures Holds(r, written + TokenPairs(r, g, k + 1), WeightOf(pay), poolTopkWeight[..])
    ensures SlotsWritten(r, written + TokenPairs(r, g, k + 1), poolRecvToken[..], poolKSlot[..])
  {
    PairDelivered(r, g, k, written, poolRecvToken[..], poolKSlot[..]);
    HoldsNext(r, written + TokenPairs(r, g, k), WeightOf(pay), poolTopkWeight[..], g, k);
    NextWritten(r, g, k, written);
    StoreWeight(poolTopkWeight, slot, pay.weights[g][k]);
    StorePair(poolRecvToken, poolKSlot, slot, r.recvId[g], k);
  }

  method StoreWeight(poolTopkWeight: array<real>, slot: nat, weight: real)
    requires slot < poolTopkWeight.Length
    modifies poolTopkWeight
    ensures poolTopkWeight[..] == old(poolTopkWeight[..])[slot := weight]
  {
    poolTopkWeight[slot] := weight;
  }

  lemma SlotRowAt(r: Routing, g: nat, row: seq<int>, k: nat)
    requires r.Valid() && g < |r.tokens| && k < r.topk && SlotRow(r, g, row)
    ensures row[k] >= 0 <==> r.Pair(g, k)
    ensures r.Pair(g, k) ==> row[k] == r.Slot(g, k)
    ensures LocalPairs(r, g, k + 1) == LocalPairs(r, g, k) + if r.Pair(g, k) then 1 else 0
    ensures !r.Pair(g, k) ==> TokenPairs(r, g, k + 1) == TokenPairs(r, g, k)
  {
    NextPair(r, g, k);
  }

  lemma PairDelivered(r: Routing, g: nat, k: nat, written: set<(nat, nat)>, recvToken: seq<int>, kSlot: seq<int>)
    requires r.Valid() && r.Pair(g, k) && SlotsWritten(r, written + TokenPairs(r, g, k), recvToken, kSlot)
    ensures r.Slot(g, k) < |recvToken|
    ensures SlotsWritten(r, written + TokenPairs(r, g, k + 1),
              recvToken[r.Slot(g, k) := r.recvId[g]], kSlot[r.Slot(g, k) := k])
  {
    SlotInExpert(r, g, k);
    NextPair(r, g, k);
    WriteSlot(r, written + TokenPairs(r, g, k), recvToken, kSlot, g, k);
    assert written + TokenPairs(r, g, k + 1) == written + TokenPairs(r, g, k) + {(g, k)};
  }

  method StorePair(poolRecvToken: array<int>, poolKSlot: array<int>, slot: nat, token: int, k: int)
    requires slot < poolRecvToken.Length == poolKSlot.Length && poolRecvToken != poolKSlot
    modifies poolRecvToken, poolKSlot
    ensures poolRecvToken[..] == old(poolRecvToken[..])[slot := token]
    ensures poolKSlot[..] == old(poolKSlot[..])[slot := k]
  {
    poolRecvToken[slot] := token;
    poolKSlot[slot] := k;
  }

  method StoreCounters(kLocalRemaining: array<int>, kLocalTotal: array<int>, token: nat, total: int)
    requires token < kLocalRemaining.Length == kLocalTotal.Length && kLocalRemaining != kLocalTotal
    modifies kLocalRemaining, kLocalTotal
    ensures kLocalRemaining[..] == old(kLocalRemaining[..])[token := total]
    ensures kLocalTotal[..] == old(kLocalTotal[..])[token := total]
  {
    kLocalRemaining[token] := total;
    kLocalTotal[token] := total;
  }

  /** Delivering a pair disturbs no other pair's slot, in whatever order the pairs come. */
  lemma WriteSlot(r: Routing, written: set<(nat, nat)>, recvToken: seq<int>, kSlot: seq<int>, g: nat, k: nat)
    requires r.Valid() && r.Pair(g, k) && SlotsWritten(r, written, recvToken, kSlot) && r.Slot(g, k) < |recvToken|
    ensures SlotsWritten(r, written + {(g, k)}, recvToken[r.Slot(g, k) := r.recvId[g]], kSlot[r.Slot(g, k) := k])
  {
    var recvToken' := recvToken[r.Slot(g, k) := r.recvId[g]];
    var kSlot' := kSlot[r.Slot(g, k) := k];
    forall g': nat, k': nat | (g', k') in written + {(g, k)}
      ensures r.Slot(g', k') < |recvToken'| && recvToken'[r.Slot(g', k')] == r.recvId[g'] && kSlot'[r.Slot(g', k')] == k'
    {
      if r.Slot(g', k') == r.Slot(g, k) {
        SlotInjective(r, g, k, g', k');
      }
    }
    forall slot: nat | slot < |recvToken'| && recvToken'[slot] != -1
      ensures exists g': nat, k': nat :: (g', k') in written + {(g, k)} && r.Slot(g', k') == slot {
      if slot != r.Slot(g, k) {
        var g': nat, k': nat :| (g', k') in written && r.Slot(g', k') == slot;
        assert (g', k') in written + {(g, k)};
      } else {
        assert (g, k) in written + {(g, k)};
      }
    }
  }

  // ---------------------------------------------------------------------------
  // The finished pool.
  // ---------------------------------------------------------------------------

  function AllPairs(r: Routing): set<(nat, nat)>
    requires r.Valid()
  {
    set g: nat, k: nat | g < |r.tokens| && k < r.topk && r.Pair(g, k) :: (g, k)
  }

  /** Every local pair has been delivered. */
  ghost predicate Delivered(r: Routing, recvToken: seq<int>, kSlot: seq<int>)
    requires r.Valid()
  {
    SlotsWritten(r, AllPairs(r), recvToken, kSlot)
  }

  /** The outputs that back the pairs: every slot has its token's row and its pair's weight, and every token
    * its slots. */
  ghost predicate Backed(r: Routing, pay: Payload, pool: seq<seq<real>>, weight: seq<real>, toSlots: seq<seq<int>>)
    requires r.Valid()
  {
    && Holds(r, AllPairs(r), RowOf(pay), pool) && Holds(r, AllPairs(r), WeightOf(pay), weight)
    && |toSlots| == |r.tokens| && forall g: nat :: g < |r.tokens| ==> SlotRow(r, g, toSlots[r.recvId[g]])
  }

  /** The counter of every token holds the number of its local pairs. */
  ghost predicate Counts(r: Routing, counters: seq<int>)
    requires r.Valid()
  {
    |counters| == |r.tokens| && forall g: nat :: g < |r.tokens| ==> counters[r.recvId[g]] == LocalPairs(r, g, r.topk)
  }

  /** The pairs of the tokens that come first in the order. */
  function PairsOf(r: Routing, order: seq<nat>, n: nat): set<(nat, nat)>
    requires r.Valid() && n <= |order| && forall i: nat :: i < |order| ==> order[i] < |r.tokens|
  {
    if n == 0 then {} else PairsOf(r, order, n - 1) + TokenPairs(r, order[n - 1], r.topk)
  }

  lemma {:induction false} PairsOfOrder(r: Routing, order: seq<nat>, n: nat)
    requires r.Valid() && n <= |order| && forall i: nat :: i < |order| ==> order[i] < |r.tokens|
    ensures forall x :: x in PairsOf(r, order, n) ==> x in AllPairs(r)
    ensures forall i: nat, k: nat :: i < n && r.Pair(order[i], k) ==> (order[i], k) in PairsOf(r, order, n)
  {
    if n > 0 {
      PairsOfOrder(r, order, n - 1);
    }
  }

  lemma OrderIsAll(r: Routing, order: seq<nat>)
    requires r.Valid() && forall i: nat :: i < |order| ==> order[i] < |r.tokens|
    requires forall g: nat :: g < |r.tokens| ==> g in order
    ensures PairsOf(r, order, |order|) == AllPairs(r)
  {
    PairsOfOrder(r, order, |order|);
    forall x | x in AllPairs(r) ensures x in PairsOf(r, order, |order|) {
      assert x.0 in order;
      var i: nat :| i < |order| && order[i] == x.0;
    }
  }

  /** Counters and slot lists after the first n tokens of the order: those are set, the others still zero. */
  ghost predicate CountsFirst(r: Routing, order: seq<nat>, n: nat, counters: seq<int>)
    requires r.Valid() && n <= |order| && forall i: nat :: i < |order| ==> order[i] < |r.tokens|
  {
    |counters| == |r.tokens| && forall g: nat :: g < |r.tokens| ==>
      counters[r.recvId[g]] == if g in order[..n] then LocalPairs(r, g, r.topk) else 0
  }

  ghost predicate SlotsFirst(r: Routing, order: seq<nat>, n: nat, toSlots: seq<seq<int>>)
    requires r.Valid() && n <= |order| && forall i: nat :: i < |order| ==> order[i] < |r.tokens|
  {
    |toSlots| == |r.tokens| && forall g: nat :: g < |r.tokens| && g in order[..n] ==> SlotRow(r, g, toSlots[r.recvId[g]])
  }

  lemma NextToken(r: Routing, order: seq<nat>, n: nat, counters: seq<int>, toSlots: seq<seq<int>>, row: seq<int>)
    requires r.Valid() && n < |order| && forall i: nat :: i < |order| ==> order[i] < |r.tokens|
    requires CountsFirst(r, order, n, counters) && SlotsFirst(r, order, n, toSlots) && SlotRow(r, order[n], row)
    ensures CountsFirst(r, order, n + 1, CounterSet(r, order[n], counters))
    ensures SlotsFirst(r, order, n + 1, toSlots[r.recvId[order[n]] := row])
  {
    assert order[..n + 1] == order[..n] + [order[n]];
  }

  /** The whole delivery, from the fill values of the slab to the finished pool, in any order of the tokens. */
  method DeliverAll(r: Routing, pay: Payload, order: seq<nat>, slots: seq<seq<int>>,
          pool: array<seq<real>>, poolTopkWeight: array<real>, poolRecvToken: array<int>, poolKSlot: array<int>,
          recvTokenToSlots: array<seq<int>>, kLocalRemaining: array<int>, kLocalTotal: array<int>)
    requires r.Valid() && pay.Of(r) && |slots| == |r.tokens|
    requires forall g: nat :: g < |slots| ==> SlotRow(r, g, slots[g])
    requires forall i: nat :: i < |order| ==> order[i] < |r.tokens|
    requires forall g: nat :: g < |r.tokens| ==> g in order
    requires pool.Length == poolTopkWeight.Length == poolRecvToken.Length == poolKSlot.Length
    requires poolKSlot.Length == r.Pool().TotalTiles() * r.tileM
    requires kLocalRemaining.Length == kLocalTotal.Length == recvTokenToSlots.Length == |r.tokens|
    requires poolRecvToken != poolKSlot && kLocalRemaining != kLocalTotal
    requires {poolRecvToken, poolKSlot} !! {kLocalRemaining, kLocalTotal}
    requires forall slot: nat :: slot < poolRecvToken.Length ==> poolRecvToken[slot] == -1
    requires forall t: nat :: t < |r.tokens| ==> kLocalRemaining[t] == 0 && kLocalTotal[t] == 0
    modifies pool, poolTopkWeight, poolRecvToken, poolKSlot, recvTokenToSlots, kLocalRemaining, kLocalTotal
    ensures Delivered(r, poolRecvToken[..], poolKSlot[..])
    ensures Backed(r, pay, pool[..], poolTopkWeight[..], recvTokenToSlots[..])
    ensures Counts(r, kLocalRemaining[..]) && Counts(r, kLocalTotal[..])
  {
    for n := 0 to |order|
      invariant Holds(r, PairsOf(r, order, n), RowOf(pay), pool[..])
      invariant Holds(r, PairsOf(r, order, n), WeightOf(pay), poolTopkWeight[..])
      invariant SlotsWritten(r, PairsOf(r, order, n), poolRecvToken[..], poolKSlot[..])
      invariant SlotsFirst(r, order, n, recvTokenToSlots[..])
      invariant CountsFirst(r, order, n, kLocalRemaining[..]) && CountsFirst(r, order, n, kLocalTotal[..])
    {
      var g := order[n];
      NextToken(r, order, n, kLocalRemaining[..], recvTokenToSlots[..], slots[g]);
      NextToken(r, order, n, kLocalTotal[..], recvTokenToSlots[..], slots[g]);
      DeliverToken(r, pay, g, slots[g], PairsOf(r, order, n), pool, poolTopkWeight, poolRecvToken, poolKSlot,
        recvTokenToSlots, kLocalRemaining, kLocalTotal);
    }
    OrderIsAll(r, order);
    assert order[..|order|] == order;
  }

  /** The slot holds the pair it is the slot of, and padding holds -1. */
  lemma DeliveredSlots(r: Routing, recvToken: seq<int>, kSlot: seq<int>)
    requires r.Valid() && Delivered(r, recvToken, kSlot)
    ensures forall g: nat, k: nat :: r.Pair(g, k) ==>
              r.Slot(g, k) < |recvToken| && recvToken[r.Slot(g, k)] == r.recvId[g] && kSlot[r.Slot(g, k)] == k
    ensures forall slot: nat :: slot < |recvToken| ==> (recvToken[slot] == -1 <==> !r.Pool().Real(slot))
  {
    forall slot: nat | slot < |recvToken| ensures recvToken[slot] == -1 <==> !r.Pool().Real(slot) {
      if r.Pool().Real(slot) {
        var g, k := SlotOnto(r, slot);
      } else if recvToken[slot] != -1 {
        var g: nat, k: nat :| r.Pair(g, k) && r.Slot(g, k) == slot;
        SlotInExpert(r, g, k);
      }
    }
  }

  ghost function PairOf(r: Routing, g: nat): nat -> bool
    requires r.Valid() && g < |r.tokens|
  {
    (k: nat) => r.Pair(g, k)
  }

  ghost function SlotAt(r: Routing, g: nat): nat -> nat
    requires r.Valid() && g < |r.tokens|
  {
    (k: nat) => if r.Pair(g, k) then r.Slot(g, k) else 0
  }

  ghost function KAt(kSlot: seq<int>): nat -> nat {
    (slot: nat) => if slot < |kSlot| && kSlot[slot] >= 0 then kSlot[slot] else 0
  }

  lemma {:induction false} LocalPairsCount(r: Routing, g: nat, k: nat)
    requires r.Valid() && g < |r.tokens| && k <= r.topk
    ensures LocalPairs(r, g, k) == Count(PairOf(r, g), k)
  {
    if k > 0 {
      LocalPairsCount(r, g, k - 1);
    }
  }

  lemma TokenSlot(r: Routing, recvToken: seq<int>, kSlot: seq<int>, g: nat, slot: nat)
    requires r.Valid() && Delivered(r, recvToken, kSlot) && g < |r.tokens|
    requires slot < |recvToken| && recvToken[slot] == r.recvId[g]
    ensures kSlot[slot] >= 0 && r.Pair(g, kSlot[slot]) && r.Slot(g, kSlot[slot]) == slot
  {
    DeliveredSlots(r, recvToken, kSlot);
    var g', k := SlotOnto(r, slot);
  }

  /** The k of a token and the slots that name the token correspond one to one. */
  lemma TokenSlots(r: Routing, c: KernelY.Config, kSlot: seq<int>, g: nat)
    requires r.Valid() && Delivered(r, c.recvToken, kSlot) && g < |r.tokens|
    requires c.tileM == r.tileM && c.totalTiles == r.Pool().TotalTiles()
    ensures Bijection(PairOf(r, g), r.topk, KernelY.SlotsOwned(c, r.recvId[g]), c.Slots(), SlotAt(r, g), KAt(kSlot))
  {
    var p, q := PairOf(r, g), KernelY.SlotsOwned(c, r.recvId[g]);
    var h, h' := SlotAt(r, g), KAt(kSlot);
    DeliveredSlots(r, c.recvToken, kSlot);
    forall slot: nat | slot < c.Slots() && q(slot) ensures h'(slot) < r.topk && p(h'(slot)) && h(h'(slot)) == slot {
      TokenSlot(r, c.recvToken, kSlot, g, slot);
    }
    forall k: nat | k < r.topk && p(k) ensures h(k) < c.Slots() && q(h(k)) && h'(h(k)) == k {
      assert c.recvToken[r.Slot(g, k)] == r.recvId[g];
    }
  }

  /** The counter a token's receiver emits is the number of pool slots that name the token: what kernel Y
    * counts down is what it will find. */
  lemma CounterIsSlotCount(r: Routing, c: KernelY.Config, kSlot: seq<int>, g: nat)
    requires r.Valid() && Delivered(r, c.recvToken, kSlot) && g < |r.tokens|
    requires c.tileM == r.tileM && c.totalTiles == r.Pool().TotalTiles()
    ensures LocalPairs(r, g, r.topk) == KernelY.KLocal(c, r.recvId[g])
  {
    LocalPairsCount(r, g, r.topk);
    TokenSlots(r, c, kSlot, g);
    CountBijection(PairOf(r, g), r.topk, KernelY.SlotsOwned(c, r.recvId[g]), c.Slots(), SlotAt(r, g), KAt(kSlot));
  }

  function Ids(n: nat): (s: set<nat>)
    ensures |s| == n && forall t: nat :: t in s <==> t < n
  {
    if n == 0 then {} else Ids(n - 1) + {n - 1}
  }

  function Received(r: Routing, n: nat): set<nat>
    requires r.Valid() && n <= |r.recvId|
  {
    set g: nat | g < n :: r.recvId[g]
  }

  lemma {:induction false} ReceivedSize(r: Routing, n: nat)
    requires r.Valid() && n <= |r.recvId|
    ensures |Received(r, n)| == n
  {
    if n > 0 {
      ReceivedSize(r, n - 1);
      assert Received(r, n) == Received(r, n - 1) + {r.recvId[n - 1]};
    }
  }

  lemma SmallerSubset(a: set<nat>, b: set<nat>)
    requires a <= b && |a| == |b|
    ensures a == b
  {
    assert |b - a| == |b| - |a| == 0;
    assert b == a + (b - a);
  }

  /** Every receive id is some token's. */
  lemma RecvIdOnto(r: Routing, t: nat) returns (g: nat)
    requires r.Valid() && t < |r.tokens|
    ensures g < |r.tokens| && r.recvId[g] == t
  {
    ReceivedSize(r, |r.recvId|);
    SmallerSubset(Received(r, |r.recvId|), Ids(|r.tokens|));
    assert t in Received(r, |r.recvId|);
    g :| g < |r.recvId| && r.recvId[g] == t;
  }

  /** So the delivered counters are what kernel Y's protocol starts from, token by token. */
  lemma CountersStartKernelY(r: Routing, c: KernelY.Config, kSlot: seq<int>, counters: seq<int>, t: nat)
    requires r.Valid() && Delivered(r, c.recvToken, kSlot) && Counts(r, counters) && t < |r.tokens|
    requires c.tileM == r.tileM && c.totalTiles == r.Pool().TotalTiles()
    ensures counters[t] == KernelY.KLocal(c, t)
  {
    var g := RecvIdOnto(r, t);
    CounterIsSlotCount(r, c, kSlot, g);
  }

  // ---------------------------------------------------------------------------
  // Pass 2: firing the arrivals.
  // ---------------------------------------------------------------------------

  function Min(a: int, b: int): int { if a < b then a else b }
  function Max(a: int, b: int): int { if a < b then b else a }

  /** How many of the slots start .. start + n - 1 lie in pool block b. */
  function Overlap(start: nat, n: nat, tileM: nat, b: nat): nat {
    Max(0, Min(start + n, b * tileM + tileM) - Max(start, b * tileM))
  }

  /** Blocks before the first and after the last touched one get nothing. */
  lemma OverlapOutside(start: nat, n: nat, tileM: nat, b: nat)
    requires tileM > 0
    ensures n == 0 || b < start / tileM || (start + n - 1) / tileM < b ==> Overlap(start, n, tileM, b) == 0
    ensures n > 0 && start / tileM <= b <= (start + n - 1) / tileM ==>
              Overlap(start, n, tileM, b) == Min(start + n, b * tileM + tileM) - Max(start, b * tileM) > 0
  {
    BlockSide(start, tileM, b);
    if n > 0 {
      BlockSide(start + n - 1, tileM, b);
    }
  }

  /** A slot lies before, in or after block b as its block number says. */
  lemma BlockSide(slot: nat, tileM: nat, b: nat)
    requires tileM > 0
    ensures b < slot / tileM <==> b * tileM + tileM <= slot
    ensures slot / tileM < b <==> slot < b * tileM
  {
    var q, r := slot / tileM, slot % tileM;
    assert slot == q * tileM + r;
    assert (b + 1) * tileM == b * tileM + tileM && (q + 1) * tileM == q * tileM + tileM;
    if b < q {
      MulLe(b + 1, q, tileM);
    } else if q < b {
      MulLe(q + 1, b, tileM);
    }
  }

  /** The counts with the overlaps of the blocks below `upTo` added. */
  predicate AddedBelow(was: seq<nat>, now: seq<nat>, slotStart: nat, nWrites: nat, tileM: nat, upTo: nat) {
    |now| == |was| && forall b: nat :: b < |was| ==>
      now[b] == was[b] + if b < upTo then Overlap(slotStart, nWrites, tileM, b) else 0
  }

  lemma AddBlock(was: seq<nat>, now: seq<nat>, slotStart: nat, nWrites: nat, tileM: nat, block: nat)
    requires AddedBelow(was, now, slotStart, nWrites, tileM, block) && block < |was|
    ensures AddedBelow(was, now[block := now[block] + Overlap(slotStart, nWrites, tileM, block)],
              slotStart, nWrites, tileM, block + 1)
  {
  }

  lemma NoneBefore(was: seq<nat>, slotStart: nat, nWrites: nat, tileM: nat)
    requires tileM > 0
    ensures AddedBelow(was, was, slotStart, nWrites, tileM, slotStart / tileM)
  {
    forall b: nat | b < slotStart / tileM ensures Overlap(slotStart, nWrites, tileM, b) == 0 {
      OverlapOutside(slotStart, nWrites, tileM, b);
    }
  }

  lemma NoneAfter(was: seq<nat>, now: seq<nat>, slotStart: nat, nWrites: nat, tileM: nat, last: nat)
    requires tileM > 0 && nWrites > 0 && last == (slotStart + nWrites - 1) / tileM
    requires AddedBelow(was, now, slotStart, nWrites, tileM, last + 1)
    ensures AddedBelow(was, now, slotStart, nWrites, tileM, |was|)
  {
    forall b: nat | last < b ensures Overlap(slotStart, nWrites, tileM, b) == 0 {
      OverlapOutside(slotStart, nWrites, tileM, b);
    }
  }

  lemma FirstToLast(slotStart: nat, nWrites: nat, tileM: nat)
    requires tileM > 0 && nWrites > 0
    ensures slotStart / tileM <= (slotStart + nWrites - 1) / tileM
  {
    DivBound(slotStart + nWrites - 1, (slotStart + nWrites - 1) / tileM + 1, tileM);
    OverlapOutside(slotStart, 1, tileM, slotStart / tileM);
    OverlapOutside(slotStart, nWrites, tileM, slotStart / tileM);
  }

  /** One substream's rows of one expert are added to the counts of the blocks they lie in, and to no others. */
  method FirePoolBlocks(slotStart: nat, nWrites: nat, tileM: nat, arrivalCount: array<nat>)
    requires tileM > 0 && nWrites > 0 && (slotStart + nWrites - 1) / tileM < arrivalCount.Length
    modifies arrivalCount
    ensures AddedBelow(old(arrivalCount[..]), arrivalCount[..], slotStart, nWrites, tileM, arrivalCount.Length)
  {
    var slotEnd := slotStart + nWrites;
    var firstBlock := slotStart / tileM;
    var lastBlock := (slotEnd - 1) / tileM;
    NoneBefore(arrivalCount[..], slotStart, nWrites, tileM);
    FirstToLast(slotStart, nWrites, tileM);
    var block := firstBlock;
    while block <= lastBlock
      invariant firstBlock <= block <= lastBlock + 1
      invariant AddedBelow(old(arrivalCount[..]), arrivalCount[..], slotStart, nWrites, tileM, block)
    {
      OverlapOutside(slotStart, nWrites, tileM, block);
      AddBlock(old(arrivalCount[..]), arrivalCount[..], slotStart, nWrites, tileM, block);
      var blockStart := block * tileM;
      var writes := Min(slotEnd, blockStart + tileM) - Max(slotStart, blockStart);
      AddTo(arrivalCount, block, writes);
      block := block + 1;
    }
    NoneAfter(old(arrivalCount[..]), arrivalCount[..], slotStart, nWrites, tileM, lastBlock);
  }

  method AddTo(arrivalCount: array<nat>, block: nat, delta: nat)
    requires block < arrivalCount.Length
    modifies arrivalCount
    ensures arrivalCount[..] == old(arrivalCount[..])[block := old(arrivalCount[block]) + delta]
  {
    arrivalCount[block] := arrivalCount[block] + delta;
  }

  lemma OverlapSplits(start: nat, n: nat, n': nat, tileM: nat, b: nat)
    ensures Overlap(start, n + n', tileM, b) == Overlap(start, n, tileM, b) + Overlap(start + n, n', tileM, b)
  {
  }

  /** What substream `sub` fires for tile b of expert e. */
  ghost function Fired(r: Routing, e: nat, b: nat): nat -> nat
    requires r.Valid() && e < r.numExperts
  {
    (sub: nat) => if sub + 1 < |r.starts| then Overlap(r.BasePool(sub, e), Max(0, r.Seen(sub, e)), r.tileM, b) else 0
  }

  lemma {:induction false} FiredPrefix(r: Routing, e: nat, b: nat, sub: nat)
    requires r.Valid() && e < r.numExperts && sub < |r.starts|
    ensures SumN(Fired(r, e, b), sub) == Overlap(r.Pool().Offset(e) * r.tileM, Taken(r.tokens, e, r.starts[sub]), r.tileM, b)
  {
    if sub > 0 {
      FiredPrefix(r, e, b, sub - 1);
      FiredNext(r, e, b, sub - 1);
    }
  }

  lemma FiredNext(r: Routing, e: nat, b: nat, sub: nat)
    requires r.Valid() && e < r.numExperts && sub + 1 < |r.starts|
    ensures Overlap(r.Pool().Offset(e) * r.tileM, Taken(r.tokens, e, r.starts[sub + 1]), r.tileM, b)
         == Overlap(r.Pool().Offset(e) * r.tileM, Taken(r.tokens, e, r.starts[sub]), r.tileM, b) + Fired(r, e, b)(sub)
  {
    SeenIs(r, sub, e);
    var n, seen := Taken(r.tokens, e, r.starts[sub]), r.Seen(sub, e);
    OverlapSplits(r.Pool().Offset(e) * r.tileM, n, seen, r.tileM, b);
  }

  lemma SeenIs(r: Routing, sub: nat, e: nat)
    requires r.Valid() && sub + 1 < |r.starts|
    ensures r.starts[sub] <= r.starts[sub + 1] <= |r.tokens| && r.Seen(sub, e) >= 0
    ensures Taken(r.tokens, e, r.starts[sub + 1]) == Taken(r.tokens, e, r.starts[sub]) + r.Seen(sub, e)
  {
    assert r.starts[sub + 1] <= r.starts[|r.starts| - 1];
    TakenMono(r.tokens, e, r.starts[sub], r.starts[sub + 1]);
  }

  /** Over all substreams a tile is fired exactly up to its target. */
  lemma FiredSumsToTarget(r: Routing, e: nat, b: nat)
    requires r.Valid() && r.Pool().InExpert(e, b)
    ensures SumN(Fired(r, e, b), |r.starts| - 1) == r.Pool().Target(b)
  {
    var l := r.Pool();
    FiredPrefix(r, e, b, |r.starts| - 1);
    TargetCountsReal(l, e, b);
    TargetIsOverlap(l, e, b);
  }

  lemma TargetIsOverlap(l: Layout, e: nat, b: nat)
    requires l.Valid() && l.InExpert(e, b)
    ensures Overlap(l.Offset(e) * l.tileM, l.rows[e], l.tileM, b) == TargetOf(l, e, b)
  {
    var k, n := b - l.Offset(e), l.Tiles(e);
    ShareBounds(l, e);
    TileShare(l.rows[e], l.tileM, k, n);
    OverlapOf(l.Offset(e), l.rows[e], l.tileM, k);
  }

  lemma ShareBounds(l: Layout, e: nat)
    requires l.Valid() && e < |l.rows|
    ensures l.Tiles(e) == l.Offset(e + 1) - l.Offset(e)
    ensures l.Tiles(e) > 0 ==> (l.Tiles(e) - 1) * l.tileM < l.rows[e] <= l.Tiles(e) * l.tileM
  {
    CeilDiv(l.rows[e], l.tileM);
    RowsFit(l, e);
  }

  lemma TileShare(rows: nat, tileM: nat, k: nat, n: nat)
    requires k < n && (n - 1) * tileM < rows <= n * tileM
    ensures Max(0, Min(rows, k * tileM + tileM) - k * tileM) == if k == n - 1 then rows - k * tileM else tileM
  {
    assert n * tileM == (n - 1) * tileM + tileM && (k + 1) * tileM == k * tileM + tileM;
    if k < n - 1 {
      MulLe(k + 1, n - 1, tileM);
    }
  }

  lemma OverlapOf(first: nat, n: nat, tileM: nat, k: nat)
    ensures Overlap(first * tileM, n, tileM, first + k) == Max(0, Min(n, k * tileM + tileM) - k * tileM)
  {
    assert (first + k) * tileM == first * tileM + k * tileM;
    MulNonNeg(k, tileM);
  }

  /** No other expert's substream rows touch the tile. */
  lemma OthersFireNothing(r: Routing, e: nat, e': nat, b: nat, sub: nat)
    requires r.Valid() && r.Pool().InExpert(e, b) && e' < r.numExperts && e' != e && sub + 1 < |r.starts|
    ensures Fired(r, e', b)(sub) == 0
  {
    var l := r.Pool();
    RowsFit(l, e');
    assert r.starts[sub + 1] <= r.starts[|r.starts| - 1];
    TakenMono(r.tokens, e', r.starts[sub], r.starts[sub + 1]);
    TakenMono(r.tokens, e', r.starts[sub + 1], |r.tokens|);
    assert (b + 1) * l.tileM == b * l.tileM + l.tileM;
    if e' < e {
      OffsetMono(l, e' + 1, e);
      MulLe(l.Offset(e' + 1), b, l.tileM);
    } else {
      OffsetMono(l, e + 1, e');
      MulLe(b + 1, l.Offset(e'), l.tileM);
    }
  }

  /** The firing loop of a drained substream, expert by expert. */
  method FireSubstream(r: Routing, sub: nat, base: seq<nat>, seen: seq<nat>, arrivalCount: array<nat>)
    requires r.Valid() && sub + 1 < |r.starts| && Bases(r, sub, base) && |seen| == r.numExperts
    requires forall e: nat :: e < r.numExperts ==> seen[e] == r.Seen(sub, e)
    requires arrivalCount.Length == r.Pool().TotalTiles()
    modifies arrivalCount
    ensures forall e: nat, b: nat :: b < arrivalCount.Length && r.Pool().InExpert(e, b) ==>
              arrivalCount[b] == old(arrivalCount[b]) + Fired(r, e, b)(sub)
  {
    for e := 0 to r.numExperts
      invariant forall b: nat :: b < arrivalCount.Length ==>
                  arrivalCount[b] == old(arrivalCount[b]) + FiredBelow(r, e, b, sub)
    {
      if seen[e] != 0 {
        LastBlock(r, sub, e);
        FirePoolBlocks(base[e], seen[e], r.tileM, arrivalCount);
      }
    }
    forall e: nat, b: nat | b < arrivalCount.Length && r.Pool().InExpert(e, b)
      ensures FiredBelow(r, r.numExperts, b, sub) == Fired(r, e, b)(sub) {
      OnlyOwnerFires(r, e, b, sub, r.numExperts);
    }
  }

  /** What the substream fires into tile b for the experts below n. */
  ghost function FiredBelow(r: Routing, n: nat, b: nat, sub: nat): nat
    requires r.Valid() && n <= r.numExperts && sub + 1 < |r.starts|
  {
    if n == 0 then 0 else FiredBelow(r, n - 1, b, sub) + Fired(r, n - 1, b)(sub)
  }

  lemma {:induction false} OnlyOwnerFires(r: Routing, e: nat, b: nat, sub: nat, n: nat)
    requires r.Valid() && r.Pool().InExpert(e, b) && n <= r.numExperts && sub + 1 < |r.starts|
    ensures FiredBelow(r, n, b, sub) == if e < n then Fired(r, e, b)(sub) else 0
  {
    if n > 0 {
      OnlyOwnerFires(r, e, b, sub, n - 1);
      if n - 1 != e {
        OthersFireNothing(r, e, n - 1, b, sub);
      }
    }
  }

  lemma LastBlock(r: Routing, sub: nat, e: nat)
    requires r.Valid() && sub + 1 < |r.starts| && e < r.numExperts && r.Seen(sub, e) > 0
    ensures (r.BasePool(sub, e) + r.Seen(sub, e) - 1) / r.tileM < r.Pool().TotalTiles()
  {
    var l := r.Pool();
    RowsFit(l, e);
    assert r.starts[sub + 1] <= r.starts[|r.starts| - 1];
    TakenMono(r.tokens, e, r.starts[sub + 1], |r.tokens|);
    OffsetMono(l, e + 1, |l.rows|);
    MulLe(l.Offset(e + 1), l.TotalTiles(), l.tileM);
    DivBound(r.BasePool(sub, e) + r.Seen(sub, e) - 1, l.TotalTiles(), r.tileM);
  }
}
