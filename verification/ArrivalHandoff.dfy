/** The count-against-target handoff between the producers of pool rows and a consumer that spins on a tile.
  * A producer writes all of its rows and then adds, tile by tile, how many of them lie in the tile; the
  * consumer reads a tile once its count equals the target. Every write, add and read is a step of its own. */
module ArrivalHandoff {
  import opened Arith
  import opened Sums
  import opened PoolLayout
  import opened DispatchPool
  import opened DispatchDelivery

  datatype Handoff = Handoff(
    producers: nat,
    tiles: nat,
    tileM: nat,
    owner: nat -> nat,             // producer that writes a slot
    used: nat -> bool,             // slots that are written at all
    share: (nat, nat) -> nat,      // what a producer adds for a tile
    target: nat -> nat,
    value: nat -> int              // the final contents of a slot
  ) {
    ghost function Shares(t: nat): nat -> nat {
      (p: nat) => share(p, t)
    }

    /** The shares of a tile add up to its target, and whoever has a row in the tile has a share of it. */
    ghost predicate Valid() {
      tileM > 0 && SharesAddUp() && OwnersShare()
    }

    ghost predicate SharesAddUp() {
      forall t: nat :: t < tiles ==> SumN(Shares(t), producers) == target(t)
    }

    ghost predicate OwnersShare()
      requires tileM > 0
    {
      forall slot: nat :: used(slot) && slot / tileM < tiles ==>
        owner(slot) < producers && share(owner(slot), slot / tileM) > 0
    }
  }

  datatype State = State(
    written: set<nat>,
    pool: map<nat, int>,
    fired: set<(nat, nat)>,
    count: seq<nat>,
    consumed: seq<(nat, int)>      // slots read by the consumer, with what it found
  )

  datatype Action = Write(slot: nat) | Fire(producer: nat, tile: nat) | Consume(slot: nat)

  ghost function Init(h: Handoff, garbage: nat -> int): State {
    State({}, map slot: nat | slot < h.tiles * h.tileM :: garbage(slot), {}, seq(h.tiles, _ => 0), [])
  }

  ghost predicate Drained(h: Handoff, s: State, p: nat)
    requires h.tileM > 0
  {
    forall slot: nat :: h.used(slot) && h.owner(slot) == p && slot / h.tileM < h.tiles ==> slot in s.written
  }

  ghost predicate Enabled(h: Handoff, s: State, a: Action)
    requires h.tileM > 0
  {
    match a
    case Write(slot) => slot in s.pool && h.used(slot) && slot !in s.written
    case Fire(p, t) =>
      p < h.producers && t < h.tiles && t < |s.count| && h.share(p, t) > 0 && (p, t) !in s.fired && Drained(h, s, p)
    case Consume(slot) =>
      slot in s.pool && h.used(slot) && slot / h.tileM < h.tiles && slot / h.tileM < |s.count|
      && s.count[slot / h.tileM] == h.target(slot / h.tileM)
  }

  ghost function Next(h: Handoff, s: State, a: Action): State
    requires h.tileM > 0 && Enabled(h, s, a)
  {
    match a
    case Write(slot) => s.(written := s.written + {slot}, pool := s.pool[slot := h.value(slot)])
    case Fire(p, t) => s.(fired := s.fired + {(p, t)}, count := s.count[t := s.count[t] + h.share(p, t)])
    case Consume(slot) => s.(consumed := s.consumed + [(slot, s.pool[slot])])
  }

  ghost predicate Run(h: Handoff, garbage: nat -> int, steps: seq<Action>, s: State)
    requires h.tileM > 0
    decreases |steps|
  {
    if steps == [] then s == Init(h, garbage)
    else
      var n := |steps| - 1;
      exists s0 :: Run(h, garbage, steps[..n], s0) && Enabled(h, s0, steps[n]) && s == Next(h, s0, steps[n])
  }

  ghost function FiredShare(h: Handoff, fired: set<(nat, nat)>, t: nat): nat -> nat {
    (p: nat) => ShareIf(h, fired, p, t)
  }

  ghost function ShareIf(h: Handoff, fired: set<(nat, nat)>, p: nat, t: nat): nat {
    if (p, t) in fired then h.share(p, t) else 0
  }

  ghost predicate InvCount(h: Handoff, s: State) {
    |s.count| == h.tiles && forall t: nat :: t < h.tiles ==> s.count[t] == SumN(FiredShare(h, s.fired, t), h.producers)
  }

  ghost predicate InvRows(h: Handoff, s: State)
    requires h.tileM > 0
  {
    && (forall p: nat, t: nat :: (p, t) in s.fired ==> Drained(h, s, p))
    && (forall slot: nat :: slot in s.written ==> slot in s.pool && s.pool[slot] == h.value(slot))
    && (forall i :: 0 <= i < |s.consumed| ==> s.consumed[i].1 == h.value(s.consumed[i].0))
  }

  lemma {:induction false} SharesBelow(f: nat -> nat, g: nat -> nat, n: nat)
    requires forall i: nat :: i < n ==> f(i) <= g(i)
    ensures SumN(f, n) <= SumN(g, n)
    ensures SumN(f, n) == SumN(g, n) ==> forall i: nat :: i < n ==> f(i) == g(i)
  {
    if n > 0 {
      SharesBelow(f, g, n - 1);
    }
  }

  /** A complete count means that every producer with rows in the tile has fired, hence drained. */
  lemma CompleteIsWritten(h: Handoff, s: State, slot: nat)
    requires h.Valid() && InvCount(h, s) && InvRows(h, s) && h.used(slot) && slot / h.tileM < h.tiles
    requires s.count[slot / h.tileM] == h.target(slot / h.tileM)
    ensures slot in s.written && slot in s.pool && s.pool[slot] == h.value(slot)
  {
    var t := slot / h.tileM;
    SharesBelow(FiredShare(h, s.fired, t), h.Shares(t), h.producers);
    assert FiredShare(h, s.fired, t)(h.owner(slot)) == h.Shares(t)(h.owner(slot));
    assert (h.owner(slot), t) in s.fired;
  }

  lemma FireCounts(h: Handoff, s: State, p: nat, t: nat)
    requires h.Valid() && InvCount(h, s) && Enabled(h, s, Fire(p, t))
    ensures InvCount(h, Next(h, s, Fire(p, t)))
    ensures s.count[t] + h.share(p, t) <= h.target(t)
  {
    var s' := Next(h, s, Fire(p, t));
    forall t': nat | t' < h.tiles ensures s'.count[t'] == SumN(FiredShare(h, s'.fired, t'), h.producers) {
      var f, g := FiredShare(h, s.fired, t'), FiredShare(h, s'.fired, t');
      if t' == t {
        SumNBump(f, g, p, h.producers);
      } else {
        SumNEq(f, g, h.producers);
      }
    }
    SharesBelow(FiredShare(h, s'.fired, t), h.Shares(t), h.producers);
  }

  lemma InvStep(h: Handoff, s: State, a: Action)
    requires h.Valid() && InvCount(h, s) && InvRows(h, s) && Enabled(h, s, a)
    ensures InvCount(h, Next(h, s, a)) && InvRows(h, Next(h, s, a))
  {
    match a
    case Write(slot) =>
    case Fire(p, t) => FireCounts(h, s, p, t);
    case Consume(slot) => CompleteIsWritten(h, s, slot);
  }

  lemma {:induction false} RunInv(h: Handoff, garbage: nat -> int, steps: seq<Action>, s: State)
    requires h.Valid() && Run(h, garbage, steps, s)
    ensures InvCount(h, s) && InvRows(h, s)
    decreases |steps|
  {
    if steps == [] {
      forall t: nat | t < h.tiles ensures SumN(FiredShare(h, {}, t), h.producers) == 0 {
        NoneFired(h, t, h.producers);
      }
    } else {
      var n := |steps| - 1;
      var s0 :| Run(h, garbage, steps[..n], s0) && Enabled(h, s0, steps[n]) && s == Next(h, s0, steps[n]);
      RunInv(h, garbage, steps[..n], s0);
      InvStep(h, s0, steps[n]);
    }
  }

  lemma {:induction false} NoneFired(h: Handoff, t: nat, n: nat)
    ensures SumN(FiredShare(h, {}, t), n) == 0
  {
    if n > 0 {
      NoneFired(h, t, n - 1);
    }
  }

  /** In every interleaving: the count never passes the target, so an equality spin cannot miss it; a complete
    * tile holds only final rows; and nothing the consumer ever read was anything but a final row. */
  lemma HandoffSafe(h: Handoff, garbage: nat -> int, steps: seq<Action>, s: State)
    requires h.Valid() && Run(h, garbage, steps, s)
    ensures |s.count| == h.tiles && forall t: nat :: t < h.tiles ==> s.count[t] <= h.target(t)
    ensures forall slot: nat :: (h.used(slot) && slot / h.tileM < h.tiles
              && s.count[slot / h.tileM] == h.target(slot / h.tileM)) ==> slot in s.pool && s.pool[slot] == h.value(slot)
    ensures forall i :: 0 <= i < |s.consumed| ==> s.consumed[i].1 == h.value(s.consumed[i].0)
  {
    RunInv(h, garbage, steps, s);
    forall t: nat | t < h.tiles ensures s.count[t] <= h.target(t) {
      SharesBelow(FiredShare(h, s.fired, t), h.Shares(t), h.producers);
    }
    forall slot: nat | h.used(slot) && slot / h.tileM < h.tiles && s.count[slot / h.tileM] == h.target(slot / h.tileM)
      ensures slot in s.pool && s.pool[slot] == h.value(slot) {
      CompleteIsWritten(h, s, slot);
    }
  }

  /** Once the producers have nothing left to write or fire, every tile is complete. */
  lemma HandoffCompletes(h: Handoff, garbage: nat -> int, steps: seq<Action>, s: State, t: nat)
    requires h.Valid() && Run(h, garbage, steps, s) && t < h.tiles
    requires forall slot: nat :: !Enabled(h, s, Write(slot))
    requires forall p: nat, t: nat :: !Enabled(h, s, Fire(p, t))
    ensures |s.count| == h.tiles && s.count[t] == h.target(t)
  {
    RunInv(h, garbage, steps, s);
    PoolKept(h, garbage, steps, s);
    var f, g := FiredShare(h, s.fired, t), h.Shares(t);
    forall p: nat | p < h.producers ensures f(p) == g(p) {
      forall slot: nat | h.used(slot) && h.owner(slot) == p && slot / h.tileM < h.tiles ensures slot in s.written {
        assert !Enabled(h, s, Write(slot));
        SlotInPool(h, slot);
      }
      assert Drained(h, s, p);
      assert !Enabled(h, s, Fire(p, t));
    }
    SumNEq(f, g, h.producers);
  }

  lemma SlotInPool(h: Handoff, slot: nat)
    requires h.tileM > 0 && slot / h.tileM < h.tiles
    ensures slot < h.tiles * h.tileM
  {
    PairBound(slot / h.tileM, slot % h.tileM, h.tiles, h.tileM);
  }

  lemma {:induction false} PoolKept(h: Handoff, garbage: nat -> int, steps: seq<Action>, s: State)
    requires h.tileM > 0 && Run(h, garbage, steps, s)
    ensures forall slot: nat :: slot < h.tiles * h.tileM ==> slot in s.pool
    decreases |steps|
  {
    if steps != [] {
      var n := |steps| - 1;
      var s0 :| Run(h, garbage, steps[..n], s0) && Enabled(h, s0, steps[n]) && s == Next(h, s0, steps[n]);
      PoolKept(h, garbage, steps[..n], s0);
    }
  }

  // ---------------------------------------------------------------------------
  // Dispatch is such a producer.
  // ---------------------------------------------------------------------------

  /** The substream a token belongs to. */
  ghost function SubOf(r: Routing, g: nat): (sub: nat)
    requires r.Valid() && g < |r.tokens|
    ensures sub + 1 < |r.starts| && r.starts[sub] <= g < r.starts[sub + 1]
  {
    SubExists(r, g, |r.starts| - 1);
    var sub: nat :| sub + 1 < |r.starts| && r.starts[sub] <= g < r.starts[sub + 1];
    sub
  }

  lemma {:induction false} SubExists(r: Routing, g: nat, n: nat)
    requires r.Valid() && n < |r.starts| && g < r.starts[n]
    ensures exists sub: nat :: sub + 1 < |r.starts| && r.starts[sub] <= g < r.starts[sub + 1]
  {
    if r.starts[n - 1] <= g {
      assert r.starts[n - 1] <= g < r.starts[(n - 1) + 1];
    } else {
      SubExists(r, g, n - 1);
    }
  }

  ghost function OwnerOf(r: Routing): nat -> nat
    requires r.Valid()
  {
    (slot: nat) => if r.Pool().Real(slot) then SubOf(r, PairAt(r, slot).0) else 0
  }

  ghost function PairAt(r: Routing, slot: nat): (x: (nat, nat))
    requires r.Valid() && r.Pool().Real(slot)
    ensures r.Pair(x.0, x.1) && r.Slot(x.0, x.1) == slot
  {
    PairExists(r, slot);
    var g: nat, k: nat :| r.Pair(g, k) && r.Slot(g, k) == slot;
    (g, k)
  }

  lemma PairExists(r: Routing, slot: nat)
    requires r.Valid() && r.Pool().Real(slot)
    ensures exists g: nat, k: nat :: r.Pair(g, k) && r.Slot(g, k) == slot
  {
    var g, k := SlotOnto(r, slot);
  }

  ghost function TileShare(r: Routing): (nat, nat) -> nat
    requires r.Valid()
  {
    (sub: nat, t: nat) => ShareOf(r, sub, t)
  }

  ghost function ShareOf(r: Routing, sub: nat, t: nat): nat
    requires r.Valid()
  {
    if exists e: nat :: r.Pool().InExpert(e, t) then Fired(r, ExpertAt(r.Pool(), t), t)(sub) else 0
  }

  ghost function ExpertAt(l: Layout, t: nat): (e: nat)
    requires l.Valid() && exists e: nat :: l.InExpert(e, t)
    ensures l.InExpert(e, t)
  {
    var e: nat :| l.InExpert(e, t);
    e
  }

  ghost function DispatchHandoff(r: Routing, value: nat -> int): Handoff
    requires r.Valid()
  {
    Handoff(|r.starts| - 1, r.Pool().TotalTiles(), r.tileM, OwnerOf(r), (slot: nat) => r.Pool().Real(slot),
            TileShare(r), (t: nat) => r.Pool().Target(t), value)
  }

  /** A pair's slot lies among the slots its substream takes for the expert. */
  lemma SlotOfSub(r: Routing, g: nat, k: nat, sub: nat)
    requires r.Valid() && r.Pair(g, k) && sub + 1 < |r.starts| && r.starts[sub] <= g < r.starts[sub + 1]
    ensures r.BasePool(sub, r.tokens[g][k]) <= r.Slot(g, k)
    ensures r.Slot(g, k) < r.BasePool(sub, r.tokens[g][k]) + r.Seen(sub, r.tokens[g][k])
  {
    var e := r.tokens[g][k];
    assert r.starts[sub + 1] <= r.starts[|r.starts| - 1];
    TakenMono(r.tokens, e, r.starts[sub], g);
    RankGrows(r.tokens, e, g, k);
    assert Rank(r.tokens, e, g, k) < Taken(r.tokens, e, r.starts[sub + 1]);
  }

  lemma OverlapHasSlot(start: nat, n: nat, tileM: nat, slot: nat)
    requires tileM > 0 && start <= slot < start + n
    ensures Overlap(start, n, tileM, slot / tileM) > 0
  {
    assert slot == slot / tileM * tileM + slot % tileM;
  }

  lemma DispatchShare(r: Routing, slot: nat, t: nat)
    requires r.Valid() && r.Pool().Real(slot) && t == slot / r.tileM && t < r.Pool().TotalTiles()
    ensures OwnerOf(r)(slot) < |r.starts| - 1 && TileShare(r)(OwnerOf(r)(slot), t) > 0
  {
    var l := r.Pool();
    var x := PairAt(r, slot);
    var sub, e := SubOf(r, x.0), r.tokens[x.0][x.1];
    SlotOfSub(r, x.0, x.1, sub);
    SlotInExpert(r, x.0, x.1);
    TileOfReal(l, e, slot);
    ShareAt(r, sub, e, t);
    OverlapHasSlot(r.BasePool(sub, e), r.Seen(sub, e), r.tileM, slot);
  }

  lemma ShareAt(r: Routing, sub: nat, e: nat, t: nat)
    requires r.Valid() && r.Pool().InExpert(e, t) && sub + 1 < |r.starts| && r.Seen(sub, e) >= 0
    ensures ShareOf(r, sub, t) == Overlap(r.BasePool(sub, e), r.Seen(sub, e), r.tileM, t)
  {
    OneOwner(r.Pool(), t, e, ExpertAt(r.Pool(), t));
  }

  ghost function SharesOf(r: Routing, t: nat): nat -> nat
    requires r.Valid()
  {
    (sub: nat) => ShareOf(r, sub, t)
  }

  lemma DispatchTarget(r: Routing, t: nat)
    requires r.Valid() && t < r.Pool().TotalTiles()
    ensures SumN(SharesOf(r, t), |r.starts| - 1) == r.Pool().Target(t)
  {
    var l := r.Pool();
    var e := SomeOwner(l, t, |l.rows|);
    OneOwner(l, t, e, ExpertAt(l, t));
    SumNEq(SharesOf(r, t), Fired(r, e, t), |r.starts| - 1);
    FiredSumsToTarget(r, e, t);
  }

  lemma DispatchSum(r: Routing, value: nat -> int, t: nat)
    requires r.Valid() && t < r.Pool().TotalTiles()
    ensures SumN(DispatchHandoff(r, value).Shares(t), |r.starts| - 1) == r.Pool().Target(t)
  {
    SumNEq(DispatchHandoff(r, value).Shares(t), SharesOf(r, t), |r.starts| - 1);
    DispatchTarget(r, t);
  }

  /** What the substreams of a dispatch fire satisfies the handoff's terms, so a consumer of its pool is safe
    * and never waits for ever. */
  lemma DispatchIsHandoff(r: Routing, value: nat -> int)
    requires r.Valid()
    ensures DispatchHandoff(r, value).Valid()
  {
    DispatchShares(r, value);
    DispatchOwners(r, value);
  }

  lemma DispatchShares(r: Routing, value: nat -> int)
    requires r.Valid()
    ensures DispatchHandoff(r, value).SharesAddUp()
  {
    var h := DispatchHandoff(r, value);
    forall t: nat | t < h.tiles ensures SumN(h.Shares(t), h.producers) == h.target(t) {
      DispatchSum(r, value, t);
    }
  }

  lemma DispatchOwners(r: Routing, value: nat -> int)
    requires r.Valid()
    ensures DispatchHandoff(r, value).tileM > 0 && DispatchHandoff(r, value).OwnersShare()
  {
    var h := DispatchHandoff(r, value);
    forall slot: nat | h.used(slot) && slot / h.tileM < h.tiles
      ensures h.owner(slot) < h.producers && h.share(h.owner(slot), slot / h.tileM) > 0 {
      DispatchOwner(r, value, slot, slot / h.tileM);
    }
  }

  lemma DispatchOwner(r: Routing, value: nat -> int, slot: nat, t: nat)
    requires r.Valid() && DispatchHandoff(r, value).used(slot)
    requires t == slot / r.tileM && t < DispatchHandoff(r, value).tiles
    ensures DispatchHandoff(r, value).owner(slot) < |r.starts| - 1
    ensures DispatchHandoff(r, value).share(DispatchHandoff(r, value).owner(slot), t) > 0
  {
    DispatchShare(r, slot, t);
  }
}
