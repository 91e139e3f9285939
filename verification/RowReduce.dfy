/** The backward epilogue over a whole tile: every warp of every stripe visits its subtiles, the leader warp of
  * a stripe merges the row sums of the others and adds them to the flat buffer of weight gradients. The
  * registers hold the gradients of the expert, and the buffer ends with the full-row dot products, however
  * the columns are dealt to stripes, warps and subtiles and in whatever order the stripes finish. */
module RowReduce {
  import opened Sums
  import B = KernelYBwd
  import C = ChainRule

  // ---------------------------------------------------------------------------
  // Sums over parts.
  // ---------------------------------------------------------------------------

  ghost function InPart(part: nat -> nat, p: nat): nat -> bool {
    (i: nat) => part(i) == p
  }

  ghost function InPartsBelow(part: nat -> nat, p: nat): nat -> bool {
    (i: nat) => part(i) < p
  }

  ghost function PartSum(part: nat -> nat, f: nat -> real, n: nat): nat -> real {
    (p: nat) => Sum(Masked(InPart(part, p), f), n)
  }

  lemma {:induction false} PartsBelowSum(part: nat -> nat, f: nat -> real, n: nat, p: nat)
    ensures Sum(PartSum(part, f, n), p) == Sum(Masked(InPartsBelow(part, p), f), n)
  {
    if p == 0 {
      SumZero(Masked(InPartsBelow(part, 0), f), n);
    } else {
      PartsBelowSum(part, f, n, p - 1);
      SumSplit(InPartsBelow(part, p - 1), InPart(part, p - 1), InPartsBelow(part, p), f, n);
    }
  }

  /** However the columns are dealt to the parts, the parts' sums add up to the full row. */
  lemma PartsAreRow(part: nat -> nat, parts: nat, f: nat -> real, n: nat)
    requires forall i: nat :: i < n ==> part(i) < parts
    ensures Sum(PartSum(part, f, n), parts) == Sum(f, n)
  {
    PartsBelowSum(part, f, n, parts);
    SumEq(Masked(InPartsBelow(part, parts), f), f, n);
  }

  ghost function Rest(f: nat -> real): nat -> real {
    (k: nat) => f(k + 1)
  }

  lemma {:induction false} FirstAndRest(f: nat -> real, n: nat)
    requires n > 0
    ensures Sum(f, n) == f(0) + Sum(Rest(f), n - 1)
  {
    if n > 1 {
      FirstAndRest(f, n - 1);
    }
  }

  /** The leader warp's sum and those of the others make up the whole. */
  lemma LeaderAndOthers(warp: nat -> nat, warps: nat, f: nat -> real, n: nat)
    requires warps > 0 && forall i: nat :: i < n ==> warp(i) < warps
    ensures PartSum(warp, f, n)(0) + Sum(Rest(PartSum(warp, f, n)), warps - 1) == Sum(f, n)
  {
    PartsAreRow(warp, warps, f, n);
    FirstAndRest(PartSum(warp, f, n), warps);
  }

  // ---------------------------------------------------------------------------
  // The end of a stripe's loop.
  // ---------------------------------------------------------------------------

  /** A row sum with the first n exchanged ones merged in. */
  function Merged(v: B.Num, exch: seq<B.Num>, n: nat): B.Num
    requires n <= |exch|
  {
    if n == 0 then v else B.Plus(Merged(v, exch, n - 1), exch[n - 1])
  }

  /** Finite sums merge to their sum. */
  lemma {:induction false} MergedIs(v: real, exch: seq<B.Num>, f: nat -> real, n: nat)
    requires n <= |exch| && forall k: nat :: k < n ==> exch[k] == B.Fin(f(k))
    ensures Merged(B.Fin(v), exch, n) == B.Fin(v + Sum(f, n))
  {
    if n > 0 {
      MergedIs(v, exch, f, n - 1);
    }
  }

  /** The leader warp merges the other warps' sums of every row and adds the result to the flat buffer, for the
    * rows inside the limit. */
  method EndLoopFinish(vals: array<B.Num>, exch: seq<seq<B.Num>>, warpsInN: nat, limitM: nat, param: array<B.Num>, first: nat)
    requires warpsInN > 0 && first + vals.Length <= param.Length && vals != param && |exch| == vals.Length
    requires forall m: nat :: m < |exch| ==> |exch[m]| == warpsInN - 1
    modifies vals, param
    ensures forall k: nat :: k < param.Length ==>
              param[k] == if first <= k < first + vals.Length && k - first < limitM
                          then B.Plus(old(param[k]), Merged(old(vals[..])[k - first], exch[k - first], warpsInN - 1))
                          else old(param[k])
  {
    ghost var v0 := vals[..];
    MergeWarps(vals, exch, warpsInN);
    for row := 0 to vals.Length
      invariant forall m: nat :: m < vals.Length ==> vals[m] == Merged(v0[m], exch[m], warpsInN - 1)
      invariant forall k: nat :: k < param.Length ==>
                  param[k] == if first <= k < first + row && k - first < limitM
                              then B.Plus(old(param[k]), vals[k - first]) else old(param[k])
    {
      if row < limitM {
        param[first + row] := B.Plus(param[first + row], vals[row]);
      }
    }
  }

  method MergeWarps(vals: array<B.Num>, exch: seq<seq<B.Num>>, warpsInN: nat)
    requires warpsInN > 0 && |exch| == vals.Length && forall m: nat :: m < |exch| ==> |exch[m]| == warpsInN - 1
    modifies vals
    ensures forall m: nat :: m < vals.Length ==> vals[m] == Merged(old(vals[m]), exch[m], warpsInN - 1)
  {
    for row := 0 to vals.Length
      invariant forall m: nat :: m < row ==> vals[m] == Merged(old(vals[m]), exch[m], warpsInN - 1)
      invariant forall m: nat :: row <= m < vals.Length ==> vals[m] == old(vals[m])
    {
      for warp := 1 to warpsInN
        invariant vals[row] == Merged(old(vals[row]), exch[row], warp - 1)
        invariant forall m: nat :: m < row ==> vals[m] == Merged(old(vals[m]), exch[m], warpsInN - 1)
        invariant forall m: nat :: row < m < vals.Length ==> vals[m] == old(vals[m])
      {
        vals[row] := B.Plus(vals[row], exch[row][warp - 1]);
      }
    }
  }

  // ---------------------------------------------------------------------------
  // A tile.
  // ---------------------------------------------------------------------------

  /** The rows of a tile: the expert that each routed row goes through, negative receive tokens for padding. */
  datatype Rows = Rows(height: nat, hidden: nat, expert: nat -> C.Expert, recv: nat -> int)

  /** A fragment carries the values of its rows' experts at its columns; padding elements may hold anything. */
  ghost predicate Carries(f: B.Frag, col: nat -> nat, x: Rows)
    requires f.Valid()
  {
    f.rows == x.height && forall i: nat :: i < f.N() ==> CarriesAt(f, col, x, i)
  }

  ghost predicate CarriesAt(f: B.Frag, col: nat -> nat, x: Rows, i: nat)
    requires f.Valid() && i < f.N()
  {
    var e, c := x.expert(f.rowOf[i]), col(i);
    && f.recv[i] == x.recv(f.rowOf[i])
    && (f.Active(i) ==>
          && f.Clean(i) && f.act == e.act && f.Gate(i) == e.gate(c).v && f.Up(i) == e.up(c).v
          && f.g[i].v == e.G(x.hidden, c) && f.weight[i] == e.w.v && f.D(i) == e.mask(c))
  }

  /** The registers hold the gradients of the expert, and exact zeros on padding. */
  ghost predicate HoldsGradient(f: B.Frag, col: nat -> nat, x: Rows, i: nat, dxy: seq<B.Num>, post: seq<B.Num>)
    requires f.Valid() && i < f.N() && |dxy| == 2 * f.N() && |post| == f.N()
  {
    var e, c := x.expert(f.rowOf[i]), col(i);
    if f.Active(i) then
      && dxy[2 * i] == B.Fin(e.DGate(x.hidden, c)) && dxy[2 * i + 1] == B.Fin(e.DUp(x.hidden, c))
      && post[i] == B.Fin(e.w.v * e.PostV(c))
    else dxy[2 * i] == dxy[2 * i + 1] == post[i] == B.Fin(0.0)
  }

  lemma WeightedIsGradient(f: B.Frag, col: nat -> nat, x: Rows, i: nat, dxy: seq<B.Num>, post: seq<B.Num>)
    requires f.Valid() && i < f.N() && |dxy| == 2 * f.N() && |post| == f.N()
    requires CarriesAt(f, col, x, i) && B.Weighted(f, i, dxy, post)
    ensures HoldsGradient(f, col, x, i, dxy, post)
  {
  }

  /** What column c gives to row m's weight gradient. */
  ghost function RowTerm(x: Rows, m: nat): nat -> real {
    (c: nat) => if x.recv(m) >= 0 then C.DotTerm(x.expert(m), x.hidden)(c) else 0.0
  }

  lemma DotIsTerm(f: B.Frag, col: nat -> nat, x: Rows, i: nat)
    requires f.Valid() && i < f.N() && CarriesAt(f, col, x, i)
    ensures f.Dot(i) == RowTerm(x, f.rowOf[i])(col(i))
  {
    if f.Active(i) {
      var e, c := x.expert(f.rowOf[i]), col(i);
      assert f.Post(i) == e.PostV(c);
      assert C.DotTerm(e, x.hidden)(c) == e.G(x.hidden, c) * e.PostV(c);
    }
  }

  /** The columns of a tile, dealt to stripes, warps and subtiles. */
  datatype Tiling = Tiling(
    columns: nat, stripes: nat, warps: nat, subs: nat,
    stripeOf: nat -> nat, warpOf: nat -> nat, subOf: nat -> nat,
    frag: (nat, nat, nat) -> B.Frag,                 // (stripe, warp, subtile)
    colOf: (nat, nat, nat) -> nat -> nat,            // column of an element
    elemOf: (nat, nat, nat, nat) -> nat -> nat       // (.., row): element of a column
  ) {
    ghost predicate Valid(x: Rows) {
      && warps > 0
      && (forall c: nat :: c < columns ==> stripeOf(c) < stripes && warpOf(c) < warps && subOf(c) < subs)
      && forall s: nat, w: nat, u: nat :: s < stripes && w < warps && u < subs ==> FragOf(x, s, w, u)
    }

    /** The fragment has, for every row, exactly the columns dealt to it. */
    ghost predicate FragOf(x: Rows, s: nat, w: nat, u: nat) {
      && frag(s, w, u).Valid() && Carries(frag(s, w, u), colOf(s, w, u), x)
      && forall m: nat :: m < x.height ==>
           Bijection(B.OnRow(frag(s, w, u), m), frag(s, w, u).N(), InCell(s, w, u), columns, colOf(s, w, u), elemOf(s, w, u, m))
    }

    ghost predicate Cell(s: nat, w: nat, u: nat, c: nat) {
      stripeOf(c) == s && warpOf(c) == w && subOf(c) == u
    }

    ghost function InCell(s: nat, w: nat, u: nat): nat -> bool { (c: nat) => Cell(s, w, u, c) }
  }

  ghost function StripeTerm(tl: Tiling, x: Rows, s: nat, m: nat): nat -> real {
    Masked(InPart(tl.stripeOf, s), RowTerm(x, m))
  }

  ghost function WarpTerm(tl: Tiling, x: Rows, s: nat, w: nat, m: nat): nat -> real {
    Masked(InPart(tl.warpOf, w), StripeTerm(tl, x, s, m))
  }

  /** A fragment's dot product of a row is the sum over its columns. */
  lemma FragDot(tl: Tiling, x: Rows, s: nat, w: nat, u: nat, m: nat)
    requires tl.FragOf(x, s, w, u) && m < x.height
    ensures B.RowDot(tl.frag(s, w, u), m, tl.frag(s, w, u).N())
         == PartSum(tl.subOf, WarpTerm(tl, x, s, w, m), tl.columns)(u)
  {
    var f, col := tl.frag(s, w, u), tl.colOf(s, w, u);
    var p, q := B.OnRow(f, m), tl.InCell(s, w, u);
    var a, b := B.DotAt(f), RowTerm(x, m);
    forall i: nat | i < f.N() && p(i) ensures a(i) == b(col(i)) {
      DotIsTerm(f, col, x, i);
    }
    SumBijection(p, f.N(), q, tl.columns, col, tl.elemOf(s, w, u, m), a, b);
    CellSum(tl, x, s, w, u, m);
  }

  lemma CellSum(tl: Tiling, x: Rows, s: nat, w: nat, u: nat, m: nat)
    ensures Sum(Masked(tl.InCell(s, w, u), RowTerm(x, m)), tl.columns)
         == PartSum(tl.subOf, WarpTerm(tl, x, s, w, m), tl.columns)(u)
  {
    SumEq(Masked(tl.InCell(s, w, u), RowTerm(x, m)), Masked(InPart(tl.subOf, u), WarpTerm(tl, x, s, w, m)), tl.columns);
  }

  lemma CarriedRowsClean(f: B.Frag, col: nat -> nat, x: Rows)
    requires f.Valid() && Carries(f, col, x)
    ensures forall m: nat :: B.RowClean(f, m, f.N())
  {
    forall m: nat ensures B.RowClean(f, m, f.N()) {
      forall i: nat | i < f.N() && f.Active(i) ensures f.Clean(i) {
        assert CarriesAt(f, col, x, i);
      }
    }
  }

  /** One visit of the epilogue: the registers end with the expert's gradients, the row sums take in the dot
    * products of the fragment's columns. */
  method VisitSubtile(f: B.Frag, acc: array<B.Num>, ghost col: nat -> nat, ghost x: Rows)
    returns (dxy: array<B.Num>, post: array<B.Num>)
    requires f.Valid() && Carries(f, col, x) && acc.Length == x.height
    requires forall m: nat :: m < acc.Length ==> acc[m].Fin?
    modifies acc
    ensures fresh(dxy) && fresh(post) && dxy.Length == 2 * f.N() && post.Length == f.N()
    ensures forall i: nat :: i < f.N() ==> HoldsGradient(f, col, x, i, dxy[..], post[..])
    ensures forall m: nat :: m < acc.Length ==> acc[m] == B.Fin(old(acc[m]).v + B.RowDot(f, m, f.N()))
  {
    CarriedRowsClean(f, col, x);
    dxy, post := B.EpiVisitSubtile(f, acc);
    forall i: nat | i < f.N() ensures HoldsGradient(f, col, x, i, dxy[..], post[..]) {
      assert CarriesAt(f, col, x, i) && B.Weighted(f, i, dxy[..], post[..]);
      WeightedIsGradient(f, col, x, i, dxy[..], post[..]);
    }
  }

  /** A warp over its subtiles: its row sums. */
  method WarpSums(tl: Tiling, s: nat, w: nat, ghost x: Rows, height: nat) returns (acc: array<B.Num>)
    requires tl.Valid(x) && s < tl.stripes && w < tl.warps && height == x.height
    ensures fresh(acc) && acc.Length == height
    ensures forall m: nat :: m < height ==>
              acc[m] == B.Fin(PartSum(tl.warpOf, StripeTerm(tl, x, s, m), tl.columns)(w))
  {
    acc := new B.Num[height](_ => B.Fin(0.0));
    for u := 0 to tl.subs
      invariant forall m: nat :: m < height ==>
                  acc[m] == B.Fin(Sum(PartSum(tl.subOf, WarpTerm(tl, x, s, w, m), tl.columns), u))
    {
      assert tl.FragOf(x, s, w, u);
      forall m: nat | m < height
        ensures B.RowDot(tl.frag(s, w, u), m, tl.frag(s, w, u).N())
             == PartSum(tl.subOf, WarpTerm(tl, x, s, w, m), tl.columns)(u) {
        FragDot(tl, x, s, w, u, m);
      }
      var dxy, post := VisitSubtile(tl.frag(s, w, u), acc, tl.colOf(s, w, u), x);
    }
    forall m: nat | m < height
      ensures Sum(PartSum(tl.subOf, WarpTerm(tl, x, s, w, m), tl.columns), tl.subs)
           == PartSum(tl.warpOf, StripeTerm(tl, x, s, m), tl.columns)(w) {
      PartsAreRow(tl.subOf, tl.subs, WarpTerm(tl, x, s, w, m), tl.columns);
    }
  }

  /** The exchange buffer of a stripe: a row per tile row, a column per warp after the leader. */
  ghost predicate Exchanged(tl: Tiling, x: Rows, s: nat, exch: seq<seq<B.Num>>, warps: nat) {
    && |exch| == x.height && (forall m: nat :: m < |exch| ==> |exch[m]| == warps)
    && forall m: nat, k: nat :: m < |exch| && k < warps ==>
         exch[m][k] == B.Fin(PartSum(tl.warpOf, StripeTerm(tl, x, s, m), tl.columns)(k + 1))
  }

  method StageWarps(tl: Tiling, s: nat, ghost x: Rows, height: nat) returns (exch: seq<seq<B.Num>>)
    requires tl.Valid(x) && s < tl.stripes && height == x.height
    ensures Exchanged(tl, x, s, exch, tl.warps - 1)
  {
    exch := seq(height, _ => []);
    for w := 1 to tl.warps
      invariant Exchanged(tl, x, s, exch, w - 1)
    {
      var acc := WarpSums(tl, s, w, x, height);
      ExchangedNext(tl, x, s, exch, w - 1, acc[..]);
      exch := Appended(exch, acc[..]);
    }
  }

  /** Every row with one more sum. */
  function Appended(exch: seq<seq<B.Num>>, sums: seq<B.Num>): seq<seq<B.Num>>
    requires |exch| == |sums|
  {
    seq(|exch|, m requires 0 <= m < |exch| => exch[m] + [sums[m]])
  }

  lemma ExchangedNext(tl: Tiling, x: Rows, s: nat, exch: seq<seq<B.Num>>, warps: nat, sums: seq<B.Num>)
    requires Exchanged(tl, x, s, exch, warps) && |sums| == |exch|
    requires forall m: nat :: m < |sums| ==>
               sums[m] == B.Fin(PartSum(tl.warpOf, StripeTerm(tl, x, s, m), tl.columns)(warps + 1))
    ensures Exchanged(tl, x, s, Appended(exch, sums), warps + 1)
  {
  }

  lemma StripeMerged(tl: Tiling, x: Rows, s: nat, m: nat, v: B.Num, exch: seq<B.Num>)
    requires tl.Valid(x) && |exch| == tl.warps - 1
    requires v == B.Fin(PartSum(tl.warpOf, StripeTerm(tl, x, s, m), tl.columns)(0))
    requires forall k: nat :: k < |exch| ==>
               exch[k] == B.Fin(PartSum(tl.warpOf, StripeTerm(tl, x, s, m), tl.columns)(k + 1))
    ensures Merged(v, exch, |exch|) == B.Fin(PartSum(tl.stripeOf, RowTerm(x, m), tl.columns)(s))
  {
    var f := PartSum(tl.warpOf, StripeTerm(tl, x, s, m), tl.columns);
    MergedIs(f(0), exch, Rest(f), |exch|);
    LeaderAndOthers(tl.warpOf, tl.warps, StripeTerm(tl, x, s, m), tl.columns);
  }

  /** A stripe from its first subtile to its add: every row inside the limit takes in the stripe's columns. */
  method RunStripe(tl: Tiling, s: nat, limitM: nat, param: array<B.Num>, first: nat, ghost x: Rows, height: nat)
    requires tl.Valid(x) && s < tl.stripes && height == x.height && first + height <= param.Length
    modifies param
    ensures forall k: nat :: k < param.Length ==>
              param[k] == if first <= k < first + height && k - first < limitM
                          then B.Plus(old(param[k]), B.Fin(PartSum(tl.stripeOf, RowTerm(x, k - first), tl.columns)(s)))
                          else old(param[k])
  {
    var exch := StageWarps(tl, s, x, height);
    var vals := WarpSums(tl, s, 0, x, height);
    ghost var v0 := vals[..];
    forall m: nat | m < height
      ensures Merged(v0[m], exch[m], tl.warps - 1) == B.Fin(PartSum(tl.stripeOf, RowTerm(x, m), tl.columns)(s)) {
      StripeMerged(tl, x, s, m, v0[m], exch[m]);
    }
    EndLoopFinish(vals, exch, tl.warps, limitM, param, first);
  }

  ghost function Seen(part: nat -> nat, order: seq<nat>): nat -> bool {
    (c: nat) => part(c) in order
  }

  /** The row's total over the stripes that have finished. */
  ghost function SeenSum(tl: Tiling, x: Rows, m: nat, order: seq<nat>): real {
    Sum(Masked(Seen(tl.stripeOf, order), RowTerm(x, m)), tl.columns)
  }

  lemma SeenNext(tl: Tiling, x: Rows, m: nat, order: seq<nat>, s: nat)
    requires s !in order
    ensures SeenSum(tl, x, m, order + [s])
         == SeenSum(tl, x, m, order) + PartSum(tl.stripeOf, RowTerm(x, m), tl.columns)(s)
  {
    SumSplit(Seen(tl.stripeOf, order), InPart(tl.stripeOf, s), Seen(tl.stripeOf, order + [s]), RowTerm(x, m), tl.columns);
  }

  /** The full-row dot product of a routed row; nothing for padding. */
  ghost function WeightGradient(x: Rows, m: nat, columns: nat): real {
    if x.recv(m) >= 0 then Sum(C.DotTerm(x.expert(m), x.hidden), columns) else 0.0
  }

  lemma AllSeen(tl: Tiling, x: Rows, m: nat, order: seq<nat>)
    requires tl.Valid(x) && forall s: nat :: s < tl.stripes ==> s in order
    ensures SeenSum(tl, x, m, order) == WeightGradient(x, m, tl.columns)
  {
    SumEq(Masked(Seen(tl.stripeOf, order), RowTerm(x, m)), RowTerm(x, m), tl.columns);
    if x.recv(m) >= 0 {
      SumEq(RowTerm(x, m), C.DotTerm(x.expert(m), x.hidden), tl.columns);
    } else {
      SumZero(RowTerm(x, m), tl.columns);
    }
  }

  /** The tile, its stripes finishing in any order: the buffer takes in every routed row's full dot product once,
    * nothing for padding rows whatever they held, and nothing beyond the limit. By ChainRule that dot product is
    * the gradient of the row's routing weight. */
  method RunTile(tl: Tiling, order: seq<nat>, limitM: nat, param: array<B.Num>, first: nat, ghost x: Rows, height: nat)
    requires tl.Valid(x) && height == x.height && first + height <= param.Length
    requires forall s: nat :: s < tl.stripes ==> s in order
    requires forall i: nat :: i < |order| ==> order[i] < tl.stripes
    requires forall i: nat, j: nat :: i < j < |order| ==> order[i] != order[j]
    requires forall k: nat :: first <= k < first + height ==> param[k].Fin?
    modifies param
    ensures forall k: nat :: k < param.Length ==>
              param[k] == if first <= k < first + height && k - first < limitM
                          then B.Fin(old(param[k]).v + WeightGradient(x, k - first, tl.columns)) else old(param[k])
  {
    forall m: nat ensures SeenSum(tl, x, m, order[..0]) == 0.0 {
      SumZero(Masked(Seen(tl.stripeOf, order[..0]), RowTerm(x, m)), tl.columns);
    }
    for n := 0 to |order|
      invariant forall k: nat :: k < param.Length ==>
                  param[k] == if first <= k < first + height && k - first < limitM
                              then B.Fin(old(param[k]).v + SeenSum(tl, x, k - first, order[..n])) else old(param[k])
    {
      RunStripe(tl, order[n], limitM, param, first, x, height);
      assert order[..n + 1] == order[..n] + [order[n]];
      forall m: nat ensures SeenSum(tl, x, m, order[..n + 1])
          == SeenSum(tl, x, m, order[..n]) + PartSum(tl.stripeOf, RowTerm(x, m), tl.columns)(order[n]) {
        SeenNext(tl, x, m, order[..n], order[n]);
      }
    }
    assert order[..|order|] == order;
    forall m: nat ensures SeenSum(tl, x, m, order[..|order|]) == WeightGradient(x, m, tl.columns) {
      AllSeen(tl, x, m, order);
    }
  }
}
