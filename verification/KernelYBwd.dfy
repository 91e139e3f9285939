/** The epilogue of kernel Y's backward pass: masked SwiGLU backward in registers, the padding select, the
  * row reduction on the unweighted gradient, and the weight multiply, in this order. */
module KernelYBwd {
  import opened Sums

  /** A register value; NaN and the infinities are one value that spoils every arithmetic result. */
  datatype Num = Fin(v: real) | Garbage

  function Times(a: Num, b: Num): Num {
    if a.Fin? && b.Fin? then Fin(a.v * b.v) else Garbage
  }

  function Plus(a: Num, b: Num): Num {
    if a.Fin? && b.Fin? then Fin(a.v + b.v) else Garbage
  }

  /** silu and its derivative. */
  datatype Activation = Activation(silu: real -> real, dsilu: real -> real)

  /** (dgate, dup, postact) of one gated pair. */
  function DSwiglu(act: Activation, gate: Num, up: Num, dout: Num): (Num, Num, Num) {
    if gate.Fin? && up.Fin? then
      (Times(Fin(act.dsilu(gate.v) * up.v), dout), Times(Fin(act.silu(gate.v)), dout), Fin(act.silu(gate.v) * up.v))
    else (Garbage, Garbage, Garbage)
  }

  datatype Option<T> = Some(value: T) | None

  /** What the epilogue of one thread finds in its registers: element i lies on row rowOf[i]. */
  datatype Frag = Frag(
    act: Activation,
    xy: seq<Num>,             // gate, up interleaved
    g: seq<Num>,              // unweighted gradient
    recv: seq<int>,           // receive token of the element's row, negative for padding
    weight: seq<real>,        // routing weight of the element's row
    mask: Option<seq<real>>,  // dropout factor of the element, if there is dropout
    rowOf: seq<nat>,
    rows: nat
  ) {
    function N(): nat { |g| }
    predicate Valid() {
      && |xy| == 2 * N() && |recv| == |weight| == |rowOf| == N()
      && (mask.Some? ==> |mask.value| == N())
      && forall i: nat :: i < N() ==> rowOf[i] < rows
    }
    predicate Active(i: nat)
      requires Valid() && i < N()
    {
      recv[i] >= 0
    }
    predicate Clean(i: nat)
      requires Valid() && i < N()
    {
      xy[2 * i].Fin? && xy[2 * i + 1].Fin? && g[i].Fin?
    }
    function D(i: nat): real
      requires Valid() && i < N()
    {
      if mask.Some? then mask.value[i] else 1.0
    }

    // The chain rule of w * sum_i g_i * d_i * silu(gate_i) * up_i, element by element.
    function Gate(i: nat): real requires Valid() && i < N() && Clean(i) { xy[2 * i].v }
    function Up(i: nat): real requires Valid() && i < N() && Clean(i) { xy[2 * i + 1].v }
    function Post(i: nat): real requires Valid() && i < N() && Clean(i) { D(i) * act.silu(Gate(i)) * Up(i) }
    function DGate(i: nat): real requires Valid() && i < N() && Clean(i) {
      weight[i] * g[i].v * D(i) * act.dsilu(Gate(i)) * Up(i)
    }
    function DUp(i: nat): real requires Valid() && i < N() && Clean(i) { weight[i] * g[i].v * D(i) * act.silu(Gate(i)) }
    function Dot(i: nat): real requires Valid() && i < N() {
      if Active(i) && Clean(i) then g[i].v * Post(i) else 0.0
    }
  }

  // ---------------------------------------------------------------------------
  // The steps of the epilogue.
  // ---------------------------------------------------------------------------

  /** After the first step: the masked backward of every element, not yet weighted. */
  predicate Differentiated(f: Frag, i: nat, dxy: seq<Num>, post: seq<Num>)
    requires f.Valid() && i < f.N() && |dxy| == 2 * f.N() && |post| == f.N()
  {
    f.Clean(i) ==>
      && post[i] == Fin(f.Post(i))
      && dxy[2 * i] == Fin(f.act.dsilu(f.Gate(i)) * f.Up(i) * (g0(f, i) * f.D(i)))
      && dxy[2 * i + 1] == Fin(f.act.silu(f.Gate(i)) * (g0(f, i) * f.D(i)))
  }

  function g0(f: Frag, i: nat): real
    requires f.Valid() && i < f.N() && f.Clean(i)
  {
    f.g[i].v
  }

  method Differentiate(f: Frag, dxy: array<Num>, post: array<Num>)
    requires f.Valid() && dxy.Length == 2 * f.N() && post.Length == f.N() && dxy != post
    modifies dxy, post
    ensures forall i: nat :: i < f.N() ==> Differentiated(f, i, dxy[..], post[..])
  {
    for i := 0 to f.N()
      invariant forall j: nat :: j < i ==> Differentiated(f, j, dxy[..], post[..])
    {
      ghost var dxy0, post0 := dxy[..], post[..];
      if f.mask.None? {
        var r := DSwiglu(f.act, f.xy[2 * i], f.xy[2 * i + 1], f.g[i]);
        dxy[2 * i], dxy[2 * i + 1], post[i] := r.0, r.1, r.2;
      } else {
        var d := f.mask.value[i];
        var r := DSwiglu(f.act, f.xy[2 * i], f.xy[2 * i + 1], Times(f.g[i], Fin(d)));
        dxy[2 * i], dxy[2 * i + 1], post[i] := r.0, r.1, Times(r.2, Fin(d));
      }
      forall j: nat | j < i ensures Differentiated(f, j, dxy[..], post[..]) {
        assert Differentiated(f, j, dxy0, post0);
      }
    }
  }

  /** After the select: padding elements are exact zeros in all four registers, the others are as before. */
  predicate Selected(f: Frag, i: nat, dxy: seq<Num>, post: seq<Num>, rd: seq<Num>)
    requires f.Valid() && i < f.N() && |dxy| == 2 * f.N() && |post| == |rd| == f.N()
  {
    if f.Active(i) then Differentiated(f, i, dxy, post) && rd[i] == f.g[i]
    else dxy[2 * i] == dxy[2 * i + 1] == post[i] == rd[i] == Fin(0.0)
  }

  method SelectPadding(f: Frag, dxy: array<Num>, post: array<Num>, rd: array<Num>)
    requires f.Valid() && dxy.Length == 2 * f.N() && post.Length == rd.Length == f.N()
    requires dxy != post && dxy != rd && post != rd
    requires forall i: nat :: i < f.N() ==> Differentiated(f, i, dxy[..], post[..])
    requires rd[..] == f.g
    modifies dxy, post, rd
    ensures forall i: nat :: i < f.N() ==> Selected(f, i, dxy[..], post[..], rd[..])
  {
    for i := 0 to f.N()
      invariant forall j: nat :: j < i ==> Selected(f, j, dxy[..], post[..], rd[..])
      invariant forall j: nat :: i <= j < f.N() ==> Differentiated(f, j, dxy[..], post[..]) && rd[j] == f.g[j]
    {
      ghost var dxy0, post0, rd0 := dxy[..], post[..], rd[..];
      var isActive := f.recv[i] >= 0;
      rd[i] := if isActive then rd[i] else Fin(0.0);
      post[i] := if isActive then post[i] else Fin(0.0);
      dxy[2 * i] := if isActive then dxy[2 * i] else Fin(0.0);
      dxy[2 * i + 1] := if isActive then dxy[2 * i + 1] else Fin(0.0);
      forall j: nat | j < f.N() && j != i
        ensures dxy[2 * j] == dxy0[2 * j] && dxy[2 * j + 1] == dxy0[2 * j + 1] && post[j] == post0[j] && rd[j] == rd0[j] {
      }
      forall j: nat | j < i ensures Selected(f, j, dxy[..], post[..], rd[..]) {
        assert Selected(f, j, dxy0, post0, rd0);
      }
      forall j: nat | i < j < f.N() ensures Differentiated(f, j, dxy[..], post[..]) {
        assert Differentiated(f, j, dxy0, post0);
      }
    }
  }

  ghost function OnRow(f: Frag, m: nat): nat -> bool
    requires f.Valid()
  {
    (i: nat) => i < f.N() && f.rowOf[i] == m
  }

  ghost function DotAt(f: Frag): nat -> real
    requires f.Valid()
  {
    (i: nat) => if i < f.N() then f.Dot(i) else 0.0
  }

  /** What the elements below n of row m add to the row's dot product. */
  ghost function RowDot(f: Frag, m: nat, n: nat): real
    requires f.Valid()
  {
    Sum(Masked(OnRow(f, m), DotAt(f)), n)
  }

  /** Every element of the row below n is padding or finite. */
  predicate RowClean(f: Frag, m: nat, n: nat)
    requires f.Valid() && n <= f.N()
  {
    forall i: nat :: i < n && f.rowOf[i] == m && f.Active(i) ==> f.Clean(i)
  }

  /** The row sums take in g * postact, before any weight has been applied. */
  method ReduceRows(f: Frag, dxy: seq<Num>, post: seq<Num>, rd: seq<Num>, acc: array<Num>)
    requires f.Valid() && |dxy| == 2 * f.N() && |post| == |rd| == f.N() && acc.Length == f.rows
    requires forall i: nat :: i < f.N() ==> Selected(f, i, dxy, post, rd)
    modifies acc
    ensures forall m: nat :: m < f.rows && RowClean(f, m, f.N()) && old(acc[m]).Fin?
              ==> acc[m] == Fin(old(acc[m]).v + RowDot(f, m, f.N()))
  {
    for i := 0 to f.N()
      invariant forall m: nat :: m < f.rows && RowClean(f, m, i) && old(acc[m]).Fin?
                  ==> acc[m] == Fin(old(acc[m]).v + RowDot(f, m, i))
    {
      var m := f.rowOf[i];
      assert Selected(f, i, dxy, post, rd);
      acc[m] := Plus(acc[m], Times(rd[i], post[i]));
    }
  }

  /** After the weight multiply: the gradients of the row-weighted layer, and the weighted activation. */
  predicate Weighted(f: Frag, i: nat, dxy: seq<Num>, post: seq<Num>)
    requires f.Valid() && i < f.N() && |dxy| == 2 * f.N() && |post| == f.N()
  {
    && (f.Active(i) && f.Clean(i) ==>
          && dxy[2 * i] == Fin(f.DGate(i)) && dxy[2 * i + 1] == Fin(f.DUp(i))
          && post[i] == Fin(f.weight[i] * f.Post(i)))
    && (!f.Active(i) ==> dxy[2 * i] == dxy[2 * i + 1] == post[i] == Fin(0.0))
  }

  lemma WeightTerms(w: real, g: real, d: real, ds: real, s: real, up: real)
    ensures ds * up * (g * d) * w == w * g * d * ds * up
    ensures s * (g * d) * w == w * g * d * s
  {
  }

  /** The three registers of element i times the row's weight. */
  function WeighPair(f: Frag, i: nat, dxy: seq<Num>): (dxy': seq<Num>)
    requires f.Valid() && i < f.N() && |dxy| == 2 * f.N()
    ensures |dxy'| == |dxy|
  {
    dxy[2 * i := Times(dxy[2 * i], Fin(f.weight[i]))][2 * i + 1 := Times(dxy[2 * i + 1], Fin(f.weight[i]))]
  }

  function WeighPost(f: Frag, i: nat, post: seq<Num>): (post': seq<Num>)
    requires f.Valid() && i < f.N() && |post| == f.N()
    ensures |post'| == |post|
  {
    post[i := Times(post[i], Fin(f.weight[i]))]
  }

  lemma WeighElement(f: Frag, i: nat, dxy: seq<Num>, post: seq<Num>, rd: seq<Num>)
    requires f.Valid() && i < f.N() && |dxy| == 2 * f.N() && |post| == |rd| == f.N()
    requires Selected(f, i, dxy, post, rd)
    ensures Weighted(f, i, WeighPair(f, i, dxy), WeighPost(f, i, post))
  {
    if f.Active(i) && f.Clean(i) {
      WeightTerms(f.weight[i], f.g[i].v, f.D(i), f.act.dsilu(f.Gate(i)), f.act.silu(f.Gate(i)), f.Up(i));
    }
  }

  lemma WeighOthers(f: Frag, i: nat, j: nat, dxy: seq<Num>, post: seq<Num>, rd: seq<Num>)
    requires f.Valid() && i < f.N() && j < f.N() && i != j && |dxy| == 2 * f.N() && |post| == |rd| == f.N()
    ensures Weighted(f, j, dxy, post) ==> Weighted(f, j, WeighPair(f, i, dxy), WeighPost(f, i, post))
    ensures Selected(f, j, dxy, post, rd) ==> Selected(f, j, WeighPair(f, i, dxy), WeighPost(f, i, post), rd)
  {
  }

  method WeightOne(f: Frag, i: nat, dxy: array<Num>, post: array<Num>)
    requires f.Valid() && i < f.N() && dxy.Length == 2 * f.N() && post.Length == f.N() && dxy != post
    modifies dxy, post
    ensures dxy[..] == WeighPair(f, i, old(dxy[..])) && post[..] == WeighPost(f, i, old(post[..]))
  {
    var w := Fin(f.weight[i]);
    dxy[2 * i] := Times(dxy[2 * i], w);
    dxy[2 * i + 1] := Times(dxy[2 * i + 1], w);
    post[i] := Times(post[i], w);
  }

  method WeightRows(f: Frag, dxy: array<Num>, post: array<Num>, ghost rd: seq<Num>)
    requires f.Valid() && dxy.Length == 2 * f.N() && post.Length == |rd| == f.N() && dxy != post
    requires forall i: nat :: i < f.N() ==> Selected(f, i, dxy[..], post[..], rd)
    modifies dxy, post
    ensures forall i: nat :: i < f.N() ==> Weighted(f, i, dxy[..], post[..])
  {
    for i := 0 to f.N()
      invariant forall j: nat :: j < i ==> Weighted(f, j, dxy[..], post[..])
      invariant forall j: nat :: i <= j < f.N() ==> Selected(f, j, dxy[..], post[..], rd)
    {
      ghost var dxy0, post0 := dxy[..], post[..];
      WeightOne(f, i, dxy, post);
      WeighElement(f, i, dxy0, post0, rd);
      forall j: nat | j < f.N() && j != i
        ensures j < i ==> Weighted(f, j, dxy[..], post[..])
        ensures i < j ==> Selected(f, j, dxy[..], post[..], rd) {
        WeighOthers(f, i, j, dxy0, post0, rd);
      }
    }
  }

  /** The whole epilogue. Real rows get the chain rule with the routing weight applied; padding rows get exact
    * zeros whatever their inputs held; and the row sums take in the unweighted dot product. */
  method EpiVisitSubtile(f: Frag, acc: array<Num>) returns (dxy: array<Num>, post: array<Num>)
    requires f.Valid() && acc.Length == f.rows
    modifies acc
    ensures fresh(dxy) && fresh(post) && dxy.Length == 2 * f.N() && post.Length == f.N()
    ensures forall i: nat :: i < f.N() ==> Weighted(f, i, dxy[..], post[..])
    ensures forall m: nat :: m < f.rows && RowClean(f, m, f.N()) && old(acc[m]).Fin?
              ==> acc[m] == Fin(old(acc[m]).v + RowDot(f, m, f.N()))
  {
    dxy := new Num[2 * f.N()](_ => Garbage);
    post := new Num[f.N()](_ => Garbage);
    var rd := new Num[f.N()](i requires 0 <= i < f.N() => f.g[i]);
    assert rd[..] == f.g;
    Differentiate(f, dxy, post);
    SelectPadding(f, dxy, post, rd);
    ReduceRows(f, dxy[..], post[..], rd[..], acc);
    WeightRows(f, dxy, post, rd[..]);
  }
}
