/** What the backward epilogue's formulas mean: they are the gradients of the weighted, masked, gated expert,
  * checked against differentiation by dual numbers. */
module ChainRule {
  import opened Sums
  import B = KernelYBwd

  // ---------------------------------------------------------------------------
  // Differentiation by dual numbers.
  // ---------------------------------------------------------------------------

  /** A value with its derivative along one direction. */
  datatype Dual = Dual(v: real, dot: real)

  function Add(a: Dual, b: Dual): Dual { Dual(a.v + b.v, a.dot + b.dot) }

  function Times(a: Dual, b: Dual): Dual { Dual(a.v * b.v, a.v * b.dot + a.dot * b.v) }

  function Scale(c: real, a: Dual): Dual { Dual(c * a.v, c * a.dot) }

  function Silu(act: B.Activation, a: Dual): Dual { Dual(act.silu(a.v), act.dsilu(a.v) * a.dot) }

  /** One expert on one routed row, with everything it depends on as dual numbers: the loss is the inner
    * product of the output gradient G with w * W2 * (d * silu(gate) * up). */
  datatype Expert = Expert(
    act: B.Activation,
    mask: nat -> real,
    grad: nat -> real,                 // G, by output column
    w: Dual,
    gate: nat -> Dual,
    up: nat -> Dual,
    w2: (nat, nat) -> Dual             // (output column, activation column)
  ) {
    function Post(i: nat): Dual { Scale(mask(i), Times(Silu(act, gate(i)), up(i))) }

    function Row(h: nat, n: nat): Dual {
      if n == 0 then Dual(0.0, 0.0) else Add(Row(h, n - 1), Times(w2(h, n - 1), Post(n - 1)))
    }

    function Inner(hidden: nat, n: nat): Dual {
      if hidden == 0 then Dual(0.0, 0.0) else Add(Inner(hidden - 1, n), Scale(grad(hidden - 1), Row(hidden - 1, n)))
    }

    function Loss(hidden: nat, n: nat): Dual { Times(w, Inner(hidden, n)) }

    // The quantities the epilogue works with.
    function G(hidden: nat, i: nat): real {
      if hidden == 0 then 0.0 else G(hidden - 1, i) + grad(hidden - 1) * w2(hidden - 1, i).v
    }
    function PostV(i: nat): real { mask(i) * act.silu(gate(i).v) * up(i).v }
    function DGate(hidden: nat, i: nat): real { w.v * G(hidden, i) * mask(i) * act.dsilu(gate(i).v) * up(i).v }
    function DUp(hidden: nat, i: nat): real { w.v * G(hidden, i) * mask(i) * act.silu(gate(i).v) }
  }

  /** The epilogue's products against the direction: gate and up gradients, and the dW2 outer product of G and
    * the weighted activation. */
  ghost function ColTerm(x: Expert, hidden: nat): nat -> real {
    (i: nat) => x.DGate(hidden, i) * x.gate(i).dot + x.DUp(hidden, i) * x.up(i).dot + x.w.v * x.PostV(i) * W2Term(x, hidden, i)
  }

  function W2Term(x: Expert, hidden: nat, i: nat): real {
    if hidden == 0 then 0.0 else W2Term(x, hidden - 1, i) + x.grad(hidden - 1) * x.w2(hidden - 1, i).dot
  }

  /** The row sum of the epilogue: unweighted gradient times masked activation. */
  ghost function DotTerm(x: Expert, hidden: nat): nat -> real {
    (i: nat) => x.G(hidden, i) * x.PostV(i)
  }

  function PostDot(x: Expert, i: nat): real {
    x.mask(i) * (x.act.silu(x.gate(i).v) * x.up(i).dot + x.act.dsilu(x.gate(i).v) * x.gate(i).dot * x.up(i).v)
  }

  lemma PostIs(x: Expert, i: nat)
    ensures x.Post(i) == Dual(x.PostV(i), PostDot(x, i))
  {
  }

  // Double sums over abstract terms a(h, i).

  ghost function RowTerms(a: (nat, nat) -> real, h: nat): nat -> real {
    (i: nat) => a(h, i)
  }

  ghost function ScaledRows(c: nat -> real, a: (nat, nat) -> real, n: nat): nat -> real {
    (h: nat) => c(h) * Sum(RowTerms(a, h), n)
  }

  ghost function ScaledCol(c: nat -> real, a: (nat, nat) -> real, i: nat): nat -> real {
    (h: nat) => c(h) * a(h, i)
  }

  ghost function ColSums(c: nat -> real, a: (nat, nat) -> real, hidden: nat): nat -> real {
    (i: nat) => Sum(ScaledCol(c, a, i), hidden)
  }

  /** r = f + c * g, term by term. */
  ghost predicate Scaled(f: nat -> real, c: real, g: nat -> real, r: nat -> real, n: nat) {
    forall i: nat :: i < n ==> r(i) == f(i) + c * g(i)
  }

  lemma {:induction false} SumScaleAdd(f: nat -> real, c: real, g: nat -> real, r: nat -> real, n: nat)
    requires Scaled(f, c, g, r, n)
    ensures Sum(r, n) == Sum(f, n) + c * Sum(g, n)
  {
    if n > 0 {
      SumScaleAdd(f, c, g, r, n - 1);
    }
  }

  lemma {:induction false} Exchange(c: nat -> real, a: (nat, nat) -> real, hidden: nat, n: nat)
    ensures Sum(ScaledRows(c, a, n), hidden) == Sum(ColSums(c, a, hidden), n)
  {
    if hidden == 0 {
      SumZero(ColSums(c, a, 0), n);
    } else {
      Exchange(c, a, hidden - 1, n);
      SumScaleAdd(ColSums(c, a, hidden - 1), c(hidden - 1), RowTerms(a, hidden - 1), ColSums(c, a, hidden), n);
    }
  }

  // The terms of the expert: values and derivatives of w2(h, i) * post(i).

  ghost function ValTerm(x: Expert): (nat, nat) -> real {
    (h: nat, i: nat) => x.w2(h, i).v * x.PostV(i)
  }

  ghost function DotTerms(x: Expert): (nat, nat) -> real {
    (h: nat, i: nat) => x.w2(h, i).v * PostDot(x, i) + x.w2(h, i).dot * x.PostV(i)
  }

  lemma {:induction false} RowIs(x: Expert, h: nat, n: nat)
    ensures x.Row(h, n) == Dual(Sum(RowTerms(ValTerm(x), h), n), Sum(RowTerms(DotTerms(x), h), n))
  {
    if n > 0 {
      RowIs(x, h, n - 1);
      PostIs(x, n - 1);
    }
  }

  ghost function Weighed(c: nat -> real, r: nat -> real): nat -> real {
    (h: nat) => c(h) * r(h)
  }

  lemma InnerUnfolds(x: Expert, h: nat, n: nat, v: real, d: real, rv: real, rd: real)
    requires x.Inner(h, n) == Dual(v, d) && x.Row(h, n) == Dual(rv, rd)
    ensures x.Inner(h + 1, n) == Dual(v + x.grad(h) * rv, d + x.grad(h) * rd)
  {
  }

  lemma {:induction false} InnerOfRows(x: Expert, hidden: nat, n: nat, rv: nat -> real, rd: nat -> real)
    requires forall h: nat :: h < hidden ==> x.Row(h, n) == Dual(rv(h), rd(h))
    ensures x.Inner(hidden, n) == Dual(Sum(Weighed(x.grad, rv), hidden), Sum(Weighed(x.grad, rd), hidden))
  {
    if hidden > 0 {
      var h := hidden - 1;
      InnerOfRows(x, h, n, rv, rd);
      InnerUnfolds(x, h, n, Sum(Weighed(x.grad, rv), h), Sum(Weighed(x.grad, rd), h), rv(h), rd(h));
    }
  }

  ghost function RowSums(a: (nat, nat) -> real, n: nat): nat -> real {
    (h: nat) => Sum(RowTerms(a, h), n)
  }

  lemma InnerIs(x: Expert, hidden: nat, n: nat)
    ensures x.Inner(hidden, n)
         == Dual(Sum(ScaledRows(x.grad, ValTerm(x), n), hidden), Sum(ScaledRows(x.grad, DotTerms(x), n), hidden))
  {
    var rv, rd := RowSums(ValTerm(x), n), RowSums(DotTerms(x), n);
    forall h: nat | h < hidden ensures x.Row(h, n) == Dual(rv(h), rd(h)) {
      RowIs(x, h, n);
    }
    InnerOfRows(x, hidden, n, rv, rd);
    RowsWeighed(x.grad, ValTerm(x), n, hidden);
    RowsWeighed(x.grad, DotTerms(x), n, hidden);
  }

  lemma RowsWeighed(c: nat -> real, a: (nat, nat) -> real, n: nat, hidden: nat)
    ensures Sum(Weighed(c, RowSums(a, n)), hidden) == Sum(ScaledRows(c, a, n), hidden)
  {
    SumEq(Weighed(c, RowSums(a, n)), ScaledRows(c, a, n), hidden);
  }

  // Column by column they are what the epilogue multiplies.

  ghost function InnerDot(x: Expert, hidden: nat): nat -> real {
    (i: nat) => x.G(hidden, i) * PostDot(x, i) + W2Term(x, hidden, i) * x.PostV(i)
  }

  lemma Distribute(a: real, c: real, v: real, p: real, q: real, b: real, u: real)
    ensures (a + c * v) * p == a * p + c * (v * p)
    ensures (a + c * v) * p + (b + c * u) * q == a * p + b * q + c * (v * p + u * q)
  {
  }

  lemma {:induction false} ValCol(x: Expert, hidden: nat, i: nat)
    ensures ColSums(x.grad, ValTerm(x), hidden)(i) == DotTerm(x, hidden)(i)
  {
    if hidden > 0 {
      ValCol(x, hidden - 1, i);
      Distribute(x.G(hidden - 1, i), x.grad(hidden - 1), x.w2(hidden - 1, i).v, x.PostV(i), 0.0, 0.0, 0.0);
    }
  }

  lemma {:induction false} DotCol(x: Expert, hidden: nat, i: nat)
    ensures ColSums(x.grad, DotTerms(x), hidden)(i) == InnerDot(x, hidden)(i)
  {
    if hidden > 0 {
      var h := hidden - 1;
      DotCol(x, h, i);
      Distribute(x.G(h, i), x.grad(h), x.w2(h, i).v, PostDot(x, i), x.PostV(i), W2Term(x, h, i), x.w2(h, i).dot);
    }
  }

  lemma InnerColumns(x: Expert, hidden: nat, n: nat) returns (v: real, d: real)
    ensures x.Inner(hidden, n) == Dual(v, d)
    ensures v == Sum(DotTerm(x, hidden), n) && d == Sum(InnerDot(x, hidden), n)
  {
    InnerIs(x, hidden, n);
    v, d := Sum(ScaledRows(x.grad, ValTerm(x), n), hidden), Sum(ScaledRows(x.grad, DotTerms(x), n), hidden);
    Exchange(x.grad, ValTerm(x), hidden, n);
    Exchange(x.grad, DotTerms(x), hidden, n);
    ColumnsAre(x, hidden, n);
  }

  lemma ColumnsAre(x: Expert, hidden: nat, n: nat)
    ensures Sum(ColSums(x.grad, ValTerm(x), hidden), n) == Sum(DotTerm(x, hidden), n)
    ensures Sum(ColSums(x.grad, DotTerms(x), hidden), n) == Sum(InnerDot(x, hidden), n)
  {
    var f, g := ColSums(x.grad, ValTerm(x), hidden), DotTerm(x, hidden);
    var f', g' := ColSums(x.grad, DotTerms(x), hidden), InnerDot(x, hidden);
    forall i: nat | i < n ensures f(i) == g(i) && f'(i) == g'(i) {
      ValCol(x, hidden, i);
      DotCol(x, hidden, i);
    }
    SumEq(f, g, n);
    SumEq(f', g', n);
  }

  lemma ColAlgebra(w: real, g: real, d: real, s: real, ds: real, u: real, gd: real, ud: real, p: real, t: real)
    ensures w * g * d * ds * u * gd + w * g * d * s * ud + w * p * t == w * (g * (d * (s * ud + ds * gd * u)) + t * p)
  {
    var a, b := s * ud, ds * gd * u;
    Distributes(d, a, b);
    Distributes(g, d * a, d * b);
    Distributes(w, g * (d * a) + g * (d * b), t * p);
    Distributes(w, g * (d * a), g * (d * b));
    assert w * (g * (d * a)) == w * g * d * s * ud;
    assert w * (g * (d * b)) == w * g * d * ds * u * gd;
    assert w * (t * p) == w * p * t;
  }

  lemma Distributes(a: real, b: real, c: real)
    ensures a * (b + c) == a * b + a * c
  {
  }

  /** What a column contributes to the movement of the loss, in terms of the epilogue's results. */
  lemma ColTermIs(x: Expert, hidden: nat, i: nat)
    ensures ColTerm(x, hidden)(i) == x.w.v * InnerDot(x, hidden)(i)
  {
    var g, d, s, ds, u := x.G(hidden, i), x.mask(i), x.act.silu(x.gate(i).v), x.act.dsilu(x.gate(i).v), x.up(i).v;
    var gd, ud, p, t := x.gate(i).dot, x.up(i).dot, x.PostV(i), W2Term(x, hidden, i);
    ColAlgebra(x.w.v, g, d, s, ds, u, gd, ud, p, t);
    assert ColTerm(x, hidden)(i) == x.w.v * g * d * ds * u * gd + x.w.v * g * d * s * ud + x.w.v * p * t;
    assert InnerDot(x, hidden)(i) == g * (d * (s * ud + ds * gd * u)) + t * p;
  }

  ghost function Zero(): nat -> real {
    (i: nat) => 0.0
  }

  lemma ColTerms(x: Expert, hidden: nat, n: nat)
    ensures Sum(ColTerm(x, hidden), n) == x.w.v * Sum(InnerDot(x, hidden), n)
  {
    forall i: nat | i < n ensures ColTerm(x, hidden)(i) == Zero()(i) + x.w.v * InnerDot(x, hidden)(i) {
      ColTermIs(x, hidden, i);
    }
    SumScaled(InnerDot(x, hidden), x.w.v, ColTerm(x, hidden), n);
  }

  lemma SumScaled(d: nat -> real, w: real, c: nat -> real, n: nat)
    requires Scaled(Zero(), w, d, c, n)
    ensures Sum(c, n) == w * Sum(d, n)
  {
    SumScaleAdd(Zero(), w, d, c, n);
    SumZero(Zero(), n);
  }

  lemma TimesDot(a: Dual, b: Dual, v: real, d: real)
    requires b == Dual(v, d)
    ensures Times(a, b).dot == a.v * d + v * a.dot
  {
  }

  lemma LossDot(x: Expert, hidden: nat, n: nat, v: real, d: real)
    requires x.Inner(hidden, n) == Dual(v, d)
    ensures x.Loss(hidden, n).dot == x.w.v * d + v * x.w.dot
  {
    TimesDot(x.w, x.Inner(hidden, n), v, d);
  }

  /** The epilogue's results are the gradients: along every direction in which the routing weight, the gates,
    * the ups and W2 may move together, the loss moves by the sum of each result times its own movement. */
  lemma EpilogueIsGradient(x: Expert, hidden: nat, n: nat)
    ensures x.Loss(hidden, n).dot == Sum(ColTerm(x, hidden), n) + Sum(DotTerm(x, hidden), n) * x.w.dot
  {
    var v, d := InnerColumns(x, hidden, n);
    LossDot(x, hidden, n, v, d);
    ColTerms(x, hidden, n);
  }
}
